/** What callers can do for the two pairs of stores to agree: keep calls that interfere apart. */
module Apart {
  import opened Domain
  import opened Query
  import opened Paging
  import opened Rows
  import opened Stores
  import opened Dated
  import opened Service
  import opened Sequential
  import opened Machine
  import opened Concurrency
  import opened Safety
  import opened Simulation
  import opened Agreement
  import opened Coupling
  import opened Steps
  import opened Refinement

  /** What `w` writes, `r` may hold a copy of and use later, or read in parts, or write too. */
  predicate Interferes(w: Call, r: Call) {
    match w
    case MarkRead(cid, _, _) => (r.Get? && r.cid == cid) || r.Create? || r.ListConversations?
    case DeleteConversation(cid, user) =>
      || (r.Get? && r.cid == cid) || r.Create? || r.ListConversations?
      || ((r.List? || r.DeleteConversation?) && r.cid == cid && r.user == user)
    case DeleteMessage(cid, mid, _) =>
      ((r.Send? || r.List?) && r.cid == cid) || (r.DeleteMessage? && r.mid == mid) || r.ListConversations?
    case Send(_, _, _) => r.ListConversations?
    case _ => false
  }

  // Copies the database still holds.

  ghost predicate Holds(s: Store, c: Conversation) {
    Find(s.convs, c.id).Some? && Same(Find(s.convs, c.id).value, c)
  }

  ghost predicate HoldsClear(s: Store, c: Conversation, user: string) {
    Find(s.convs, c.id).Some? && ClearedAt(Find(s.convs, c.id).value, user) == ClearedAt(c, user)
  }

  predicate HoldsMessage(s: Store, m: Message) {
    FindById(s.msgs, m.id) == Some(m)
  }

  function PreviewOf(s: Store, e: Entry): Option<Message> {
    FirstOf(ListInMemory(s.msgs, e.conversation.id, PreviewOptions(e.clearedAt)))
  }

  /** A list would be told the same of the conversation now. */
  ghost predicate HoldsEntry(s: Store, user: string, e: Entry) {
    && Holds(s, e.conversation) && e.clearedAt == ClearedAt(e.conversation, user)
    && (e.last.Known? ==> e.last.message == PreviewOf(s, e))
  }

  ghost predicate KeptIntact(s: Store, k: Cont) {
    k.PreviewsRead? ==> forall i :: 0 <= i < |k.entries| ==> HoldsEntry(s, k.user, k.entries[i])
  }

  /** A query that waits would be asked for the same now. */
  ghost predicate AskedIntact(s: Store, call: Call, op: Op) {
    op.ListMessages? && call.List? ==>
      && op.cid == call.cid && Find(s.convs, call.cid).Some?
      && op.o == Bounded(call.o, ClearedAt(Find(s.convs, call.cid).value, call.user))
  }

  ghost predicate AnswerIntact(s: Store, call: Call, k: Cont, ans: Answer) {
    match ans
    case FoundConversation(Some(c)) =>
      && (call.Get? ==> c.id == call.cid && Holds(s, c))
      && (call.List? ==> c.id == call.cid && HoldsClear(s, c, call.user))
    case FoundConversations(list) => forall i :: 0 <= i < |list| ==> Holds(s, list[i])
    case Created(c) => Holds(s, c)
    case FoundMessage(Some(m)) => HoldsMessage(s, m)
    case Stored(m) => HoldsMessage(s, m)
    case FoundMessages(page) =>
      call.List? && forall i :: 0 <= i < |page| ==> HoldsMessage(s, page[i]) && page[i].conversationId == call.cid
    case FoundPreview(i, page) =>
      k.PreviewsRead? && i < |k.entries| ==> FirstOf(page) == PreviewOf(s, k.entries[i])
    case _ => true
  }

  /** Everything of that kind that the call still has a use for. */
  ghost predicate Intact(s: Store, th: Thread) {
    match th
    case Waiting(call, op, k) => KeptIntact(s, k) && AskedIntact(s, call, op)
    case Holding(call, ans, k) => KeptIntact(s, k) && AnswerIntact(s, call, k, ans)
    case Ended(_, _) => true
  }

  // What is intact may be used.

  lemma HoldsStored(s: Store, c: Conversation, user: string)
    requires WellFormed(s) && s.kind.Postgres? && Holds(s, c)
    ensures Same(CurrentConversation(s, c), c) && HoldsClear(s, c, user)
    ensures ClearedAt(CurrentConversation(s, c), user) == ClearedAt(c, user)
  {
    var now := Find(s.convs, c.id).value;
    var i :| 0 <= i < |s.convs| && s.convs[i] == now;
    SameFindsSame(now, c, user);
  }

  ghost predicate ShownAlike(e: Entry, f: Entry) {
    Same(e.conversation, f.conversation) && e.clearedAt == f.clearedAt && e.last == f.last
  }

  lemma {:induction false} ShownSame(es: seq<Entry>, fs: seq<Entry>)
    requires |es| == |fs| && forall i :: 0 <= i < |es| ==> ShownAlike(es[i], fs[i])
    ensures PreviewsSim(ShownPreviews(es), ShownPreviews(fs))
  {
    if es != [] {
      var n := |es| - 1;
      assert ShownAlike(es[n], fs[n]);
      ShownSame(es[..n], fs[..n]);
      var ps, qs := ShownPreviews(es[..n]), ShownPreviews(fs[..n]);
      assert forall i :: 0 <= i < |ps| ==> PreviewSim(ps[i], qs[i]);
    }
  }

  lemma EntriesStand(s: Store, user: string, es: seq<Entry>)
    requires WellFormed(s) && s.kind.Postgres? && forall i :: 0 <= i < |es| ==> HoldsEntry(s, user, es[i])
    ensures ListStands(s, user, es)
  {
    if AllKnown(es) {
      var fs := AllFilled(s, Entries(user, CurrentList(s, es)));
      forall i | 0 <= i < |es|
        ensures ShownAlike(fs[i], es[i])
      {
        HoldsStored(s, es[i].conversation, user);
      }
      ShownSame(fs, es);
    }
  }

  lemma AnswerIsStanding(s: Store, grants: set<nat>, tid: nat, call: Call, ans: Answer, k: Cont)
    requires WellFormed(s) && s.kind.Postgres? && HoldingOk(s, grants, tid, call, ans, k)
    requires KeptIntact(s, k) && AnswerIntact(s, call, k, ans)
    ensures Stands(s, k, ans)
  {
    if ans.FoundMessages? {
      assert CurrentPage(s, ans.page) == ans.page;
    } else if ans.FoundPreview? {
      EntriesStand(s, k.user, WithAnswer(k.entries, ans.i, ans.page));
    }
  }

  // An answer is intact when it is given.

  lemma FoundAllHolds(s: Store, user: string, list: seq<Conversation>, i: nat)
    requires WellFormed(s) && SameConversations(list, Concerning(s.convs, user)) && i < |list|
    ensures Holds(s, list[i])
  {
    assert list[i] in list;
    var d := Find(Concerning(s.convs, user), list[i].id).value;
    ConcerningStored(s.convs, user, d);
    SameId(s.convs, d, Find(s.convs, d.id).value);
  }

  lemma StoredHolds(s: Store, m: Message)
    requires DistinctIds(s.msgs) && m in s.msgs
    ensures HoldsMessage(s, m)
  {
    var i :| 0 <= i < |s.msgs| && s.msgs[i] == m;
    FindByIdUnique(s.msgs, i);
  }

  lemma WrittenHolds(s: Store, op: Op, env: Env, s': Store, ans: Answer)
    requires WellFormed(s) && Exec(s, op, env, s', ans)
    requires op.CreateMessage? || op.SoftDelete? || op.SelectDeleted?
    ensures ans.Stored? ==> HoldsMessage(s', ans.stored)
  {
    ExecKeeps(s, op, env, s', ans);
    if ans.Stored? {
      if op.CreateMessage? {
        assert s'.msgs[|s.msgs|] == ans.stored;
      } else {
        var i :| 0 <= i < |s.msgs| && s.msgs[i] == FindById(s.msgs, op.mid).value;
        assert s'.msgs[i] == ans.stored;
      }
      StoredHolds(s', ans.stored);
    }
  }

  lemma CreatedHolds(s: Store, op: Op, env: Env, s': Store, ans: Answer)
    requires WellFormed(s) && Exec(s, op, env, s', ans) && op.CreateConversation?
    ensures ans.Created? ==> Holds(s', ans.conversation)
  {
    ExecKeeps(s, op, env, s', ans);
    if ans.Created? {
      assert s'.convs[|s.convs|] == ans.conversation;
      SameId(s'.convs, ans.conversation, Find(s'.convs, ans.conversation.id).value);
    }
  }

  lemma PageHolds(s: Store, cid: string, o: ListOptions, page: seq<Message>)
    requires WellFormed(s) && Lists(s.kind, s.msgs, cid, o, page)
    ensures forall i :: 0 <= i < |page| ==> HoldsMessage(s, page[i]) && page[i].conversationId == cid
  {
    forall i | 0 <= i < |page|
      ensures HoldsMessage(s, page[i]) && page[i].conversationId == cid
    {
      ListsStored(s.kind, s.msgs, cid, o, page, page[i]);
      StoredHolds(s, page[i]);
    }
  }

  lemma LookedUpHolds(s: Store, call: Call, k: Cont, env: Env, s': Store, ans: Answer, cid: string)
    requires WellFormed(s) && s.kind.Postgres? && Exec(s, FindConversation(cid), env, s', ans)
    requires (call.Get? || call.List?) ==> call.cid == cid
    ensures AnswerIntact(s', call, k, ans)
  {
    if ans.found.Some? {
      assert Holds(s, ans.found.value);
      if call.List? {
        HoldsStored(s, ans.found.value, call.user);
      }
    }
  }

  lemma PreviewHolds(s: Store, user: string, es: seq<Entry>, env: Env, s': Store, ans: Answer)
    requires DistinctInstants(s.msgs) && Exec(s, QueryPreviews(Queries(es)), env, s', ans)
    ensures s' == s && ans.FoundPreview? && ans.i < |es| && FirstOf(ans.page) == PreviewOf(s, es[ans.i])
  {
    var e := es[ans.i];
    ListsOne(s.kind, s.msgs, e.conversation.id, PreviewOptions(e.clearedAt), ans.page);
  }

  lemma AnswerIsIntact(s: Store, grants: set<nat>, tid: nat, call: Call, op: Op, k: Cont, env: Env, s': Store,
      ans: Answer)
    requires WellFormed(s) && s.kind.Postgres? && DistinctInstants(s.msgs)
    requires WaitingOk(s, grants, tid, call, op, k) && Exec(s, op, env, s', ans)
    ensures AnswerIntact(s', call, k, ans)
  {
    if op.FindConversation? {
      LookedUpHolds(s, call, k, env, s', ans, op.cid);
    } else if op.FindByParticipant? {
      forall i | 0 <= i < |ans.list|
        ensures Holds(s, ans.list[i])
      {
        FoundAllHolds(s, op.user, ans.list, i);
      }
    } else if op.ListMessages? {
      PageHolds(s, op.cid, op.o, ans.page);
    } else if op.QueryPreviews? {
      PreviewHolds(s, k.user, k.entries, env, s', ans);
    } else {
      OthersHold(s, call, op, k, env, s', ans);
    }
  }

  lemma OthersHold(s: Store, call: Call, op: Op, k: Cont, env: Env, s': Store, ans: Answer)
    requires WellFormed(s) && Exec(s, op, env, s', ans)
    requires !op.FindConversation? && !op.FindByParticipant? && !op.ListMessages? && !op.QueryPreviews?
    ensures AnswerIntact(s', call, k, ans)
  {
    if op.CreateConversation? {
      CreatedHolds(s, op, env, s', ans);
    } else if op.CreateMessage? || op.SoftDelete? || op.SelectDeleted? {
      WrittenHolds(s, op, env, s', ans);
    } else if op.FindMessage? && ans.message.Some? {
      StoredHolds(s, ans.message.value);
    }
  }

  // What a call keeps of an answer, or asks because of it, is intact when it goes on.

  lemma GoesOnIntact(s: Store, grants: set<nat>, tid: nat, call: Call, ans: Answer, k: Cont, now: int)
    requires HoldingOk(s, grants, tid, call, ans, k) && KeptIntact(s, k) && AnswerIntact(s, call, k, ans)
    ensures Intact(s, AsThread(call, Resume(k, ans, now).phase))
  {
    if ans.FoundConversations? {
      assert forall i :: 0 <= i < |ans.list| ==> HoldsEntry(s, k.user, Entries(k.user, ans.list)[i]);
    } else if ans.FoundPreview? {
      assert forall j :: 0 <= j < |k.entries| ==>
        HoldsEntry(s, k.user, WithAnswer(k.entries, ans.i, ans.page)[j]);
    }
  }

  // Writes that spare a copy.

  lemma {:induction false} FindMarked(cs: seq<Conversation>, cid: string, user: string, mark: Mark, id: string)
    ensures var was, now := Find(cs, id), Find(Marked(cs, cid, user, mark), id);
      (was.Some? <==> now.Some?) && (was.Some? ==> now.value == Restamp(was.value, cid, user, mark))
  {
    if cs != [] {
      assert Marked(cs, cid, user, mark)[1..] == Marked(cs[1..], cid, user, mark);
      FindMarked(cs[1..], cid, user, mark, id);
    }
  }

  lemma {:induction false} FindTombstoned(ms: seq<Message>, mid: string, at: int, id: string)
    ensures var was, now := FindById(ms, id), FindById(Tombstoned(ms, mid, at), id);
      && (was.Some? <==> now.Some?)
      && (was.Some? ==> now.value == if id == mid then Tombstone(was.value, at) else was.value)
  {
    if ms != [] {
      assert Tombstoned(ms, mid, at)[1..] == Tombstoned(ms[1..], mid, at);
      FindTombstoned(ms[1..], mid, at, id);
    }
  }

  lemma {:induction false} FindByIdAppend(ms: seq<Message>, m: Message, id: string)
    requires FindById(ms, id).Some?
    ensures FindById(ms + [m], id) == FindById(ms, id)
  {
    assert (ms + [m])[0] == ms[0] && (ms + [m])[1..] == ms[1..] + [m];
    if ms[0].id != id {
      FindByIdAppend(ms[1..], m, id);
    }
  }

  lemma {:induction false} ReadLeavesClear(ps: seq<Participant>, user: string, at: int, other: string)
    ensures var was, now := FindParticipant(ps, other), FindParticipant(StampFirst(ps, user, Read(at)), other);
      (was.Some? <==> now.Some?) && (was.Some? ==> now.value.clearedAt == was.value.clearedAt)
  {
    if ps != [] && ps[0].userId != user {
      ReadLeavesClear(ps[1..], user, at, other);
      assert StampFirst(ps, user, Read(at))[1..] == StampFirst(ps[1..], user, Read(at));
    } else if ps != [] {
      assert StampFirst(ps, user, Read(at))[1..] == ps[1..];
    }
  }

  lemma {:induction false} OthersClear(ps: seq<Participant>, user: string, mark: Mark, other: string)
    requires other != user
    ensures FindParticipant(StampFirst(ps, user, mark), other) == FindParticipant(ps, other)
  {
    if ps != [] && ps[0].userId != user {
      OthersClear(ps[1..], user, mark, other);
      assert StampFirst(ps, user, mark)[1..] == StampFirst(ps[1..], user, mark);
    } else if ps != [] {
      assert StampFirst(ps, user, mark)[1..] == ps[1..];
    }
  }

  /** A mark by `user` on `cid` that is a read mark, or somebody else's, leaves the clearedAt of `other`. */
  lemma MarkLeavesClear(s: Store, cid: string, user: string, mark: Mark, c: Conversation, other: string)
    requires HoldsClear(s, c, other) && (mark.Read? || user != other || c.id != cid)
    ensures HoldsClear(s.(convs := Marked(s.convs, cid, user, mark)), c, other)
  {
    FindMarked(s.convs, cid, user, mark, c.id);
    var was := Find(s.convs, c.id).value;
    if c.id == cid {
      if mark.Read? {
        ReadLeavesClear(was.participants, user, mark.at, other);
      } else {
        OthersClear(was.participants, user, mark, other);
      }
    }
  }

  lemma MarkLeavesOthers(s: Store, cid: string, user: string, mark: Mark, c: Conversation)
    requires Holds(s, c) && c.id != cid
    ensures Holds(s.(convs := Marked(s.convs, cid, user, mark)), c)
  {
    FindMarked(s.convs, cid, user, mark, c.id);
  }

  // Steps of another call.

  lemma {:induction false} FindAppended(cs: seq<Conversation>, c: Conversation, id: string)
    requires Find(cs, id).Some?
    ensures Find(cs + [c], id) == Find(cs, id)
  {
    assert (cs + [c])[0] == cs[0] && (cs + [c])[1..] == cs[1..] + [c];
    if cs[0].id != id {
      FindAppended(cs[1..], c, id);
    }
  }

  /** Who holds what. */
  ghost predicate HeldBy(call: Call, ans: Answer) {
    match ans
    case FoundConversations(_) => call.ListConversations?
    case FoundPreview(_, _) => call.ListConversations?
    case Created(_) => call.Create?
    case FoundMessage(Some(m)) => call.DeleteMessage? && m.id == call.mid
    case Stored(m) => if call.Send? then m.conversationId == call.cid else m.deletedAt.Some?
    case _ => true
  }

  lemma HoldersAre(s: Store, grants: set<nat>, tid: nat, th: Thread)
    requires ThreadOk(s, grants, tid, th)
    ensures th.Holding? ==> HeldBy(th.call, th.ans)
    ensures !th.Ended? && th.k.PreviewsRead? ==> th.call.ListConversations?
  {
  }

  /** Whatever is only created leaves a call alone that does not list conversations; and a conversation that is created
      leaves every call alone. */
  lemma GrowthSpares(s: Store, op: Op, env: Env, s': Store, ans: Answer, grants: set<nat>, tid: nat, th: Thread)
    requires Exec(s, op, env, s', ans) && (op.CreateConversation? || op.CreateMessage?)
    requires ThreadOk(s, grants, tid, th) && Intact(s, th)
    requires op.CreateMessage? && !th.Ended? ==> !th.call.ListConversations?
    ensures Intact(s', th)
  {
    forall id | Find(s.convs, id).Some?
      ensures Find(s'.convs, id) == Find(s.convs, id)
    {
      if s'.convs != s.convs {
        FindAppended(s.convs, s'.convs[|s.convs|], id);
      }
    }
    forall id | FindById(s.msgs, id).Some?
      ensures FindById(s'.msgs, id) == FindById(s.msgs, id)
    {
      if s'.msgs != s.msgs {
        FindByIdAppend(s.msgs, s'.msgs[|s.msgs|], id);
      }
    }
    HoldersAre(s, grants, tid, th);
    IntactGrows(s, s', th);
  }

  lemma IntactGrows(s: Store, s': Store, th: Thread)
    requires forall id :: Find(s.convs, id).Some? ==> Find(s'.convs, id) == Find(s.convs, id)
    requires forall id :: FindById(s.msgs, id).Some? ==> FindById(s'.msgs, id) == FindById(s.msgs, id)
    requires Intact(s, th) && (s'.msgs == s.msgs || Unlisting(th))
    ensures Intact(s', th)
  {
  }

  /** The call does not keep previews. */
  predicate Unlisting(th: Thread) {
    th.Ended? || (!th.k.PreviewsRead? && (th.Holding? ==> !th.ans.FoundPreview?))
  }

  lemma MarkSparesAnswer(s: Store, cid: string, user: string, mark: Mark, call: Call, k: Cont, ans: Answer)
    requires HeldBy(call, ans) && AnswerIntact(s, call, k, ans)
    requires !Interferes(if mark.Read? then MarkRead(cid, user, mark.at) else DeleteConversation(cid, user), call)
    ensures AnswerIntact(s.(convs := Marked(s.convs, cid, user, mark)), call, k, ans)
  {
    if ans.FoundConversation? && ans.found.Some? {
      var c := ans.found.value;
      if call.Get? {
        MarkLeavesOthers(s, cid, user, mark, c);
      } else if call.List? {
        MarkLeavesClear(s, cid, user, mark, c, call.user);
      }
    }
  }

  lemma MarkSparesAsked(s: Store, cid: string, user: string, mark: Mark, call: Call, op: Op)
    requires AskedIntact(s, call, op)
    requires !Interferes(if mark.Read? then MarkRead(cid, user, mark.at) else DeleteConversation(cid, user), call)
    ensures AskedIntact(s.(convs := Marked(s.convs, cid, user, mark)), call, op)
  {
    if op.ListMessages? && call.List? {
      MarkLeavesClear(s, cid, user, mark, Find(s.convs, call.cid).value, call.user);
    }
  }

  lemma MarkSpares(s: Store, cid: string, user: string, mark: Mark, grants: set<nat>, tid: nat, th: Thread)
    requires ThreadOk(s, grants, tid, th) && Intact(s, th)
    requires !Interferes(if mark.Read? then MarkRead(cid, user, mark.at) else DeleteConversation(cid, user), th.call)
    ensures Intact(s.(convs := Marked(s.convs, cid, user, mark)), th)
  {
    HoldersAre(s, grants, tid, th);
    if th.Holding? {
      MarkSparesAnswer(s, cid, user, mark, th.call, th.k, th.ans);
    } else if th.Waiting? {
      MarkSparesAsked(s, cid, user, mark, th.call, th.op);
    }
  }

  lemma TombstoneLeaves(s: Store, mid: string, at: int, m: Message)
    requires HoldsMessage(s, m) && (m.id == mid ==> m.deletedAt.Some?)
    ensures HoldsMessage(s.(msgs := Tombstoned(s.msgs, mid, at)), m)
  {
    FindTombstoned(s.msgs, mid, at, m.id);
  }

  /** A deletion spares tombstones, and the messages of other conversations. */
  lemma DeletionLeaves(s: Store, cid: string, mid: string, user: string, at: int, m: Message)
    requires WellFormed(s) && Owns(s.msgs, cid, mid, user) && HoldsMessage(s, m)
    requires m.conversationId != cid || m.id != mid || m.deletedAt.Some?
    ensures HoldsMessage(s.(msgs := Tombstoned(s.msgs, mid, at)), m)
  {
    var i :| 0 <= i < |s.msgs| && s.msgs[i].id == mid && s.msgs[i].conversationId == cid;
    FindByIdUnique(s.msgs, i);
    TombstoneLeaves(s, mid, at, m);
  }

  lemma DeletionSparesAnswer(s: Store, cid: string, mid: string, user: string, at: int, call: Call, k: Cont,
      ans: Answer)
    requires WellFormed(s) && Owns(s.msgs, cid, mid, user) && HeldBy(call, ans) && AnswerIntact(s, call, k, ans)
    requires !Interferes(DeleteMessage(cid, mid, user), call)
    ensures AnswerIntact(s.(msgs := Tombstoned(s.msgs, mid, at)), call, k, ans)
  {
    match ans
    case FoundMessage(Some(m)) => DeletionLeaves(s, cid, mid, user, at, m);
    case Stored(m) => DeletionLeaves(s, cid, mid, user, at, m);
    case FoundMessages(page) =>
      forall i | 0 <= i < |page|
        ensures HoldsMessage(s.(msgs := Tombstoned(s.msgs, mid, at)), page[i])
      {
        DeletionLeaves(s, cid, mid, user, at, page[i]);
      }
    case _ =>
  }

  lemma DeletionSpares(s: Store, cid: string, mid: string, user: string, at: int, grants: set<nat>, tid: nat,
      th: Thread)
    requires WellFormed(s) && Owns(s.msgs, cid, mid, user) && ThreadOk(s, grants, tid, th) && Intact(s, th)
    requires !Interferes(DeleteMessage(cid, mid, user), th.call)
    ensures Intact(s.(msgs := Tombstoned(s.msgs, mid, at)), th)
  {
    HoldersAre(s, grants, tid, th);
    if th.Holding? {
      DeletionSparesAnswer(s, cid, mid, user, at, th.call, th.k, th.ans);
    }
  }

  /** A call that waits for an operation that writes, and what it is. */
  lemma WriterIs(s: Store, grants: set<nat>, tid: nat, call: Call, op: Op, k: Cont)
    requires WaitingOk(s, grants, tid, call, op, k)
    ensures op.MarkParticipant? && op.mark.Read? ==> call == MarkRead(op.cid, op.user, op.mark.at)
    ensures op.MarkParticipant? && op.mark.Cleared? ==> call == DeleteConversation(op.cid, op.user)
    ensures op.SoftDelete? ==>
      call.DeleteMessage? && call.mid == op.mid && Owns(s.msgs, call.cid, call.mid, call.user)
    ensures op.CreateMessage? ==> call.Send?
  {
  }

  lemma OtherExecutes(s: Store, grants: set<nat>, w: nat, wcall: Call, op: Op, k: Cont, env: Env, s': Store,
      ans: Answer, tid: nat, th: Thread)
    requires WellFormed(s) && WaitingOk(s, grants, w, wcall, op, k) && Exec(s, op, env, s', ans)
    requires ThreadOk(s, grants, tid, th) && Intact(s, th) && (!th.Ended? ==> !Interferes(wcall, th.call))
    ensures Intact(s', th)
  {
    WriterIs(s, grants, w, wcall, op, k);
    if !th.Ended? {
      if op.CreateConversation? || op.CreateMessage? {
        GrowthSpares(s, op, env, s', ans, grants, tid, th);
      } else if op.MarkParticipant? {
        MarkSpares(s, op.cid, op.user, op.mark, grants, tid, th);
      } else if op.SoftDelete? && s' != s {
        DeletionSpares(s, wcall.cid, op.mid, wcall.user, op.at, grants, tid, th);
      } else {
        assert s' == s;
      }
    }
  }

  // Deletions that wait.

  /** With the deletions applied that wait and do not interfere, the call's copies are still what is held. */
  lemma {:induction false} AheadIntact(b: Sys, waits: seq<nat>, tid: nat)
    requires Inv(b) && tid in b.threads && Intact(b.store, b.threads[tid]) && !b.threads[tid].Ended?
    requires forall w :: w in waits ==> w in b.threads && Deleting(b.threads[w])
    requires forall w :: w in waits ==> !Interferes(b.threads[w].call, b.threads[tid].call)
    ensures Intact(AheadOf(b, waits), b.threads[tid])
  {
    if waits != [] {
      var front, w := waits[..|waits| - 1], waits[|waits| - 1];
      AheadIntact(b, front, tid);
      assert Ops(b, waits)[..|waits| - 1] == Ops(b, front);
      assert waits[|waits| - 1] in waits;
      WriteIntact(b, front, w, tid);
    }
  }

  lemma WriteIntact(b: Sys, waits: seq<nat>, w: nat, tid: nat)
    requires Inv(b) && tid in b.threads && Intact(AheadOf(b, waits), b.threads[tid]) && !b.threads[tid].Ended?
    requires w in b.threads && Deleting(b.threads[w]) && !Interferes(b.threads[w].call, b.threads[tid].call)
    ensures Intact(Write(AheadOf(b, waits), b.threads[w].op), b.threads[tid])
  {
    AheadKeeps(b, waits);
    AheadOk(b, waits, tid);
    AheadOk(b, waits, w);
    var th := b.threads[w];
    WriteSpares(AheadOf(b, waits), b.grants, w, th.call, th.op, th.k, tid, b.threads[tid]);
  }

  lemma WriteSpares(s: Store, grants: set<nat>, w: nat, wcall: Call, op: Op, k: Cont, tid: nat, th: Thread)
    requires WellFormed(s) && WaitingOk(s, grants, w, wcall, op, k) && IsDated(op)
    requires ThreadOk(s, grants, tid, th) && Intact(s, th) && !th.Ended? && !Interferes(wcall, th.call)
    ensures Intact(Write(s, op), th)
  {
    WriterIs(s, grants, w, wcall, op, k);
    if op.MarkParticipant? {
      MarkSpares(s, op.cid, op.user, op.mark, grants, tid, th);
    } else {
      DeletionSpares(s, wcall.cid, op.mid, wcall.user, op.at, grants, tid, th);
    }
  }

  lemma {:induction false} OnlyClear(ops: seq<Op>, k: nat, cid: string, user: string)
    requires k < |ops| && ClearsRow(ops[k], cid, user)
    requires forall j :: 0 <= j < |ops| && j != k ==> !ClearsRow(ops[j], cid, user)
    ensures LastClear(ops, cid, user) == Some(ops[k].mark.at) && LastClear(Without(ops, k), cid, user) == None
    decreases |ops|
  {
    var n := |ops| - 1;
    if k == n {
      assert Without(ops, k) == ops[..n];
      NoClear(ops[..n], cid, user);
    } else {
      var rest := Without(ops, k);
      assert rest[..|rest| - 1] == Without(ops[..n], k) && rest[|rest| - 1] == ops[n];
      OnlyClear(ops[..n], k, cid, user);
    }
  }

  /** Of two deletions of one conversation by one user, the one asked for later executes first: if they carry different
      instants and no third one waits, no in-memory run keeps step with that. */
  lemma OvertakenUnmatched(bs: seq<Sys>, ls: seq<Label>, i: nat, j: nat, k: nat, cid: string, user: string)
    requires GoodRun(bs, ls) && i < |ls| && ls[i].Execute?
    requires j < k < |WaitsAt(bs, ls, i)| && WaitsAt(bs, ls, i)[k] == ls[i].tid
    requires var ops := Ops(bs[i], WaitsAt(bs, ls, i));
      && ClearsRow(ops[j], cid, user) && ClearsRow(ops[k], cid, user) && ops[j].mark.at != ops[k].mark.at
      && forall n :: 0 <= n < |ops| && n != j && n != k ==> !ClearsRow(ops[n], cid, user)
    ensures !exists m :: Matches(m, bs, ls, |ls|)
  {
    var waits := WaitsAt(bs, ls, i);
    var ops := Ops(bs[i], waits);
    WaitsAlong(bs, ls, i);
    AtState(bs, ls, i);
    LastOfRow(ops, k, cid, user);
    var rest := Without(ops, k);
    LastOfRow(rest, j, cid, user);
    assert waits[k] in waits;
    FitsDated(bs[i], waits, ls[i].tid, ls[i].id, ls[i].gate, k);
    MatchedExactly(bs, ls);
    assert !FitsAt(bs, ls, i);
  }

  lemma {:induction false} LastOfRow(ops: seq<Op>, k: nat, cid: string, user: string)
    requires k < |ops| && ClearsRow(ops[k], cid, user)
    requires forall j :: k < j < |ops| ==> !ClearsRow(ops[j], cid, user)
    ensures LastClear(ops, cid, user) == Some(ops[k].mark.at)
    decreases |ops|
  {
    if k < |ops| - 1 {
      LastOfRow(ops[..|ops| - 1], k, cid, user);
    }
  }

  lemma {:induction false} NoClear(ops: seq<Op>, cid: string, user: string)
    requires forall j :: 0 <= j < |ops| ==> !ClearsRow(ops[j], cid, user)
    ensures LastClear(ops, cid, user) == None
  {
    if ops != [] {
      NoClear(ops[..|ops| - 1], cid, user);
    }
  }

  lemma {:induction false} OnlyDeletion(ops: seq<Op>, k: nat)
    requires k < |ops| && ops[k].SoftDelete?
    requires forall j :: 0 <= j < k ==> !(ops[j].SoftDelete? && ops[j].mid == ops[k].mid)
    ensures FirstDeletion(ops, ops[k].mid) == Some(ops[k].at)
    decreases |ops|
  {
    var n := |ops| - 1;
    if k == n {
      NoDeletion(ops[..n], ops[k].mid);
    } else {
      OnlyDeletion(ops[..n], k);
    }
  }

  lemma {:induction false} NoDeletion(ops: seq<Op>, mid: string)
    requires forall j :: 0 <= j < |ops| ==> !(ops[j].SoftDelete? && ops[j].mid == mid)
    ensures FirstDeletion(ops, mid) == None
  {
    if ops != [] {
      NoDeletion(ops[..|ops| - 1], mid);
    }
  }

  /** Deletions that do not interfere may execute in any order. */
  lemma AloneInOrder(b: Sys, waits: seq<nat>, k: nat)
    requires Inv(b) && WaitsAre(b, waits) && k < |waits|
    requires forall j :: 0 <= j < |waits| && j != k ==>
      waits[j] in b.threads && waits[k] in b.threads
      && !Interferes(b.threads[waits[j]].call, b.threads[waits[k]].call)
    ensures IsDated(Ops(b, waits)[k]) && InOrder(b.store, Ops(b, waits), k)
  {
    var ops := Ops(b, waits);
    OpsAreDated(b, waits);
    forall j | 0 <= j < |waits| && j != k
      ensures ops[k].MarkParticipant? ==> !ClearsRow(ops[j], ops[k].cid, ops[k].user)
      ensures ops[k].SoftDelete? ==> !(ops[j].SoftDelete? && ops[j].mid == ops[k].mid)
    {
      WaiterIs(b, waits, j);
      WaiterIs(b, waits, k);
    }
    if ops[k].MarkParticipant? {
      OnlyClear(ops, k, ops[k].cid, ops[k].user);
    } else {
      OnlyDeletion(ops, k);
    }
  }

  lemma WaiterIs(b: Sys, waits: seq<nat>, j: nat)
    requires Inv(b) && WaitsAre(b, waits) && j < |waits|
    ensures waits[j] in b.threads && b.threads[waits[j]].Waiting? && Ops(b, waits)[j] == b.threads[waits[j]].op
    ensures var op, call := Ops(b, waits)[j], b.threads[waits[j]].call;
      && (op.MarkParticipant? && op.mark.Cleared? ==> call == DeleteConversation(op.cid, op.user))
      && (op.SoftDelete? ==> call.DeleteMessage? && call.mid == op.mid)
  {
    var tid := waits[j];
    assert tid in waits;
    var th := b.threads[tid];
    assert ThreadOk(b.store, b.grants, tid, th);
    WriterIs(b.store, b.grants, tid, th.call, th.op, th.k);
  }

  // Runs.

  predicate InFlight(s: Sys, tid: nat) {
    tid in s.threads && !s.threads[tid].Ended?
  }

  /** Step i does not write what thread `tid` may hold a copy of. */
  ghost predicate Spared(bs: seq<Sys>, ls: seq<Label>, i: nat, tid: nat)
    requires i < |ls| < |bs|
  {
    Spares(bs[i], ls[i], tid)
  }

  ghost predicate Spares(s: Sys, l: Label, tid: nat) {
    l.Execute? && l.tid != tid && InFlight(s, tid) && InFlight(s, l.tid) ==>
      !Interferes(s.threads[l.tid].call, s.threads[tid].call)
  }

  lemma OwnStep(s: Sys, l: Label, s': Sys, tid: nat)
    requires Inv(s) && s.store.kind.Postgres? && DistinctInstants(s.store.msgs)
    requires Next(s, l, s') && !l.Tick? && l.tid == tid
    requires tid in s.threads ==> Intact(s.store, s.threads[tid])
    ensures tid in s'.threads && Intact(s'.store, s'.threads[tid])
  {
    if l.Execute? {
      OwnExecute(s, tid, l.id, l.gate, s');
    } else if l.Continue? {
      var th := s.threads[tid];
      assert ThreadOk(s.store, s.grants, tid, th);
      GoesOnIntact(s.store, s.grants, tid, th.call, th.ans, th.k, s.clock);
    }
  }

  lemma OwnExecute(s: Sys, tid: nat, id: string, gate: bool, s': Sys)
    requires Inv(s) && s.store.kind.Postgres? && DistinctInstants(s.store.msgs) && Next(s, Execute(tid, id, gate), s')
    ensures s'.threads[tid].Holding?
    ensures AnswerIntact(s'.store, s'.threads[tid].call, s'.threads[tid].k, s'.threads[tid].ans)
    ensures s'.threads[tid].k == s.threads[tid].k && s'.threads[tid].call == s.threads[tid].call
    ensures KeptIntact(s.store, s.threads[tid].k) ==> Intact(s'.store, s'.threads[tid])
  {
    var th := s.threads[tid];
    var ans := AnswerOf(s, tid, id, gate, s');
    assert ThreadOk(s.store, s.grants, tid, th);
    AnswerIsIntact(s.store, s.grants, tid, th.call, th.op, th.k, Env(id, s.clock, gate), s'.store, ans);
    assert th.k.PreviewsRead? ==> s'.store == s.store;
  }

  lemma OtherStep(s: Sys, l: Label, s': Sys, tid: nat)
    requires Inv(s) && Next(s, l, s') && (l.Tick? || l.tid != tid)
    requires tid in s.threads && Intact(s.store, s.threads[tid])
    requires l.Execute? && InFlight(s, tid) ==> !Interferes(s.threads[l.tid].call, s.threads[tid].call)
    ensures tid in s'.threads && Intact(s'.store, s'.threads[tid])
  {
    if l.Execute? {
      var w := s.threads[l.tid];
      var ans := AnswerOf(s, l.tid, l.id, l.gate, s');
      assert ThreadOk(s.store, s.grants, l.tid, w) && ThreadOk(s.store, s.grants, tid, s.threads[tid]);
      OtherExecutes(s.store, s.grants, l.tid, w.call, w.op, w.k, Env(l.id, s.clock, l.gate), s'.store, ans, tid,
        s.threads[tid]);
    }
  }

  /** The runs this is about. */
  ghost predicate GoodRun(bs: seq<Sys>, ls: seq<Label>) {
    && Run(bs, ls) && GoodLabels(ls) && bs[0].store.kind.Postgres?
    && DistinctInstants(bs[|bs| - 1].store.msgs) && DistinctCreation(bs[|bs| - 1].store.convs)
  }

  lemma AtState(bs: seq<Sys>, ls: seq<Label>, i: nat)
    requires GoodRun(bs, ls) && i < |bs|
    ensures Inv(bs[i]) && bs[i].store.kind.Postgres? && DistinctInstants(bs[i].store.msgs)
    ensures i < |ls| ==> Next(bs[i], ls[i], bs[i + 1])
  {
    AgreesAllAlong(bs, ls, i);
    SameKind(bs, ls, 0, i);
    assert i < |ls| ==> Moves(bs, ls, i);
  }

  /** A call that is spared all along holds nothing the database does not. */
  lemma {:induction false} IntactAlong(bs: seq<Sys>, ls: seq<Label>, n: nat, tid: nat)
    requires GoodRun(bs, ls) && n < |bs| && tid in bs[n].threads
    requires forall i :: 0 <= i < n ==> Spared(bs, ls, i, tid)
    ensures Intact(bs[n].store, bs[n].threads[tid])
  {
    if n > 0 {
      var s, l, s' := bs[n - 1], ls[n - 1], bs[n];
      AtState(bs, ls, n - 1);
      if tid in s.threads {
        IntactAlong(bs, ls, n - 1, tid);
      }
      assert Spared(bs, ls, n - 1, tid);
      IntactStep(s, l, s', tid);
    }
  }

  lemma IntactStep(s: Sys, l: Label, s': Sys, tid: nat)
    requires Inv(s) && s.store.kind.Postgres? && DistinctInstants(s.store.msgs) && Next(s, l, s') && tid in s'.threads
    requires tid in s.threads ==> Intact(s.store, s.threads[tid])
    requires Spares(s, l, tid)
    ensures Intact(s'.store, s'.threads[tid])
  {
    if !l.Tick? && l.tid == tid {
      OwnStep(s, l, s', tid);
    } else {
      OtherStep(s, l, s', tid);
    }
  }

  lemma {:induction false} WaitsAlong(bs: seq<Sys>, ls: seq<Label>, n: nat)
    requires Run(bs, ls) && n < |bs|
    ensures WaitsAre(bs[n], WaitsAt(bs, ls, n))
  {
    if n > 0 {
      WaitsAlong(bs, ls, n - 1);
      assert Moves(bs, ls, n - 1);
      WaitsAfterAre(bs[n - 1], WaitsAt(bs, ls, n - 1), ls[n - 1], bs[n]);
    }
  }

  /** A step fits if what its call holds is intact, with all deletions that wait applied. */
  lemma IntactFits(bs: seq<Sys>, ls: seq<Label>, i: nat)
    requires GoodRun(bs, ls) && i < |ls|
    requires (ls[i].Execute? || ls[i].Continue?) && ls[i].tid in bs[i].threads ==>
      Deleting(bs[i].threads[ls[i].tid]) || Intact(AheadOf(bs[i], WaitsAt(bs, ls, i)), bs[i].threads[ls[i].tid])
    requires forall k :: 0 <= k < |WaitsAt(bs, ls, i)| && ls[i].Execute? && WaitsAt(bs, ls, i)[k] == ls[i].tid ==>
      IsDated(Ops(bs[i], WaitsAt(bs, ls, i))[k]) && InOrder(bs[i].store, Ops(bs[i], WaitsAt(bs, ls, i)), k)
    ensures FitsAt(bs, ls, i)
  {
    AtState(bs, ls, i);
    WaitsAlong(bs, ls, i);
    var b, waits, l := bs[i], WaitsAt(bs, ls, i), ls[i];
    if l.Continue? {
      AheadKeeps(b, waits);
      AheadOk(b, waits, l.tid);
      var th := b.threads[l.tid];
      AnswerIsStanding(AheadOf(b, waits), b.grants, l.tid, th.call, th.ans, th.k);
    }
  }

  // Calls that are kept apart.

  /** No two calls that interfere are in flight together. */
  ghost predicate KeptApart(bs: seq<Sys>) {
    forall i, t, u :: 0 <= i < |bs| && t != u && InFlight(bs[i], t) && InFlight(bs[i], u) ==>
      !Interferes(bs[i].threads[t].call, bs[i].threads[u].call)
  }

  lemma ApartFits(bs: seq<Sys>, ls: seq<Label>, i: nat)
    requires GoodRun(bs, ls) && KeptApart(bs) && i < |ls|
    ensures FitsAt(bs, ls, i)
  {
    AtState(bs, ls, i);
    WaitsAlong(bs, ls, i);
    var b, waits := bs[i], WaitsAt(bs, ls, i);
    if (ls[i].Execute? || ls[i].Continue?) && !Deleting(b.threads[ls[i].tid]) {
      IntactAlong(bs, ls, i, ls[i].tid);
      AheadIntact(b, waits, ls[i].tid);
    }
    forall k | 0 <= k < |waits|
      ensures IsDated(Ops(b, waits)[k]) && InOrder(b.store, Ops(b, waits), k)
    {
      assert forall j :: 0 <= j < |waits| ==> waits[j] in waits;
      AloneInOrder(b, waits, k);
    }
    IntactFits(bs, ls, i);
  }

  /** Callers who keep interfering calls apart cannot tell the two pairs of stores apart, however their calls
      interleave. */
  lemma ApartRunsAgree(bs: seq<Sys>, ls: seq<Label>) returns (m: Match)
    requires Run(bs, ls) && GoodLabels(ls) && bs[0].store.kind.Postgres? && KeptApart(bs)
    requires DistinctInstants(bs[|bs| - 1].store.msgs) && DistinctCreation(bs[|bs| - 1].store.convs)
    ensures Matches(m, bs, ls, |ls|)
  {
    forall i | 0 <= i < |ls|
      ensures FitsAt(bs, ls, i)
    {
      ApartFits(bs, ls, i);
    }
    var n;
    m, n := Simulate(bs, ls, |ls|);
  }

  // Calls that hurry.

  /** Each call continues with an answer before anything else happens. */
  ghost predicate Immediate(ls: seq<Label>) {
    forall i :: 0 <= i < |ls| && ls[i].Continue? ==> i > 0 && ls[i - 1].Execute? && ls[i - 1].tid == ls[i].tid
  }

  /** A deletion executes as soon as it is asked for. */
  ghost predicate DeletesAtOnce(bs: seq<Sys>, ls: seq<Label>)
    requires |bs| == |ls| + 1
  {
    forall i, tid :: 0 <= i < |ls| && tid in bs[i].threads && Deleting(bs[i].threads[tid]) ==>
      ls[i].Execute? && ls[i].tid == tid
  }

  /** Nothing is written that a listing in flight, of messages or of conversations, may hold or read in parts. */
  ghost predicate ListsApart(bs: seq<Sys>, ls: seq<Label>)
    requires |bs| == |ls| + 1
  {
    forall i, tid :: 0 <= i < |ls| && InFlight(bs[i], tid) && IsListing(bs[i].threads[tid].call) ==>
      Spared(bs, ls, i, tid)
  }

  predicate IsListing(call: Call) {
    call.List? || call.ListConversations?
  }

  /** Where no deletion takes time and no answer is held, only listings need to be kept apart. */
  lemma ImmediateRunsAgree(bs: seq<Sys>, ls: seq<Label>) returns (m: Match)
    requires Run(bs, ls) && GoodLabels(ls) && bs[0].store.kind.Postgres?
    requires Immediate(ls) && DeletesAtOnce(bs, ls) && ListsApart(bs, ls)
    requires DistinctInstants(bs[|bs| - 1].store.msgs) && DistinctCreation(bs[|bs| - 1].store.convs)
    ensures Matches(m, bs, ls, |ls|)
  {
    forall i | 0 <= i < |ls|
      ensures FitsAt(bs, ls, i)
    {
      ImmediateFits(bs, ls, i);
    }
    var n;
    m, n := Simulate(bs, ls, |ls|);
  }

  lemma ImmediateFits(bs: seq<Sys>, ls: seq<Label>, i: nat)
    requires GoodRun(bs, ls) && Immediate(ls) && DeletesAtOnce(bs, ls) && ListsApart(bs, ls) && i < |ls|
    ensures FitsAt(bs, ls, i)
  {
    AtState(bs, ls, i);
    WaitsAlong(bs, ls, i);
    var b, waits, l := bs[i], WaitsAt(bs, ls, i), ls[i];
    OnlyOneWaits(bs, ls, i);
    if (l.Execute? || l.Continue?) && !Deleting(b.threads[l.tid]) {
      ImmediateIntact(bs, ls, i);
    }
    forall k | 0 <= k < |waits|
      ensures IsDated(Ops(b, waits)[k]) && InOrder(b.store, Ops(b, waits), k)
    {
      AloneInOrder(b, waits, k);
    }
    IntactFits(bs, ls, i);
  }

  lemma OnlyOneWaits(bs: seq<Sys>, ls: seq<Label>, i: nat)
    requires Run(bs, ls) && DeletesAtOnce(bs, ls) && i < |ls|
    ensures |WaitsAt(bs, ls, i)| <= 1
    ensures (ls[i].Execute? || ls[i].Continue?) && ls[i].tid in bs[i].threads && !Deleting(bs[i].threads[ls[i].tid]) ==>
      WaitsAt(bs, ls, i) == []
  {
    WaitsAlong(bs, ls, i);
    var waits := WaitsAt(bs, ls, i);
    if waits != [] {
      var tid := waits[0];
      assert tid in waits && tid in bs[i].threads && Deleting(bs[i].threads[tid]);
      assert ls[i].Execute? && ls[i].tid == tid;
      forall w | w in waits
        ensures w == tid
      {
        assert w in bs[i].threads && Deleting(bs[i].threads[w]);
      }
      FirstTwoDiffer(waits);
      FirstTwoEqual(waits, tid);
    }
  }

  lemma FirstTwoDiffer(waits: seq<nat>)
    requires EachOnce(waits)
    ensures |waits| > 1 ==> waits[0] != waits[1]
  {
  }

  lemma FirstTwoEqual(waits: seq<nat>, tid: nat)
    requires forall w :: w in waits ==> w == tid
    ensures |waits| > 1 ==> waits[0] == waits[1]
  {
    assert |waits| > 1 ==> waits[0] in waits && waits[1] in waits;
  }

  /** What the call of step i holds is intact: it lists and has been spared, or was answered just now, or holds
      nothing. */
  lemma ImmediateIntact(bs: seq<Sys>, ls: seq<Label>, i: nat)
    requires GoodRun(bs, ls) && Immediate(ls) && ListsApart(bs, ls)
    requires i < |ls| && (ls[i].Execute? || ls[i].Continue?)
    ensures ls[i].tid in bs[i].threads && Intact(bs[i].store, bs[i].threads[ls[i].tid])
  {
    var tid := ls[i].tid;
    AtState(bs, ls, i);
    var th := bs[i].threads[tid];
    assert ThreadOk(bs[i].store, bs[i].grants, tid, th);
    if IsListing(th.call) {
      forall j | 0 <= j < i
        ensures Spared(bs, ls, j, tid)
      {
        if tid in bs[j].threads {
          SameCall(bs, ls, j, i, tid);
        }
      }
      IntactAlong(bs, ls, i, tid);
    } else if ls[i].Continue? {
      JustAnswered(bs, ls, i - 1);
    } else {
      WaitingIntact(bs[i].store, bs[i].grants, tid, th);
    }
  }

  lemma WaitingIntact(s: Store, grants: set<nat>, tid: nat, th: Thread)
    requires ThreadOk(s, grants, tid, th) && !th.Ended? && !IsListing(th.call)
    ensures KeptIntact(s, th.k) && (th.Waiting? ==> Intact(s, th))
  {
    HoldersAre(s, grants, tid, th);
  }

  lemma JustAnswered(bs: seq<Sys>, ls: seq<Label>, i: nat)
    requires GoodRun(bs, ls) && i < |ls| && ls[i].Execute?
    requires ls[i].tid in bs[i + 1].threads && !IsListing(bs[i + 1].threads[ls[i].tid].call)
    ensures Intact(bs[i + 1].store, bs[i + 1].threads[ls[i].tid])
  {
    AtState(bs, ls, i);
    AnsweredIntact(bs[i], ls[i], bs[i + 1]);
  }

  lemma AnsweredIntact(s: Sys, l: Label, s': Sys)
    requires Inv(s) && s.store.kind.Postgres? && DistinctInstants(s.store.msgs) && l.Execute? && Next(s, l, s')
    requires l.tid in s'.threads && !IsListing(s'.threads[l.tid].call)
    ensures Intact(s'.store, s'.threads[l.tid])
  {
    OwnExecute(s, l.tid, l.id, l.gate, s');
    assert ThreadOk(s.store, s.grants, l.tid, s.threads[l.tid]);
    WaitingIntact(s.store, s.grants, l.tid, s.threads[l.tid]);
  }

  /** A thread is one call. */
  lemma {:induction false} SameCall(bs: seq<Sys>, ls: seq<Label>, i: nat, j: nat, tid: nat)
    requires Run(bs, ls) && i <= j < |bs| && tid in bs[i].threads
    ensures tid in bs[j].threads && bs[j].threads[tid].call == bs[i].threads[tid].call
    decreases j - i
  {
    if i < j {
      SameCall(bs, ls, i, j - 1, tid);
      assert Moves(bs, ls, j - 1);
    }
  }
}
