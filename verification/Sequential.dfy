/** Calls that run alone: what one call changes and emits, and what the two ways of reading a thread answer. */
module Sequential {
  import opened Domain
  import opened Query
  import opened Paging
  import opened Rows
  import opened Stores
  import opened Service

  // Accounting.

  function Deleted(ms: seq<Message>): nat {
    if ms == [] then 0 else Deleted(ms[..|ms| - 1]) + if ms[|ms| - 1].deletedAt.Some? then 1 else 0
  }

  /** Publishes equal sends plus first deletions; notifications equal sends. */
  ghost predicate Balanced(s: Store, s': Store, published: seq<Message>, notified: seq<Notice>) {
    && |s'.msgs| == |s.msgs| + |notified|
    && |published| == |notified| + Deleted(s'.msgs) - Deleted(s.msgs)
  }

  lemma {:induction false} DeletedOne(ms: seq<Message>, i: nat, at: int)
    requires DistinctIds(ms) && i < |ms|
    ensures Deleted(Tombstoned(ms, ms[i].id, at)) == Deleted(ms) + if ms[i].deletedAt.None? then 1 else 0
  {
    var n := |ms| - 1;
    var after := Tombstoned(ms, ms[i].id, at);
    if i < n {
      DeletedOne(ms[..n], i, at);
      assert after[..n] == Tombstoned(ms[..n], ms[..n][i].id, at);
    } else {
      assert after[..n] == ms[..n];
    }
  }

  lemma Unfold(s: Store, op: Op, k: Cont, pub: seq<Message>, notes: seq<Notice>, env: Env, trace: seq<Step>,
        out: Outcome)
    requires Performs(s, Turn(Asking(op, k), pub, notes), env, trace, out)
    ensures trace != [] && Exec(s, op, env, trace[0].after, trace[0].ans)
    ensures var u := Resume(k, trace[0].ans, env.now);
      Performs(trace[0].after, Turn(u.phase, pub + u.published, notes + u.notified), env, trace[1..], out)
  {
  }

  /** A query for messages is answered, and the answer is the reply. */
  lemma ListReads(s: Store, cid: string, o: ListOptions, env: Env, trace: seq<Step>, out: Outcome)
    returns (page: seq<Message>)
    requires Performs(s, Go(Asking(ListMessages(cid, o), ListRead)), env, trace, out)
    ensures Lists(s.kind, s.msgs, cid, o, page) && out == Outcome(s, Messages(page), [], [])
  {
    Unfold(s, ListMessages(cid, o), ListRead, [], [], env, trace, out);
    page := trace[0].ans.page;
    assert Resume(ListRead, trace[0].ans, env.now) == Go(Finished(Messages(page)));
  }

  predicate QuietPhase(p: Phase) {
    p.Finished?
    || ((p.op.FindConversation? || p.op.FindByParticipant? || p.op.ListMessages? || p.op.QueryPreviews?)
        && (p.k.LookupForGet? || p.k.LookupForList? || p.k.ListRead? || p.k.AllForPreviews? || p.k.PreviewsRead?))
  }

  /** A call that only reads changes nothing and emits nothing. */
  lemma {:induction false} QuietCalls(s: Store, t: Turn, env: Env, trace: seq<Step>, out: Outcome)
    requires Performs(s, t, env, trace, out) && QuietPhase(t.phase)
    ensures out == Outcome(s, out.reply, t.published, t.notified)
    decreases |trace|
  {
    if t.phase.Asking? {
      Unfold(s, t.phase.op, t.phase.k, t.published, t.notified, env, trace, out);
      var u := Resume(t.phase.k, trace[0].ans, env.now);
      QuietTurn(s, t.phase.op, t.phase.k, env, trace[0].after, trace[0].ans);
      assert t.published + u.published == t.published && t.notified + u.notified == t.notified;
      QuietCalls(s, Turn(u.phase, t.published, t.notified), env, trace[1..], out);
    }
  }

  lemma QuietTurn(s: Store, op: Op, k: Cont, env: Env, s': Store, ans: Answer)
    requires QuietPhase(Asking(op, k)) && Exec(s, op, env, s', ans)
    ensures s' == s
    ensures var u := Resume(k, ans, env.now); QuietPhase(u.phase) && u.published == [] && u.notified == []
  {
  }

  /** What one call leaves: a well-formed store, a balanced account, nothing at all when it is refused. */
  ghost predicate Accounted(s: Store, out: Outcome) {
    && WellFormed(out.store) && Balanced(s, out.store, out.published, out.notified)
    && (out.reply.Refused? ==> out == Outcome(s, out.reply, [], []))
    && Keeps(s.convs, out.store.convs) && Appends(s.msgs, out.store.msgs)
  }

  /** Every call run alone, on either store, is accounted for. */
  lemma CallAccounting(s: Store, call: Call, env: Env, trace: seq<Step>, out: Outcome)
    requires WellFormed(s) && Performs(s, Go(Start(call)), env, trace, out)
    ensures Accounted(s, out)
  {
    if QuietPhase(Start(call)) {
      QuietCalls(s, Go(Start(call)), env, trace, out);
    } else {
      match call
      case Create(_, _) => CreateAccounting(s, call, env, trace, out);
      case Send(_, _, _) => SendAccounting(s, call, env, trace, out);
      case DeleteMessage(_, _, _) => DeleteAccounting(s, call, env, trace, out);
      case DeleteConversation(cid, user) => ClearAccounting(s, cid, user, env, trace, out);
      case MarkRead(cid, user, at) => ReadAccounting(s, cid, user, at, env, trace, out);
    }
  }

  lemma CreateAccounting(s: Store, call: Call, env: Env, trace: seq<Step>, out: Outcome)
    requires WellFormed(s) && Performs(s, Go(Start(call)), env, trace, out) && call.Create?
    ensures Accounted(s, out)
  {
    Unfold(s, Start(call).op, Start(call).k, [], [], env, trace, out);
    if env.gate {
      Unfold(s, CreateConversation(call.pids), CreateWritten, [], [], env, trace[1..], out);
      ExecKeeps(s, CreateConversation(call.pids), env, trace[1].after, trace[1].ans);
    }
  }

  /** A mark leaves the log alone. */
  lemma MarkAccounted(s: Store, cid: string, user: string, mark: Mark, env: Env, trace: seq<Step>, out: Outcome)
    requires WellFormed(s) && Performs(s, Go(Asking(MarkParticipant(cid, user, mark), MarkWritten)), env, trace, out)
    ensures Accounted(s, out)
  {
    Unfold(s, MarkParticipant(cid, user, mark), MarkWritten, [], [], env, trace, out);
    ExecKeeps(s, MarkParticipant(cid, user, mark), env, trace[0].after, trace[0].ans);
  }

  lemma RefusalAccounted(s: Store, error: ServiceError, env: Env, trace: seq<Step>, out: Outcome)
    requires WellFormed(s) && Performs(s, Refuse(error), env, trace, out)
    ensures Accounted(s, out)
  {
  }

  /** The first answer of a call that looks its conversation up. */
  lemma LookedUpFirst(s: Store, cid: string, k: Cont, env: Env, trace: seq<Step>, out: Outcome)
    returns (found: Option<Conversation>)
    requires Performs(s, Go(Asking(FindConversation(cid), k)), env, trace, out)
    ensures trace != [] && trace[0] == Step(FoundConversation(found), s)
    ensures Exec(s, FindConversation(cid), env, s, FoundConversation(found))
    ensures Performs(s, AfterLookup(k, found, env.now), env, trace[1..], out)
  {
    Unfold(s, FindConversation(cid), k, [], [], env, trace, out);
    found := trace[0].ans.found;
    var u := AfterLookup(k, found, env.now);
    assert [] + u.published == u.published && [] + u.notified == u.notified;
  }

  lemma ClearAccounting(s: Store, cid: string, user: string, env: Env, trace: seq<Step>, out: Outcome)
    requires WellFormed(s) && Performs(s, Go(Start(DeleteConversation(cid, user))), env, trace, out)
    ensures Accounted(s, out)
  {
    assert Start(DeleteConversation(cid, user)) == Asking(FindConversation(cid), LookupForClear(cid, user));
    var found := LookedUpFirst(s, cid, LookupForClear(cid, user), env, trace, out);
    var denied := Denied(found, cid, user);
    if denied.None? {
      MarkAccounted(s, cid, user, Cleared(env.now), env, trace[1..], out);
    } else {
      RefusalAccounted(s, denied.value, env, trace[1..], out);
    }
  }

  lemma ReadAccounting(s: Store, cid: string, user: string, at: int, env: Env, trace: seq<Step>, out: Outcome)
    requires WellFormed(s) && Performs(s, Go(Start(MarkRead(cid, user, at))), env, trace, out)
    ensures Accounted(s, out)
  {
    assert Start(MarkRead(cid, user, at)) == Asking(FindConversation(cid), LookupForMarkRead(cid, user, at));
    var found := LookedUpFirst(s, cid, LookupForMarkRead(cid, user, at), env, trace, out);
    var denied := Denied(found, cid, user);
    if denied.None? {
      MarkAccounted(s, cid, user, Read(at), env, trace[1..], out);
    } else {
      RefusalAccounted(s, denied.value, env, trace[1..], out);
    }
  }

  /** A send the gate let through adds its message, posts it and pushes it. */
  lemma WriteAccounted(s: Store, cid: string, user: string, body: string, pids: seq<string>, env: Env,
        trace: seq<Step>, out: Outcome)
    requires WellFormed(s)
    requires Performs(s, Go(Asking(CreateMessage(cid, user, body), SendWritten(pids, user))), env, trace, out)
    ensures Accounted(s, out)
  {
    var op := CreateMessage(cid, user, body);
    Unfold(s, op, SendWritten(pids, user), [], [], env, trace, out);
    ExecKeeps(s, op, env, trace[0].after, trace[0].ans);
    if trace[0].ans.Stored? {
      assert out.store.msgs[..|s.msgs|] == s.msgs;
    }
  }

  lemma GateAccounted(s: Store, c: Conversation, user: string, body: string, env: Env, trace: seq<Step>, out: Outcome)
    requires WellFormed(s)
    requires var pids := UserIds(c.participants);
      Performs(s, Go(Asking(AskGate(user, pids), GateForSend(c.id, pids, user, body))), env, trace, out)
    ensures Accounted(s, out)
  {
    var pids := UserIds(c.participants);
    Unfold(s, AskGate(user, pids), GateForSend(c.id, pids, user, body), [], [], env, trace, out);
    if env.gate {
      WriteAccounted(s, c.id, user, body, pids, env, trace[1..], out);
    } else {
      RefusalAccounted(s, ConversationNotAllowed(user, pids), env, trace[1..], out);
    }
  }

  lemma SendAccounting(s: Store, call: Call, env: Env, trace: seq<Step>, out: Outcome)
    requires WellFormed(s) && Performs(s, Go(Start(call)), env, trace, out) && call.Send? && Start(call).Asking?
    ensures Accounted(s, out)
  {
    var found := LookedUpFirst(s, call.cid, Start(call).k, env, trace, out);
    var denied := Denied(found, call.cid, call.user);
    if denied.Some? {
      RefusalAccounted(s, denied.value, env, trace[1..], out);
    } else {
      GateAccounted(s, found.value, call.user, call.body, env, trace[1..], out);
    }
  }

  lemma TombstoneOutcome(s: Store, m: Message, env: Env, trace: seq<Step>, out: Outcome)
    requires FindById(s.msgs, m.id) == Some(m) && m.deletedAt.None?
    requires Performs(s, Go(Asking(SoftDelete(m.id, env.now), TombstoneWritten)), env, trace, out)
    ensures var t := Tombstone(m, env.now);
      && out == Outcome(s.(msgs := Tombstoned(s.msgs, m.id, env.now)), OneMessage(t), [t], [])
      && Exec(s, SoftDelete(m.id, env.now), env, out.store, Stored(t))
  {
    Unfold(s, SoftDelete(m.id, env.now), TombstoneWritten, [], [], env, trace, out);
  }

  /** A first deletion posts its tombstone and nothing else. */
  lemma TombstoneAccounted(s: Store, m: Message, env: Env, trace: seq<Step>, out: Outcome)
    requires WellFormed(s) && FindById(s.msgs, m.id) == Some(m) && m.deletedAt.None?
    requires Performs(s, Go(Asking(SoftDelete(m.id, env.now), TombstoneWritten)), env, trace, out)
    ensures Accounted(s, out)
  {
    TombstoneOutcome(s, m, env, trace, out);
    ExecKeeps(s, SoftDelete(m.id, env.now), env, out.store, Stored(Tombstone(m, env.now)));
    var i :| 0 <= i < |s.msgs| && s.msgs[i] == m;
    DeletedOne(s.msgs, i, env.now);
  }

  lemma DeleteAccounting(s: Store, call: Call, env: Env, trace: seq<Step>, out: Outcome)
    requires WellFormed(s) && Performs(s, Go(Start(call)), env, trace, out) && call.DeleteMessage?
    ensures Accounted(s, out)
  {
    var found := LookedUpFirst(s, call.cid, Start(call).k, env, trace, out);
    var denied := Denied(found, call.cid, call.user);
    if denied.Some? {
      RefusalAccounted(s, denied.value, env, trace[1..], out);
    } else {
      MessageAccounted(s, call.cid, call.mid, call.user, env, trace[1..], out);
    }
  }

  lemma MessageAccounted(s: Store, cid: string, mid: string, user: string, env: Env, trace: seq<Step>, out: Outcome)
    requires WellFormed(s)
    requires Performs(s, Go(Asking(FindMessage(mid), MessageForDelete(cid, mid, user))), env, trace, out)
    ensures Accounted(s, out)
  {
    Unfold(s, FindMessage(mid), MessageForDelete(cid, mid, user), [], [], env, trace, out);
    var m := FindById(s.msgs, mid);
    if m.Some? && m.value.conversationId == cid && m.value.senderId == user && m.value.deletedAt.None? {
      TombstoneAccounted(s, m.value, env, trace[1..], out);
    }
  }

  // Whole sequential runs.

  /** One call after the other from an empty store; `posts` and `pushes` are all that was emitted. */
  datatype Done = Done(call: Call, env: Env, trace: seq<Step>, out: Outcome)

  ghost predicate CallRun(kind: Kind, ds: seq<Done>, s: Store, published: seq<Message>, notified: seq<Notice>) {
    if ds == [] then s == Store(kind, [], []) && published == [] && notified == []
    else
      var last := ds[|ds| - 1];
      exists s0, p0, n0 ::
        && CallRun(kind, ds[..|ds| - 1], s0, p0, n0)
        && Performs(s0, Go(Start(last.call)), last.env, last.trace, last.out)
        && s == last.out.store && published == p0 + last.out.published && notified == n0 + last.out.notified
  }

  /** Over any sequence of calls on either store: one notification per stored message, and one publication per
      stored message and per message deleted, repeated deletions and refused calls adding none. */
  lemma {:induction false} RunAccounting(kind: Kind, ds: seq<Done>, s: Store, published: seq<Message>,
        notified: seq<Notice>)
    requires CallRun(kind, ds, s, published, notified)
    ensures WellFormed(s)
    ensures |notified| == |s.msgs| && |published| == |s.msgs| + Deleted(s.msgs)
  {
    if ds != [] {
      var last := ds[|ds| - 1];
      var s0, p0, n0 :|
        && CallRun(kind, ds[..|ds| - 1], s0, p0, n0)
        && Performs(s0, Go(Start(last.call)), last.env, last.trace, last.out)
        && s == last.out.store && published == p0 + last.out.published && notified == n0 + last.out.notified;
      RunAccounting(kind, ds[..|ds| - 1], s0, p0, n0);
      CallAccounting(s0, last.call, last.env, last.trace, last.out);
    }
  }

  // The two ways of reading a thread.

  /** What `listMessages` answers over the in-memory stores. */
  function ListReply(s: Store, cid: string, user: string, o: ListOptions): Reply {
    var found := Find(s.convs, cid);
    var denied := Denied(found, cid, user);
    if denied.Some? then Refused(denied.value)
    else Messages(ListInMemory(s.msgs, cid, Bounded(o, ClearedAt(found.value, user))))
  }

  /** An entry as it is once its preview has been read. */
  function Filled(s: Store, e: Entry): Entry {
    e.(last := Known(FirstOf(ListInMemory(s.msgs, e.conversation.id, PreviewOptions(e.clearedAt)))))
  }

  function AllFilled(s: Store, es: seq<Entry>): seq<Entry> {
    seq(|es|, i requires 0 <= i < |es| => Filled(s, es[i]))
  }

  function PreviewsOf(s: Store, user: string, list: seq<Conversation>): seq<Preview> {
    ShownPreviews(AllFilled(s, Entries(user, list)))
  }

  lemma ListPerforms(s: Store, cid: string, user: string, o: ListOptions, env: Env, trace: seq<Step>, out: Outcome)
    requires s.kind.InMemory? && Performs(s, Go(Start(List(cid, user, o))), env, trace, out)
    ensures out == Outcome(s, ListReply(s, cid, user, o), [], [])
  {
    assert Start(List(cid, user, o)) == Asking(FindConversation(cid), LookupForList(cid, user, o));
    var found := LookedUpFirst(s, cid, LookupForList(cid, user, o), env, trace, out);
    if Denied(found, cid, user).None? {
      var page := ListReads(s, cid, Bounded(o, ClearedAt(found.value, user)), env, trace[1..], out);
    }
  }

  /** One more preview is read as it should be, whichever it is. */
  lemma PreviewRead(s: Store, user: string, es: seq<Entry>, env: Env, s': Store, ans: Answer)
    requires s.kind.InMemory? || DistinctInstants(s.msgs)
    requires Exec(s, QueryPreviews(Queries(es)), env, s', ans)
    ensures s' == s && ans.FoundPreview? && ans.i < |es|
    ensures WithAnswer(es, ans.i, ans.page)[ans.i] == Filled(s, es[ans.i])
    ensures Resume(PreviewsRead(user, es), ans, env.now) == Go(AfterPreviews(user, WithAnswer(es, ans.i, ans.page)))
  {
    var e := es[ans.i];
    ListsOne(s.kind, s.msgs, e.conversation.id, PreviewOptions(e.clearedAt), ans.page);
  }

  /** Whatever order the previews are read in, run alone they come out the same. */
  lemma {:induction false} PreviewsPerform(s: Store, user: string, es: seq<Entry>, env: Env, trace: seq<Step>,
        out: Outcome)
    requires s.kind.InMemory? || DistinctInstants(s.msgs)
    requires forall i :: 0 <= i < |es| && es[i].last.Known? ==> es[i] == Filled(s, es[i])
    requires Performs(s, Go(AfterPreviews(user, es)), env, trace, out)
    ensures out == Outcome(s, Previews(ShownPreviews(AllFilled(s, es))), [], [])
    decreases |trace|
  {
    if AllKnown(es) {
      assert AllFilled(s, es) == es;
    } else {
      Unfold(s, QueryPreviews(Queries(es)), PreviewsRead(user, es), [], [], env, trace, out);
      var ans := trace[0].ans;
      PreviewRead(s, user, es, env, trace[0].after, ans);
      var next := WithAnswer(es, ans.i, ans.page);
      assert AllFilled(s, next) == AllFilled(s, es);
      PreviewsPerform(s, user, next, env, trace[1..], out);
    }
  }

  lemma ListConversationsPerforms(s: Store, user: string, env: Env, trace: seq<Step>, out: Outcome)
    returns (list: seq<Conversation>)
    requires s.kind.InMemory? || DistinctInstants(s.msgs)
    requires Performs(s, Go(Start(ListConversations(user))), env, trace, out)
    ensures trace != [] && Exec(s, FindByParticipant(user), env, s, FoundConversations(list))
    ensures out == Outcome(s, Previews(PreviewsOf(s, user, list)), [], [])
  {
    Unfold(s, FindByParticipant(user), AllForPreviews(user), [], [], env, trace, out);
    list := trace[0].ans.list;
    PreviewsPerform(s, user, Entries(user, list), env, trace[1..], out);
  }

  /** The visible thread of c for `user`: what `listMessages` answers without options. */
  function Thread(s: Store, c: Conversation, user: string): seq<Message> {
    ListInMemory(s.msgs, c.id, Bounded(ALL_MESSAGES, ClearedAt(c, user)))
  }

  function LastOf(ms: seq<Message>): Option<Message> {
    if ms == [] then None else Some(ms[|ms| - 1])
  }

  lemma PreviewIsLast(s: Store, c: Conversation, user: string)
    ensures FirstOf(ListInMemory(s.msgs, c.id, PreviewOptions(ClearedAt(c, user)))) == LastOf(Thread(s, c, user))
  {
  }

  predicate Shown(s: Store, c: Conversation, user: string) {
    ClearedAt(c, user).None? || Thread(s, c, user) != []
  }

  lemma {:induction false} ShownMeaning(es: seq<Entry>, p: Preview)
    ensures p in ShownPreviews(es) <==>
      exists i :: 0 <= i < |es| && ToShow(es[i]) && p == Preview(es[i].conversation, es[i].last.message)
  {
    if es != [] {
      var front, e := es[..|es| - 1], es[|es| - 1];
      ShownMeaning(front, p);
      assert forall i :: 0 <= i < |front| ==> front[i] == es[i];
      if p in ShownPreviews(front) {
        var i :| 0 <= i < |front| && ToShow(front[i]) && p == Preview(front[i].conversation, front[i].last.message);
        assert ToShow(es[i]);
      }
    }
  }

  lemma PreviewsMeaning(s: Store, user: string, list: seq<Conversation>, p: Preview)
    ensures p in PreviewsOf(s, user, list) <==>
      p.conversation in list && Shown(s, p.conversation, user)
      && p.lastMessage == LastOf(Thread(s, p.conversation, user))
  {
    var es := AllFilled(s, Entries(user, list));
    ShownMeaning(es, p);
    forall i | 0 <= i < |list|
      ensures es[i] == Entry(list[i], ClearedAt(list[i], user), Known(LastOf(Thread(s, list[i], user))))
      ensures ToShow(es[i]) <==> Shown(s, list[i], user)
    {
      PreviewIsLast(s, list[i], user);
    }
    if p.conversation in list {
      var i :| 0 <= i < |list| && list[i] == p.conversation;
      assert es[i].conversation == p.conversation;
    }
  }

  lemma {:induction false} ConcerningIn(cs: seq<Conversation>, user: string, c: Conversation)
    ensures c in Concerning(cs, user) <==> c in cs && IsParticipant(c, user)
  {
    if cs != [] {
      ConcerningIn(cs[..|cs| - 1], user, c);
      assert cs == cs[..|cs| - 1] + [cs[|cs| - 1]];
    }
  }

  /** The two read paths agree in every in-memory state: a user's list shows a conversation exactly when the user
      is in it and either never cleared it or has something in its thread, and previews the last message
      `listMessages` returns, or null. */
  lemma ReadPathsAgree(s: Store, user: string, p: Preview, env: Env, trace: seq<Step>, out: Outcome,
      env': Env, trace': seq<Step>, out': Outcome)
    requires s.kind.InMemory? && WellFormed(s) && p.conversation in s.convs
    requires Performs(s, Go(Start(ListConversations(user))), env, trace, out)
    requires Performs(s, Go(Start(List(p.conversation.id, user, ALL_MESSAGES))), env', trace', out')
    ensures out.reply.Previews?
    ensures p in out.reply.previews <==>
      && out'.reply.Messages?
      && (ClearedAt(p.conversation, user).None? || out'.reply.messages != [])
      && p.lastMessage == LastOf(out'.reply.messages)
  {
    var c := p.conversation;
    var list := ListConversationsPerforms(s, user, env, trace, out);
    ListPerforms(s, c.id, user, ALL_MESSAGES, env', trace', out');
    SameId(s.convs, c, Find(s.convs, c.id).value);
    PreviewsMeaning(s, user, list, p);
    ConcerningIn(s.convs, user, c);
  }
}
