/** What each call comes to when it runs alone on either store, told from the stored rows: who is refused and why, and
    what everybody else is replied, what is written and what is handed over. src/core/messaging-service.ts:57-230 */
module Outcomes {
  import opened Domain
  import opened Query
  import opened Paging
  import opened Rows
  import opened Stores
  import opened Dated
  import opened Service
  import opened Machine
  import opened Sequential

  // The rows.

  /** A conversation the store can find; the join of the database loses one without participants. */
  ghost predicate Has(s: Store, cid: string) {
    exists i :: 0 <= i < |s.convs| && s.convs[i].id == cid && (s.kind.Postgres? ==> s.convs[i].participants != [])
  }

  /** Row q of conversation i is that of `user` in `cid`: the first one, where a participant was named twice. */
  ghost predicate RowAt(s: Store, cid: string, user: string, i: nat, q: nat) {
    && i < |s.convs| && s.convs[i].id == cid
    && q < |s.convs[i].participants| && s.convs[i].participants[q].userId == user && First(s.convs[i].participants, q)
  }

  lemma {:induction false} FirstRow(ps: seq<Participant>, user: string) returns (q: nat)
    requires user in UserIds(ps)
    ensures q < |ps| && ps[q].userId == user && First(ps, q)
  {
    if ps[0].userId == user {
      q := 0;
    } else {
      var rest := ps[1..];
      assert UserIds(ps) == [ps[0].userId] + UserIds(rest);
      q := FirstRow(rest, user);
      q := q + 1;
      FirstShifts(ps, q);
    }
  }

  lemma {:induction false} RowFound(ps: seq<Participant>, q: nat)
    requires q < |ps| && First(ps, q)
    ensures FindParticipant(ps, ps[q].userId) == Some(ps[q])
  {
    if q > 0 {
      assert ps[0].userId != ps[q].userId;
      FirstShifts(ps, q);
      RowFound(ps[1..], q - 1);
    }
  }

  lemma MemberRow(s: Store, cid: string, user: string) returns (i: nat, q: nat)
    requires Member(s.convs, cid, user)
    ensures RowAt(s, cid, user, i, q)
  {
    i :| 0 <= i < |s.convs| && s.convs[i].id == cid && user in UserIds(s.convs[i].participants);
    q := FirstRow(s.convs[i].participants, user);
  }

  lemma RowIsMember(s: Store, cid: string, user: string, i: nat, q: nat)
    requires RowAt(s, cid, user, i, q)
    ensures Has(s, cid) && Member(s.convs, cid, user)
  {
    assert UserIds(s.convs[i].participants)[q] == user;
  }

  // The guard in front of six of the eight calls.

  /** What a lookup says about the rows. */
  lemma LookupMeans(s: Store, cid: string, user: string, env: Env, found: Option<Conversation>)
    requires WellFormed(s) && Exec(s, FindConversation(cid), env, s, FoundConversation(found))
    ensures found.Some? <==> Has(s, cid)
    ensures found.Some? ==> (IsParticipant(found.value, user) <==> Member(s.convs, cid, user))
    ensures Member(s.convs, cid, user) ==> found.Some?
    ensures found.Some? ==> exists i :: 0 <= i < |s.convs| && Answers(s, i, found.value)
  {
    var c := Find(s.convs, cid);
    if Has(s, cid) {
      var i :| 0 <= i < |s.convs| && s.convs[i].id == cid && (s.kind.Postgres? ==> s.convs[i].participants != []);
      SameId(s.convs, s.convs[i], c.value);
    }
    if Member(s.convs, cid, user) {
      var j :| 0 <= j < |s.convs| && s.convs[j].id == cid && user in UserIds(s.convs[j].participants);
      SameId(s.convs, s.convs[j], c.value);
    }
    if found.Some? {
      UserIdsPermute(found.value.participants, c.value.participants);
      assert user in UserIds(found.value.participants) <==> user in multiset(UserIds(c.value.participants));
      var i :| 0 <= i < |s.convs| && s.convs[i] == c.value;
      assert Answers(s, i, found.value);
    }
  }

  /** `c` is conversation i as the store answers it: itself, or with its participants in any order. */
  ghost predicate Answers(s: Store, i: nat, c: Conversation)
    requires i < |s.convs|
  {
    Same(c, s.convs[i]) && (s.kind.InMemory? ==> c == s.convs[i])
  }

  /** A member's lookup goes on with their conversation and their row. */
  lemma MemberGoesOn(s: Store, cid: string, user: string, i: nat, q: nat, k: Cont, env: Env, trace: seq<Step>,
      out: Outcome) returns (c: Conversation)
    requires WellFormed(s) && RowAt(s, cid, user, i, q)
    requires Performs(s, Go(Asking(FindConversation(cid), k)), env, trace, out)
    ensures Answers(s, i, c) && IsParticipant(c, user) && ParticipantOf(c, user) == Some(s.convs[i].participants[q])
    ensures multiset(UserIds(c.participants)) == multiset(UserIds(s.convs[i].participants))
    ensures trace != [] && Performs(s, AfterLookup(k, Some(c), env.now), env, trace[1..], out)
  {
    var found := LookedUpFirst(s, cid, k, env, trace, out);
    RowIsMember(s, cid, user, i, q);
    LookupMeans(s, cid, user, env, found);
    c := found.value;
    var j :| 0 <= j < |s.convs| && Answers(s, j, c);
    SameId(s.convs, s.convs[i], s.convs[j]);
    RowFound(s.convs[i].participants, q);
    UserIdsPermute(c.participants, s.convs[i].participants);
    if s.kind.Postgres? {
      SameFindsSame(s.convs[i], c, user);
    }
  }

  /** A reply to a call that changes nothing and hands nothing over. */
  function Quiet(s: Store, reply: Reply): Outcome {
    Outcome(s, reply, [], [])
  }

  /** A call on one conversation, past the check of its body. */
  predicate AsksAbout(call: Call) {
    !call.Create? && !call.ListConversations? && (call.Send? ==> |Trim(call.body)| > 0)
  }

  lemma OutsiderRefused(s: Store, call: Call, env: Env, trace: seq<Step>, out: Outcome)
    requires WellFormed(s) && AsksAbout(call) && Performs(s, Go(Start(call)), env, trace, out)
    requires !Member(s.convs, call.cid, call.user)
    ensures out == Quiet(s, Refused(
      if Has(s, call.cid) then NotAParticipant(call.cid, call.user) else ConversationNotFound(call.cid)))
  {
    var found := LookedUpFirst(s, call.cid, Start(call).k, env, trace, out);
    LookupMeans(s, call.cid, call.user, env, found);
  }

  // What members get.

  lemma GetReplies(s: Store, cid: string, user: string, i: nat, q: nat, env: Env, trace: seq<Step>, out: Outcome)
    requires WellFormed(s) && RowAt(s, cid, user, i, q) && Performs(s, Go(Start(Get(cid, user))), env, trace, out)
    ensures out.reply.OneConversation? && Answers(s, i, out.reply.conversation) && out == Quiet(s, out.reply)
  {
    var c := MemberGoesOn(s, cid, user, i, q, LookupForGet(cid, user), env, trace, out);
  }

  /** Nothing is read past the requester's own clear, whatever `after` was asked for. */
  lemma ListReplies(s: Store, cid: string, user: string, o: ListOptions, i: nat, q: nat, env: Env, trace: seq<Step>,
      out: Outcome)
    requires WellFormed(s) && RowAt(s, cid, user, i, q) && Performs(s, Go(Start(List(cid, user, o))), env, trace, out)
    ensures out.reply.Messages? && out == Quiet(s, out.reply)
    ensures var clearedAt := s.convs[i].participants[q].clearedAt;
      var found := Filter(s.msgs, Criteria(Some(cid), o.before, if clearedAt.Some? then clearedAt else o.after));
      && IsPage(found, if s.kind.InMemory? then SliceCount(o.limit, |found|) else Clamp(o.limit), out.reply.messages)
      && (o.limit == None ==> |out.reply.messages| == if s.kind.InMemory? then |found| else Min(50, |found|))
  {
    var c := MemberGoesOn(s, cid, user, i, q, LookupForList(cid, user, o), env, trace, out);
    var clearedAt := s.convs[i].participants[q].clearedAt;
    var bounded := o.(after := if clearedAt.Some? then clearedAt else o.after);
    var page := ListReads(s, cid, bounded, env, trace[1..], out);
    if s.kind.InMemory? {
      InMemoryIsPage(s.msgs, cid, bounded);
    } else {
      PostgresIsPage(s.msgs, cid, bounded, page);
    }
  }

  /** A send is one new message, one publication and one notification to all others, or, if the gate says so, nothing
      at all. */
  lemma SendReplies(s: Store, cid: string, user: string, body: string, i: nat, q: nat, env: Env, trace: seq<Step>,
      out: Outcome) returns (pids: seq<string>, recipients: seq<string>)
    requires WellFormed(s) && RowAt(s, cid, user, i, q) && !Blank(body)
    requires Performs(s, Go(Start(Send(cid, user, body))), env, trace, out)
    ensures multiset(pids) == multiset(UserIds(s.convs[i].participants))
    ensures multiset(recipients) == multiset(pids)[user := 0]
    ensures var m := Message(env.id, cid, user, body, env.now, None);
      out == if env.gate then Outcome(s.(msgs := s.msgs + [m]), OneMessage(m), [m], [Notice(m, recipients)])
             else Quiet(s, Refused(ConversationNotAllowed(user, pids)))
  {
    TrimEmptyIffBlank(body);
    var c := MemberGoesOn(s, cid, user, i, q, LookupForSend(cid, user, body), env, trace, out);
    pids := UserIds(c.participants);
    recipients := Others(pids, user);
    GateAnswers(s, c, user, body, env, trace[1..], out);
  }

  lemma GateAnswers(s: Store, c: Conversation, user: string, body: string, env: Env, trace: seq<Step>, out: Outcome)
    requires Find(s.convs, c.id).Some?
    requires var pids := UserIds(c.participants);
      Performs(s, Go(Asking(AskGate(user, pids), GateForSend(c.id, pids, user, body))), env, trace, out)
    ensures var m, pids := Message(env.id, c.id, user, body, env.now, None), UserIds(c.participants);
      out == if env.gate then Outcome(s.(msgs := s.msgs + [m]), OneMessage(m), [m], [Notice(m, Others(pids, user))])
             else Quiet(s, Refused(ConversationNotAllowed(user, pids)))
  {
    var pids := UserIds(c.participants);
    Unfold(s, AskGate(user, pids), GateForSend(c.id, pids, user, body), [], [], env, trace, out);
    if env.gate {
      WriteAnswers(s, c.id, user, body, pids, env, trace[1..], out);
    }
  }

  lemma WriteAnswers(s: Store, cid: string, user: string, body: string, pids: seq<string>, env: Env,
      trace: seq<Step>, out: Outcome)
    requires Find(s.convs, cid).Some?
    requires Performs(s, Go(Asking(CreateMessage(cid, user, body), SendWritten(pids, user))), env, trace, out)
    ensures var m := Message(env.id, cid, user, body, env.now, None);
      out == Outcome(s.(msgs := s.msgs + [m]), OneMessage(m), [m], [Notice(m, Others(pids, user))])
  {
    Unfold(s, CreateMessage(cid, user, body), SendWritten(pids, user), [], [], env, trace, out);
  }

  // Deletions.

  ghost predicate HasMessage(s: Store, cid: string, mid: string, k: int) {
    0 <= k < |s.msgs| && s.msgs[k].id == mid && s.msgs[k].conversationId == cid
  }

  ghost predicate DeletedAs(s: Store, k: nat, user: string, now: int, out: Outcome)
    requires k < |s.msgs|
  {
    var m := s.msgs[k];
    var t := m.(body := "", deletedAt := Some(now));
    out == if m.senderId != user then Quiet(s, Refused(NotMessageAuthor(m.id, user)))
           else if m.deletedAt.Some? then Quiet(s, OneMessage(m))
           else Outcome(s.(msgs := s.msgs[k := t]), OneMessage(t), [t], [])
  }

  /** What a member's deletion does is told by the message: nothing in the conversation has that id, or it is somebody
      else's, or it is a tombstone already, or it becomes one. */
  lemma DeleteReplies(s: Store, cid: string, mid: string, user: string, env: Env, trace: seq<Step>, out: Outcome)
    requires WellFormed(s) && Member(s.convs, cid, user)
    requires Performs(s, Go(Start(DeleteMessage(cid, mid, user))), env, trace, out)
    ensures (forall k :: !HasMessage(s, cid, mid, k)) ==> out == Quiet(s, Refused(MessageNotFound(mid)))
    ensures forall k :: HasMessage(s, cid, mid, k) ==> DeletedAs(s, k, user, env.now, out)
  {
    var i, q := MemberRow(s, cid, user);
    var c := MemberGoesOn(s, cid, user, i, q, LookupForDelete(cid, mid, user), env, trace, out);
    MessageReplies(s, cid, mid, user, env, trace[1..], out);
  }

  lemma MessageReplies(s: Store, cid: string, mid: string, user: string, env: Env, trace: seq<Step>, out: Outcome)
    requires WellFormed(s)
    requires Performs(s, Go(Asking(FindMessage(mid), MessageForDelete(cid, mid, user))), env, trace, out)
    ensures (forall k :: !HasMessage(s, cid, mid, k)) ==> out == Quiet(s, Refused(MessageNotFound(mid)))
    ensures forall k :: HasMessage(s, cid, mid, k) ==> DeletedAs(s, k, user, env.now, out)
  {
    Unfold(s, FindMessage(mid), MessageForDelete(cid, mid, user), [], [], env, trace, out);
    var found := FindById(s.msgs, mid);
    if found.Some? {
      var n :| 0 <= n < |s.msgs| && s.msgs[n] == found.value;
      assert found.value.conversationId == cid ==> HasMessage(s, cid, mid, n);
    }
    forall k | HasMessage(s, cid, mid, k)
      ensures DeletedAs(s, k, user, env.now, out)
    {
      FindByIdUnique(s.msgs, k);
      var m := s.msgs[k];
      if m.senderId == user && m.deletedAt.None? {
        TombstoneOutcome(s, m, env, trace[1..], out);
        TombstonesOne(s.msgs, k, env.now);
      }
    }
  }

  lemma TombstonesOne(ms: seq<Message>, k: nat, at: int)
    requires DistinctIds(ms) && k < |ms|
    ensures Tombstoned(ms, ms[k].id, at) == ms[k := Tombstone(ms[k], at)]
  {
  }

  /** The requester's own row gets the instant, and nothing else changes. */
  lemma ClearReplies(s: Store, cid: string, user: string, i: nat, q: nat, env: Env, trace: seq<Step>, out: Outcome)
    requires WellFormed(s) && RowAt(s, cid, user, i, q)
    requires Performs(s, Go(Start(DeleteConversation(cid, user))), env, trace, out)
    ensures var c := s.convs[i];
      var p := c.participants[q].(clearedAt := Some(env.now));
      out == Quiet(s.(convs := s.convs[i := c.(participants := c.participants[q := p])]), Nothing)
  {
    var c := MemberGoesOn(s, cid, user, i, q, LookupForClear(cid, user), env, trace, out);
    MarkReplies(s, cid, user, i, q, Cleared(env.now), env, trace[1..], out);
  }

  lemma ReadReplies(s: Store, cid: string, user: string, at: int, i: nat, q: nat, env: Env, trace: seq<Step>,
      out: Outcome)
    requires WellFormed(s) && RowAt(s, cid, user, i, q)
    requires Performs(s, Go(Start(MarkRead(cid, user, at))), env, trace, out)
    ensures var c := s.convs[i];
      var p := c.participants[q].(lastReadAt := Some(at));
      out == Quiet(s.(convs := s.convs[i := c.(participants := c.participants[q := p])]), Nothing)
  {
    var c := MemberGoesOn(s, cid, user, i, q, LookupForMarkRead(cid, user, at), env, trace, out);
    MarkReplies(s, cid, user, i, q, Read(at), env, trace[1..], out);
  }

  lemma MarkReplies(s: Store, cid: string, user: string, i: nat, q: nat, mark: Mark, env: Env, trace: seq<Step>,
      out: Outcome)
    requires WellFormed(s) && RowAt(s, cid, user, i, q)
    requires Performs(s, Go(Asking(MarkParticipant(cid, user, mark), MarkWritten)), env, trace, out)
    ensures var c := s.convs[i];
      var p := Stamp(c.participants[q], mark);
      out == Quiet(s.(convs := s.convs[i := c.(participants := c.participants[q := p])]), Nothing)
  {
    Unfold(s, MarkParticipant(cid, user, mark), MarkWritten, [], [], env, trace, out);
    MarksOne(s.convs, i, q, mark);
  }

  lemma MarksOne(cs: seq<Conversation>, i: nat, q: nat, mark: Mark)
    requires DistinctConversations(cs) && i < |cs| && q < |cs[i].participants| && First(cs[i].participants, q)
    ensures var c := cs[i];
      var p := Stamp(c.participants[q], mark);
      Marked(cs, c.id, c.participants[q].userId, mark) == cs[i := c.(participants := c.participants[q := p])]
  {
    var ps := cs[i].participants;
    var user := ps[q].userId;
    forall j | 0 <= j < |ps|
      ensures StampFirst(ps, user, mark)[j] == ps[q := Stamp(ps[q], mark)][j]
    {
      StampsOnly(ps, user, mark, j);
      assert ps[j].userId == user && First(ps, j) ==> j == q;
    }
    assert StampFirst(ps, user, mark) == ps[q := Stamp(ps[q], mark)];
  }

  // Creation.

  lemma CreateReplies(s: Store, requester: string, pids: seq<string>, env: Env, trace: seq<Step>, out: Outcome)
    returns (ps: seq<Participant>)
    requires Performs(s, Go(Start(Create(requester, pids))), env, trace, out)
    ensures |ps| == |pids| && forall j :: 0 <= j < |pids| ==> ps[j] == Participant(pids[j], None, None)
    ensures var c := Conversation(env.id, ps, env.now);
      out == if !env.gate then Quiet(s, Refused(ConversationNotAllowed(requester, pids)))
             else if s.kind.Postgres? && !NoDuplicates(pids) then Quiet(s, Refused(StoreThrew(DuplicateParticipant)))
             else Quiet(s.(convs := s.convs + [c]), OneConversation(c))
  {
    ps := Fresh(pids);
    Unfold(s, AskGate(requester, pids), GateForCreate(requester, pids), [], [], env, trace, out);
    if env.gate {
      Unfold(s, CreateConversation(pids), CreateWritten, [], [], env, trace[1..], out);
    }
  }

  // All of it told by the reply.

  /** Who is refused, and how: each refusal if and only if the rows say so. */
  lemma RefusedExactly(s: Store, call: Call, env: Env, trace: seq<Step>, out: Outcome)
    requires WellFormed(s) && !call.Create? && !call.ListConversations?
    requires Performs(s, Go(Start(call)), env, trace, out)
    ensures var blank := call.Send? && Blank(call.body);
      && (out.reply == Refused(EmptyMessage) <==> blank)
      && (out.reply == Refused(ConversationNotFound(call.cid)) <==> !blank && !Has(s, call.cid))
      && (out.reply == Refused(NotAParticipant(call.cid, call.user)) <==>
            !blank && Has(s, call.cid) && !Member(s.convs, call.cid, call.user))
      && (out.reply.Refused? && out.reply.error.ConversationNotAllowed? <==>
            !blank && call.Send? && Member(s.convs, call.cid, call.user) && !env.gate)
  {
    if call.Send? {
      TrimEmptyIffBlank(call.body);
    }
    if AsksAbout(call) {
      if Member(s.convs, call.cid, call.user) {
        MemberReplies(s, call, env, trace, out);
      } else {
        OutsiderRefused(s, call, env, trace, out);
      }
    }
  }

  ghost predicate MemberReply(s: Store, call: Call, env: Env, r: Reply)
    requires AsksAbout(call)
  {
    match call
    case Get(_, _) => r.OneConversation?
    case Send(_, _, _) => if env.gate then r.OneMessage? else r.Refused? && r.error.ConversationNotAllowed?
    case List(_, _, _) => r.Messages?
    case DeleteMessage(cid, mid, user) =>
      && ((forall k :: !HasMessage(s, cid, mid, k)) ==> r == Refused(MessageNotFound(mid)))
      && (forall k :: HasMessage(s, cid, mid, k) ==>
            if s.msgs[k].senderId != user then r == Refused(NotMessageAuthor(mid, user)) else r.OneMessage?)
    case _ => r == Nothing
  }

  lemma MemberReplies(s: Store, call: Call, env: Env, trace: seq<Step>, out: Outcome)
    requires WellFormed(s) && AsksAbout(call) && Performs(s, Go(Start(call)), env, trace, out)
    requires Member(s.convs, call.cid, call.user)
    ensures Has(s, call.cid) && MemberReply(s, call, env, out.reply)
  {
    var i, q := MemberRow(s, call.cid, call.user);
    RowIsMember(s, call.cid, call.user, i, q);
    match call
    case Get(cid, user) => GetReplies(s, cid, user, i, q, env, trace, out);
    case Send(cid, user, body) =>
      TrimEmptyIffBlank(body);
      var pids, recipients := SendReplies(s, cid, user, body, i, q, env, trace, out);
    case List(cid, user, o) => ListReplies(s, cid, user, o, i, q, env, trace, out);
    case DeleteMessage(cid, mid, user) => DeleteReplies(s, cid, mid, user, env, trace, out);
    case DeleteConversation(cid, user) => ClearReplies(s, cid, user, i, q, env, trace, out);
    case MarkRead(cid, user, at) => ReadReplies(s, cid, user, at, i, q, env, trace, out);
  }

  /** A deletion is refused over its message exactly when the log says so: no such message in that conversation, or one
      that somebody else sent. */
  lemma DeletionRefusedExactly(s: Store, cid: string, mid: string, user: string, env: Env, trace: seq<Step>,
      out: Outcome)
    requires WellFormed(s) && Performs(s, Go(Start(DeleteMessage(cid, mid, user))), env, trace, out)
    ensures out.reply == Refused(MessageNotFound(mid)) <==>
      Member(s.convs, cid, user) && !exists k :: HasMessage(s, cid, mid, k)
    ensures out.reply == Refused(NotMessageAuthor(mid, user)) <==>
      Member(s.convs, cid, user) && exists k :: HasMessage(s, cid, mid, k) && s.msgs[k].senderId != user
    ensures out.reply.OneMessage? <==>
      Member(s.convs, cid, user) && exists k :: HasMessage(s, cid, mid, k) && s.msgs[k].senderId == user
  {
    if Member(s.convs, cid, user) {
      DeleteReplies(s, cid, mid, user, env, trace, out);
      forall k, n | HasMessage(s, cid, mid, k) && HasMessage(s, cid, mid, n)
        ensures k == n
      {
      }
    } else {
      OutsiderRefused(s, DeleteMessage(cid, mid, user), env, trace, out);
    }
  }

  // The list.

  predicate SentSince(m: Message, cid: string, after: Option<int>) {
    m.conversationId == cid && (after.Some? ==> m.createdAt > after.value)
  }

  /** `last` is the newest message of the conversation sent after `after`, or None if there is none. */
  ghost predicate NewestSince(ms: seq<Message>, cid: string, after: Option<int>, last: Option<Message>) {
    if last.None? then forall m :: m in ms ==> !SentSince(m, cid, after)
    else
      && last.value in ms && SentSince(last.value, cid, after)
      && forall m :: m in ms && SentSince(m, cid, after) ==> m.createdAt <= last.value.createdAt
  }

  lemma PreviewIsNewest(s: Store, cid: string, after: Option<int>, page: seq<Message>)
    requires Lists(s.kind, s.msgs, cid, PreviewOptions(after), page)
    ensures NewestSince(s.msgs, cid, after, FirstOf(page))
  {
    var q := Where(cid, PreviewOptions(after));
    var found := Filter(s.msgs, q);
    if s.kind.InMemory? {
      InMemoryIsPage(s.msgs, cid, PreviewOptions(after));
    } else {
      PostgresIsPage(s.msgs, cid, PreviewOptions(after), page);
    }
    FilterIn(s.msgs, q);
    assert IsPage(found, Min(1, |found|), page);
    forall m | m in s.msgs && SentSince(m, cid, after)
      ensures page != [] && m.createdAt <= page[0].createdAt
    {
      assert Meets(m, q) && m in found;
      if m !in page {
        PageMisses(found, 1, page, m);
      }
    }
    if page != [] {
      PageMember(found, 1, page, page[0]);
    }
  }

  /** What is known of an entry is what the rows say. */
  ghost predicate Tells(s: Store, e: Entry) {
    e.last.Known? ==> NewestSince(s.msgs, e.conversation.id, e.clearedAt, e.last.message)
  }

  ghost predicate AllTell(s: Store, es: seq<Entry>) {
    forall i :: 0 <= i < |es| ==> Tells(s, es[i])
  }

  /** The same entries but for what is known of them. */
  ghost predicate SameAsked(es: seq<Entry>, fs: seq<Entry>) {
    |es| == |fs| && forall i :: 0 <= i < |es| ==> fs[i] == es[i].(last := fs[i].last)
  }

  lemma PreviewTells(s: Store, user: string, es: seq<Entry>, env: Env, s': Store, ans: Answer)
    requires AllTell(s, es) && Exec(s, QueryPreviews(Queries(es)), env, s', ans)
    ensures s' == s && ans.FoundPreview? && ans.i < |es|
    ensures var next := WithAnswer(es, ans.i, ans.page);
      && AllTell(s, next) && SameAsked(es, next)
      && Resume(PreviewsRead(user, es), ans, env.now) == Go(AfterPreviews(user, next))
  {
    var e := es[ans.i];
    PreviewIsNewest(s, e.conversation.id, e.clearedAt, ans.page);
  }

  lemma SameAskedTwice(es: seq<Entry>, fs: seq<Entry>, gs: seq<Entry>)
    requires SameAsked(es, fs) && SameAsked(fs, gs)
    ensures SameAsked(es, gs)
  {
  }

  /** The previews come in any order, and each says what was sent last. */
  lemma {:induction false} PreviewsCome(s: Store, user: string, es: seq<Entry>, env: Env, trace: seq<Step>,
      out: Outcome)
    returns (fs: seq<Entry>)
    requires AllTell(s, es) && Performs(s, Go(AfterPreviews(user, es)), env, trace, out)
    ensures SameAsked(es, fs) && AllTell(s, fs) && AllKnown(fs) && out == Quiet(s, Previews(ShownPreviews(fs)))
    decreases |trace|
  {
    if AllKnown(es) {
      fs := es;
    } else {
      Unfold(s, QueryPreviews(Queries(es)), PreviewsRead(user, es), [], [], env, trace, out);
      var ans := trace[0].ans;
      PreviewTells(s, user, es, env, trace[0].after, ans);
      var next := WithAnswer(es, ans.i, ans.page);
      fs := PreviewsCome(s, user, next, env, trace[1..], out);
      SameAskedTwice(es, next, fs);
    }
  }

  ghost predicate Increasing(h: seq<nat>) {
    forall j, l :: 0 <= j < l < |h| ==> h[j] < h[l]
  }

  ghost predicate ShownFrom(es: seq<Entry>, k: nat, p: Preview) {
    k < |es| && ToShow(es[k]) && p == Preview(es[k].conversation, es[k].last.message)
  }

  /** `shown` comes from the entries at `h`, in order, and that is all there is to show. */
  ghost predicate ShownInOrder(es: seq<Entry>, h: seq<nat>, shown: seq<Preview>) {
    && |h| == |shown| && Increasing(h)
    && (forall j :: 0 <= j < |h| ==> ShownFrom(es, h[j], shown[j]))
    && forall k :: 0 <= k < |es| && ToShow(es[k]) ==> k in h
  }

  lemma OneMoreShown(front: seq<Entry>, e: Entry, h: seq<nat>, shown: seq<Preview>)
    requires ShownInOrder(front, h, shown) && ToShow(e)
    ensures ShownInOrder(front + [e], h + [|front|], shown + [Preview(e.conversation, e.last.message)])
  {
    var es, n := front + [e], |front|;
    var h', shown' := h + [n], shown + [Preview(e.conversation, e.last.message)];
    forall j | 0 <= j < |h'|
      ensures ShownFrom(es, h'[j], shown'[j]) && h'[j] <= n
    {
      if j < |h| {
        assert ShownFrom(front, h[j], shown[j]);
      }
    }
    forall k | 0 <= k < |es| && ToShow(es[k])
      ensures k in h'
    {
      assert k < n ==> k in h;
      assert h'[|h|] == n;
    }
    forall j, l | 0 <= j < l < |h'|
      ensures h'[j] < h'[l]
    {
      assert ShownFrom(front, h[j], shown[j]);
    }
  }

  lemma NoneMoreShown(front: seq<Entry>, e: Entry, h: seq<nat>, shown: seq<Preview>)
    requires ShownInOrder(front, h, shown) && !ToShow(e)
    ensures ShownInOrder(front + [e], h, shown)
  {
    forall j | 0 <= j < |h|
      ensures ShownFrom(front + [e], h[j], shown[j])
    {
      assert ShownFrom(front, h[j], shown[j]);
    }
  }

  lemma {:induction false} ShownAt(es: seq<Entry>) returns (h: seq<nat>)
    ensures ShownInOrder(es, h, ShownPreviews(es))
  {
    h := [];
    if es != [] {
      var front, e := es[..|es| - 1], es[|es| - 1];
      var before := ShownAt(front);
      assert es == front + [e];
      if ToShow(e) {
        OneMoreShown(front, e, before, ShownPreviews(front));
        h := before + [|front|];
      } else {
        NoneMoreShown(front, e, before, ShownPreviews(front));
        h := before;
      }
    }
  }

  lemma {:induction false} ConcerningAt(cs: seq<Conversation>, user: string) returns (g: seq<nat>)
    ensures |g| == |Concerning(cs, user)| && Increasing(g)
    ensures forall k :: 0 <= k < |g| ==> g[k] < |cs| && Concerning(cs, user)[k] == cs[g[k]]
  {
    g := [];
    if cs != [] {
      var n := |cs| - 1;
      g := ConcerningAt(cs[..n], user);
      if IsParticipant(cs[n], user) {
        g := g + [n];
      }
    }
  }

  /** The conversations of a user, each once, in the order of creation: where they are stored, `g`. */
  ghost predicate InTurn(s: Store, g: seq<nat>) {
    && (forall k :: 0 <= k < |g| ==> g[k] < |s.convs|)
    && forall k, l :: 0 <= k < l < |g| ==>
         g[k] != g[l] && if s.kind.InMemory? then g[k] < g[l] else s.convs[g[k]].createdAt <= s.convs[g[l]].createdAt
  }

  /** Listed conversation k is the user's, stored at g[k]. */
  ghost predicate FoundAt(s: Store, user: string, list: seq<Conversation>, g: seq<nat>) {
    && |g| == |list| && InTurn(s, g)
    && forall k :: 0 <= k < |list| ==> Answers(s, g[k], list[k]) && IsParticipant(s.convs[g[k]], user)
  }

  lemma TurnsWithin(s: Store, g: seq<nat>, h: seq<nat>, at: seq<nat>)
    requires InTurn(s, g) && Increasing(h) && (forall j :: 0 <= j < |h| ==> h[j] < |g|)
    requires |at| == |h| && forall j :: 0 <= j < |h| ==> at[j] == g[h[j]]
    ensures InTurn(s, at)
  {
  }

  lemma FoundInTurn(s: Store, user: string, env: Env, list: seq<Conversation>) returns (g: seq<nat>)
    requires WellFormed(s) && Exec(s, FindByParticipant(user), env, s, FoundConversations(list))
    ensures FoundAt(s, user, list, g)
    ensures forall i :: 0 <= i < |s.convs| && IsParticipant(s.convs[i], user) ==> i in g
  {
    var mine := Concerning(s.convs, user);
    if s.kind.InMemory? {
      g := ConcerningAt(s.convs, user);
      forall k | 0 <= k < |mine|
        ensures IsParticipant(mine[k], user)
      {
        ConcerningIn(s.convs, user, mine[k]);
      }
    } else {
      g := StoredAt(s, user, list);
    }
    forall i | 0 <= i < |s.convs| && IsParticipant(s.convs[i], user)
      ensures i in g
    {
      ConcerningIn(s.convs, user, s.convs[i]);
      Listed(s, user, list, g, i);
    }
  }

  /** The index of each listed conversation. */
  lemma {:induction false} StoredAt(s: Store, user: string, list: seq<Conversation>) returns (g: seq<nat>)
    requires WellFormed(s) && s.kind.Postgres? && OldestFirst(list) && DistinctConversations(list)
    requires forall c :: c in list ==>
      Find(Concerning(s.convs, user), c.id).Some? && Same(c, Find(Concerning(s.convs, user), c.id).value)
    ensures FoundAt(s, user, list, g)
  {
    g := [];
    if list != [] {
      var n := |list| - 1;
      g := StoredAt(s, user, list[..n]);
      var c := Find(Concerning(s.convs, user), list[n].id).value;
      ConcerningIn(s.convs, user, c);
      var i :| 0 <= i < |s.convs| && s.convs[i] == c;
      forall k | 0 <= k < n
        ensures g[k] != i && s.convs[g[k]].createdAt <= c.createdAt
      {
        assert Answers(s, g[k], list[..n][k]);
      }
      g := g + [i];
    }
  }

  lemma Listed(s: Store, user: string, list: seq<Conversation>, g: seq<nat>, i: nat)
    requires WellFormed(s) && |g| == |list| && i < |s.convs| && s.convs[i] in Concerning(s.convs, user)
    requires forall k :: 0 <= k < |g| ==> g[k] < |s.convs| && Answers(s, g[k], list[k])
    requires if s.kind.InMemory? then list == Concerning(s.convs, user)
             else forall d :: d in Concerning(s.convs, user) ==> Find(list, d.id).Some?
    ensures i in g
  {
    var c := s.convs[i];
    var d := if s.kind.InMemory? then c else Find(list, c.id).value;
    var k :| 0 <= k < |list| && list[k] == d;
    assert Answers(s, g[k], d);
    SameId(s.convs, c, s.convs[g[k]]);
    assert g[k] == i;
  }

  /** Preview `p` tells of conversation i to the user with row q. */
  ghost predicate PreviewOf(s: Store, i: nat, q: nat, p: Preview)
    requires i < |s.convs| && q < |s.convs[i].participants|
  {
    var clearedAt := s.convs[i].participants[q].clearedAt;
    && Answers(s, i, p.conversation)
    && NewestSince(s.msgs, s.convs[i].id, clearedAt, p.lastMessage)
    && (clearedAt.Some? ==> p.lastMessage.Some?)
  }

  ghost predicate Previewed(s: Store, user: string, i: nat, p: Preview)
    requires i < |s.convs|
  {
    exists q :: RowAt(s, s.convs[i].id, user, i, q) && PreviewOf(s, i, q, p)
  }

  /** The user is in conversation i, and has not cleared it or it was sent to since. */
  ghost predicate ToList(s: Store, user: string, i: int, q: int) {
    && 0 <= i < |s.convs| && 0 <= q && RowAt(s, s.convs[i].id, user, i, q)
    && var clearedAt := s.convs[i].participants[q].clearedAt;
       clearedAt.None? || exists m :: m in s.msgs && SentSince(m, s.convs[i].id, clearedAt)
  }

  /** The list, on either store: exactly the user's own conversations that they have not cleared or that were sent to
      since, each once, in order of creation, with the newest message they have not cleared. */
  lemma ListConversationsReplies(s: Store, user: string, env: Env, trace: seq<Step>, out: Outcome)
    returns (at: seq<nat>)
    requires WellFormed(s) && Performs(s, Go(Start(ListConversations(user))), env, trace, out)
    ensures out.reply.Previews? && out == Quiet(s, out.reply)
    ensures |at| == |out.reply.previews| && InTurn(s, at)
    ensures forall j :: 0 <= j < |at| ==> Previewed(s, user, at[j], out.reply.previews[j])
    ensures forall i, q :: ToList(s, user, i, q) ==> i in at
  {
    Unfold(s, FindByParticipant(user), AllForPreviews(user), [], [], env, trace, out);
    var list := trace[0].ans.list;
    var g := FoundInTurn(s, user, env, list);
    var fs := PreviewsCome(s, user, Entries(user, list), env, trace[1..], out);
    at := ShownInTurn(s, user, list, g, fs);
  }

  lemma ShownInTurn(s: Store, user: string, list: seq<Conversation>, g: seq<nat>, fs: seq<Entry>) returns (at: seq<nat>)
    requires WellFormed(s) && FoundAt(s, user, list, g) && AllTell(s, fs) && AllKnown(fs)
    requires SameAsked(Entries(user, list), fs)
    requires forall i :: 0 <= i < |s.convs| && IsParticipant(s.convs[i], user) ==> i in g
    ensures |at| == |ShownPreviews(fs)| && InTurn(s, at)
    ensures forall j :: 0 <= j < |at| ==> Previewed(s, user, at[j], ShownPreviews(fs)[j])
    ensures forall i, q :: ToList(s, user, i, q) ==> i in at
  {
    var h := ShownAt(fs);
    forall j | 0 <= j < |h|
      ensures h[j] < |g| && Previewed(s, user, g[h[j]], ShownPreviews(fs)[j])
    {
      ShownIsPreviewed(s, user, list, g, fs, h[j], ShownPreviews(fs)[j]);
    }
    at := seq(|h|, j requires 0 <= j < |h| => g[h[j]]);
    TurnsWithin(s, g, h, at);
    forall i, q | ToList(s, user, i, q)
      ensures i in at
    {
      var k := ToListIsShown(s, user, list, g, fs, i, q);
      var j :| 0 <= j < |h| && h[j] == k;
      assert at[j] == i;
    }
  }

  lemma EntryAsked(user: string, list: seq<Conversation>, fs: seq<Entry>, k: nat)
    requires SameAsked(Entries(user, list), fs) && k < |list|
    ensures fs[k] == Entry(list[k], ClearedAt(list[k], user), fs[k].last)
  {
  }

  lemma ShownIsPreviewed(s: Store, user: string, list: seq<Conversation>, g: seq<nat>, fs: seq<Entry>, k: nat,
      p: Preview)
    requires WellFormed(s) && FoundAt(s, user, list, g) && AllTell(s, fs)
    requires SameAsked(Entries(user, list), fs) && ShownFrom(fs, k, p)
    ensures k < |g| && Previewed(s, user, g[k], p)
  {
    EntryAsked(user, list, fs, k);
    var q := EntryTells(s, user, g[k], list[k], fs[k]);
  }

  lemma ToListIsShown(s: Store, user: string, list: seq<Conversation>, g: seq<nat>, fs: seq<Entry>, i: nat, q: nat)
    returns (k: nat)
    requires WellFormed(s) && FoundAt(s, user, list, g) && AllTell(s, fs) && AllKnown(fs)
    requires SameAsked(Entries(user, list), fs)
    requires ToList(s, user, i, q) && (IsParticipant(s.convs[i], user) ==> i in g)
    ensures k < |g| && g[k] == i && ToShow(fs[k])
  {
    assert UserIds(s.convs[i].participants)[q] == user;
    k :| 0 <= k < |g| && g[k] == i;
    EntryAsked(user, list, fs, k);
    var r := EntryTells(s, user, i, list[k], fs[k]);
    assert q == r;
  }

  lemma EntryTells(s: Store, user: string, i: nat, c: Conversation, e: Entry) returns (q: nat)
    requires WellFormed(s) && i < |s.convs| && Answers(s, i, c) && IsParticipant(s.convs[i], user)
    requires Tells(s, e) && e.last.Known? && e == Entry(c, ClearedAt(c, user), e.last)
    ensures RowAt(s, s.convs[i].id, user, i, q) && (ToShow(e) <==> ToList(s, user, i, q))
    ensures ToShow(e) ==> PreviewOf(s, i, q, Preview(c, e.last.message))
  {
    q := FirstRow(s.convs[i].participants, user);
    RowFound(s.convs[i].participants, q);
    if s.kind.Postgres? {
      SameFindsSame(s.convs[i], c, user);
    }
  }
}
