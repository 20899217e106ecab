/** When history a user has cleared comes back: `deleteConversation` reads its instant before its UPDATE runs, so
    deletions that overlap may be applied out of order. src/core/messaging-service.ts:199-212,
    src/adapters/postgres/conversation-store.ts:79-84 */
module Overlap {
  import opened Domain
  import opened Rows
  import opened Stores
  import opened Service
  import opened Machine
  import opened Concurrency
  import opened Safety
  import opened Cleared

  // Clears that wait.

  /** A deletion of `cid` by `user` that has read its instant and waits for its UPDATE. */
  predicate Clears(th: Thread, cid: string, user: string) {
    th.Waiting? && th.op.MarkParticipant? && th.op.cid == cid && th.op.user == user && th.op.mark.Cleared?
  }

  /** Such a deletion whose instant is before message `m` of the conversation. */
  predicate Stale(s: Sys, tid: nat, m: Message, user: string) {
    tid in s.threads && Clears(s.threads[tid], m.conversationId, user) && s.threads[tid].op.mark.at < m.createdAt
  }

  ghost predicate NoneStale(s: Sys, m: Message, user: string) {
    forall tid :: tid in s.threads ==> !Stale(s, tid, m, user)
  }

  /** An instant is the clock at the step that reads it. */
  lemma ClearsSince(s: Sys, l: Label, s': Sys, tid: nat, cid: string, user: string)
    requires Next(s, l, s') && tid in s'.threads && Clears(s'.threads[tid], cid, user)
    ensures
      || (tid in s.threads && s'.threads[tid] == s.threads[tid])
      || (l == Continue(tid) && s'.threads[tid].op.mark.at == s.clock)
  {
  }

  lemma ClearsCall(s: Sys, tid: nat, cid: string, user: string)
    requires Inv(s) && tid in s.threads && Clears(s.threads[tid], cid, user)
    ensures s.threads[tid].call == DeleteConversation(cid, user) && Member(s.store.convs, cid, user)
  {
    assert ThreadOk(s.store, s.grants, tid, s.threads[tid]);
  }

  // What brings a hidden message back: exactly a clear that waits with an instant before it.

  lemma NoneStaleNext(ss: seq<Sys>, ls: seq<Label>, n: nat, k: nat, user: string)
    requires Run(ss, ls) && n < |ls| && k < |ss[n].store.msgs|
    requires Hidden(ss, ls, n, k, user) && NoneStale(ss[n], ss[n].store.msgs[k], user)
    ensures k < |ss[n + 1].store.msgs| && Hidden(ss, ls, n + 1, k, user)
    ensures NoneStale(ss[n + 1], ss[n + 1].store.msgs[k], user)
  {
    var s, s', m := ss[n], ss[n + 1], ss[n].store.msgs[k];
    RunStep(ss, ls, n);
    RunClock(ss, ls, n);
    assert Key(m) == Key(s'.store.msgs[k]) && Moves(ss, ls, n);
    RevealedByOvertaken(ss, ls, n, k, user);
    if ClearsAt(s, ls[n], m.conversationId, user).Some? {
      assert !Stale(s, ls[n].tid, m, user);
    }
    forall tid | tid in s'.threads
      ensures !Stale(s', tid, s'.store.msgs[k], user)
    {
      if Clears(s'.threads[tid], m.conversationId, user) {
        ClearsSince(s, ls[n], s', tid, m.conversationId, user);
        assert tid in s.threads ==> !Stale(s, tid, m, user);
      }
    }
  }

  lemma {:induction false} NoneStaleStays(ss: seq<Sys>, ls: seq<Label>, i: nat, j: nat, k: nat, user: string)
    requires Run(ss, ls) && i <= j < |ss| && k < |ss[i].store.msgs|
    requires Hidden(ss, ls, i, k, user) && NoneStale(ss[i], ss[i].store.msgs[k], user)
    ensures k < |ss[j].store.msgs| && Hidden(ss, ls, j, k, user) && NoneStale(ss[j], ss[j].store.msgs[k], user)
    decreases j - i
  {
    if i < j {
      NoneStaleStays(ss, ls, i, j - 1, k, user);
      NoneStaleNext(ss, ls, j - 1, k, user);
    }
  }

  /** A run goes on. */
  ghost predicate Continues(ss: seq<Sys>, ls: seq<Label>, ss': seq<Sys>, ls': seq<Label>) {
    Run(ss, ls) && Run(ss', ls') && ss <= ss' && ls <= ls'
  }

  lemma {:induction false} SameLatest(ss: seq<Sys>, ls: seq<Label>, ss': seq<Sys>, ls': seq<Label>, n: nat,
        cid: string, user: string)
    requires Continues(ss, ls, ss', ls') && n <= |ls|
    ensures LatestClear(ss', ls', n, cid, user) == LatestClear(ss, ls, n, cid, user)
  {
    if n > 0 {
      SameLatest(ss, ls, ss', ls', n - 1, cid, user);
    }
  }

  /** The run can go on to a state in which message k is no longer hidden from `user`. */
  ghost predicate CanReappear(ss: seq<Sys>, ls: seq<Label>, k: nat, user: string) {
    exists ss': seq<Sys>, ls': seq<Label> ::
      Continues(ss, ls, ss', ls') && k < |ss'[|ls'|].store.msgs| && !Hidden(ss', ls', |ls'|, k, user)
  }

  /** Nothing is needed for a waiting clear to execute. */
  lemma ClearExecutes(s: Sys, tid: nat, cid: string, user: string) returns (s': Sys)
    requires tid in s.threads && Clears(s.threads[tid], cid, user)
    ensures Next(s, Execute(tid, "", true), s') && s'.store.msgs == s.store.msgs && s'.store.kind == s.store.kind
    ensures forall t :: t in s.threads && t != tid ==> t in s'.threads && s'.threads[t] == s.threads[t]
  {
    var op := s.threads[tid].op;
    var store := s.store.(convs := Marked(s.store.convs, cid, user, op.mark));
    s' := Executed(s, tid, store, Acknowledged);
    assert Exec(s.store, op, Env("", s.clock, true), s'.store, Acknowledged);
  }

  /** Over either store: a message a user has cleared away can come back, in whatever continuation, if and only if
      at this moment a deletion of the conversation by that user waits with an instant before the message. */
  lemma ReappearsExactlyByStaleClear(ss: seq<Sys>, ls: seq<Label>, k: nat, user: string)
    requires Run(ss, ls) && k < |ss[|ls|].store.msgs| && Hidden(ss, ls, |ls|, k, user)
    ensures CanReappear(ss, ls, k, user) <==> exists tid :: Stale(ss[|ls|], tid, ss[|ls|].store.msgs[k], user)
  {
    var s, m := ss[|ls|], ss[|ls|].store.msgs[k];
    if tid: nat :| Stale(s, tid, m, user) {
      var s' := ClearExecutes(s, tid, m.conversationId, user);
      RunAppend(ss, ls, Execute(tid, "", true), s');
      var ss', ls' := ss + [s'], ls + [Execute(tid, "", true)];
      assert Continues(ss, ls, ss', ls') && ss'[|ls'|] == s' && ss'[|ls|] == s;
      assert !Hidden(ss', ls', |ls'|, k, user);
    } else if CanReappear(ss, ls, k, user) {
      var ss': seq<Sys>, ls': seq<Label> :|
        Continues(ss, ls, ss', ls') && k < |ss'[|ls'|].store.msgs| && !Hidden(ss', ls', |ls'|, k, user);
      SameLatest(ss, ls, ss', ls', |ls|, m.conversationId, user);
      assert ss'[|ls|] == s && Hidden(ss', ls', |ls|, k, user);
      NoneStaleStays(ss', ls', |ls|, |ls'|, k, user);
    }
  }

  // What a caller can do about it: wait for one deletion before asking for the next.

  predicate Unfinished(s: Sys, tid: nat, call: Call) {
    tid in s.threads && s.threads[tid].call == call && !s.threads[tid].Ended?
  }

  /** No deletion of `cid` by `user` begins while another one is unfinished. */
  ghost predicate NoOverlap(ss: seq<Sys>, ls: seq<Label>, cid: string, user: string)
    requires |ss| == |ls| + 1
  {
    forall n, tid :: 0 <= n < |ls| && ls[n].Begin? && ls[n].call == DeleteConversation(cid, user) ==>
      !Unfinished(ss[n], tid, DeleteConversation(cid, user))
  }

  ghost predicate OneAtATime(s: Sys, cid: string, user: string) {
    forall t, u ::
      Unfinished(s, t, DeleteConversation(cid, user)) && Unfinished(s, u, DeleteConversation(cid, user)) ==> t == u
  }

  /** At most one deletion is unfinished, and the instant it waits with, if any, is the latest so far. */
  ghost predicate InOrder(ss: seq<Sys>, ls: seq<Label>, n: nat, cid: string, user: string)
    requires n < |ss| == |ls| + 1
  {
    var latest := LatestClear(ss, ls, n, cid, user);
    && OneAtATime(ss[n], cid, user)
    && (latest.Some? ==> latest.value <= ss[n].clock)
    && forall tid :: tid in ss[n].threads && Clears(ss[n].threads[tid], cid, user) ==>
         ss[n].threads[tid].op.mark.at <= ss[n].clock
           && (latest.Some? ==> latest.value <= ss[n].threads[tid].op.mark.at)
  }

  lemma OneAtATimeNext(s: Sys, l: Label, s': Sys, cid: string, user: string)
    requires Next(s, l, s') && OneAtATime(s, cid, user)
    requires l.Begin? && l.call == DeleteConversation(cid, user) ==>
      forall tid :: !Unfinished(s, tid, DeleteConversation(cid, user))
    ensures OneAtATime(s', cid, user)
  {
    var call := DeleteConversation(cid, user);
    forall t | Unfinished(s', t, call)
      ensures Unfinished(s, t, call) || (l == Begin(t, call))
    {
    }
  }

  lemma InOrderNext(ss: seq<Sys>, ls: seq<Label>, n: nat, cid: string, user: string)
    requires Run(ss, ls) && NoOverlap(ss, ls, cid, user) && n < |ls| && InOrder(ss, ls, n, cid, user)
    ensures InOrder(ss, ls, n + 1, cid, user)
  {
    var s, l, s' := ss[n], ls[n], ss[n + 1];
    RunInv(ss, ls, n);
    assert Moves(ss, ls, n);
    OneAtATimeNext(s, l, s', cid, user);
    ClockForward(ss, ls, n, n + 1);
    forall tid | tid in s'.threads && Clears(s'.threads[tid], cid, user)
      ensures s'.threads[tid].op.mark.at <= s'.clock
      ensures var latest := LatestClear(ss, ls, n + 1, cid, user);
        latest.Some? ==> latest.value <= s'.threads[tid].op.mark.at
    {
      ClearsSince(s, l, s', tid, cid, user);
      if ClearsAt(s, l, cid, user).Some? {
        ClearsCall(s, l.tid, cid, user);
        if tid in s.threads && s'.threads[tid] == s.threads[tid] {
          ClearsCall(s, tid, cid, user);
          assert Unfinished(s, tid, DeleteConversation(cid, user))
            && Unfinished(s, l.tid, DeleteConversation(cid, user));
        }
      }
    }
  }

  lemma {:induction false} InOrderAlways(ss: seq<Sys>, ls: seq<Label>, n: nat, cid: string, user: string)
    requires Run(ss, ls) && NoOverlap(ss, ls, cid, user) && n < |ss|
    ensures InOrder(ss, ls, n, cid, user)
  {
    if n > 0 {
      InOrderAlways(ss, ls, n - 1, cid, user);
      InOrderNext(ss, ls, n - 1, cid, user);
    }
  }

  /** Cleared history stays gone, over either store and however long each step takes, for a user whose deletions of
      the conversation do not overlap. */
  lemma HiddenWithoutOverlap(ss: seq<Sys>, ls: seq<Label>, i: nat, j: nat, k: nat, user: string)
    requires Run(ss, ls) && i <= j < |ss| && k < |ss[i].store.msgs| && Hidden(ss, ls, i, k, user)
    requires NoOverlap(ss, ls, ss[i].store.msgs[k].conversationId, user)
    ensures k < |ss[j].store.msgs| && Hidden(ss, ls, j, k, user)
  {
    InOrderAlways(ss, ls, i, ss[i].store.msgs[k].conversationId, user);
    NoneStaleStays(ss, ls, i, j, k, user);
  }

  // And what happens otherwise.

  ghost predicate ShownTo(s: Sys, m: Message, user: string) {
    && m in s.store.msgs && Find(s.store.convs, m.conversationId).Some?
    && var at := ClearedAt(Find(s.store.convs, m.conversationId).value, user);
       at.Some? ==> m.createdAt > at.value
  }

  lemma ClearedNow(s: Sys, tid: nat, id: string, gate: bool, s': Sys, cid: string, user: string)
    requires Inv(s) && tid in s.threads && Clears(s.threads[tid], cid, user) && Next(s, Execute(tid, id, gate), s')
    ensures Inv(s') && s'.store.msgs == s.store.msgs && s'.threads.Keys == s.threads.Keys
    ensures forall t :: t in s.threads && t != tid ==> s'.threads[t] == s.threads[t]
    ensures Find(s'.store.convs, cid).Some?
    ensures ClearedAt(Find(s'.store.convs, cid).value, user) == Some(s.threads[tid].op.mark.at)
  {
    ExecuteKeeps(s, tid, id, gate, s');
    ClearsCall(s, tid, cid, user);
    var at := s.threads[tid].op.mark.at;
    assert s'.store.convs == Marked(s.store.convs, cid, user, Cleared(at));
    MarkedNow(s.store.convs, cid, user, at, s'.store.convs);
  }

  lemma MarkedNow(cs: seq<Conversation>, cid: string, user: string, at: int, cs': seq<Conversation>)
    requires cs' == Marked(cs, cid, user, Cleared(at)) && Member(cs, cid, user) && DistinctConversations(cs')
    ensures Find(cs', cid).Some? && ClearedAt(Find(cs', cid).value, user) == Some(at)
  {
    var i :| 0 <= i < |cs| && cs[i].id == cid && user in UserIds(cs[i].participants);
    assert cs'[i] == Restamp(cs[i], cid, user, Cleared(at));
    MarkedClearedAt(cs[i], cid, user, Cleared(at), user);
    SameId(cs', cs'[i], Find(cs', cid).value);
  }

  ghost predicate Reachable(s: Sys) {
    exists ss, ls :: Run(ss, ls) && ss[|ss| - 1] == s
  }

  lemma ReachNext(s: Sys, l: Label, s': Sys)
    requires Reachable(s) && Next(s, l, s')
    ensures Reachable(s')
  {
    var ss, ls :| Run(ss, ls) && ss[|ss| - 1] == s;
    RunAppend(ss, ls, l, s');
    assert (ss + [s'])[|ss + [s']| - 1] == s';
  }

  /** In every reachable state in which two deletions of one conversation by one user wait, executing the later one
      and then the earlier one hides every message created between their instants, and shows it again. */
  lemma OverlapReveals(s: Sys, t1: nat, t2: nat, m: Message, user: string, s1: Sys, s2: Sys, id1: string, id2: string,
      gate1: bool, gate2: bool)
    requires Reachable(s) && m in s.store.msgs && t1 in s.threads && t2 in s.threads
    requires Clears(s.threads[t1], m.conversationId, user) && Clears(s.threads[t2], m.conversationId, user)
    requires s.threads[t1].op.mark.at < m.createdAt <= s.threads[t2].op.mark.at
    requires Next(s, Execute(t2, id2, gate2), s1) && Next(s1, Execute(t1, id1, gate1), s2)
    ensures Reachable(s1) && !ShownTo(s1, m, user)
    ensures Reachable(s2) && ShownTo(s2, m, user)
  {
    var ss, ls :| Run(ss, ls) && ss[|ss| - 1] == s;
    RunInv(ss, ls, |ss| - 1);
    ClearedNow(s, t2, id2, gate2, s1, m.conversationId, user);
    ClearedNow(s1, t1, id1, gate1, s2, m.conversationId, user);
    ReachNext(s, Execute(t2, id2, gate2), s1);
    ReachNext(s1, Execute(t1, id1, gate1), s2);
  }

  // Two overlapping deletions, step by step, over Postgres.

  /** Some call of thread `tid` has its operation executed with answer `ans`, and continues. */
  lemma ReachTurn(s: Sys, tid: nat, id: string, store: Store, ans: Answer) returns (s': Sys)
    requires Reachable(s) && s.store.kind.Postgres? && tid in s.threads && s.threads[tid].Waiting?
    requires Exec(s.store, s.threads[tid].op, Env(id, s.clock, true), store, ans)
    ensures Reachable(s') && s' == Continued(Executed(s, tid, store, ans), tid)
  {
    var mid := Executed(s, tid, store, ans);
    assert Next(s, Execute(tid, id, true), mid);
    ReachNext(s, Execute(tid, id, true), mid);
    s' := Continued(mid, tid);
    ReachNext(mid, Continue(tid), s');
  }

  lemma ReachBegin(s: Sys, tid: nat, call: Call) returns (s': Sys)
    requires Reachable(s) && tid !in s.threads
    ensures Reachable(s') && s' == s.(threads := s.threads[tid := AsThread(call, Start(call))])
  {
    s' := s.(threads := s.threads[tid := AsThread(call, Start(call))]);
    ReachNext(s, Begin(tid, call), s');
  }

  lemma ReachTick(s: Sys, to: int) returns (s': Sys)
    requires Reachable(s) && s.clock <= to
    ensures Reachable(s') && s' == s.(clock := to)
  {
    s' := s.(clock := to);
    ReachNext(s, Tick(to), s');
  }

  /** `c` is a stored conversation the database can answer for a lookup by `user`. */
  ghost predicate Lookup(s: Sys, c: Conversation, user: string) {
    s.store.kind.Postgres? && Find(s.store.convs, c.id) == Some(c) && c.participants != [] && IsParticipant(c, user)
  }

  /** A deleteConversation comes as far as waiting for its UPDATE, its instant already read. */
  lemma ReachClear(s: Sys, tid: nat, c: Conversation, user: string) returns (s': Sys)
    requires Reachable(s) && tid !in s.threads && Lookup(s, c, user)
    ensures Reachable(s') && s'.store == s.store && s'.clock == s.clock
    ensures s'.threads ==
      s.threads[tid := Waiting(DeleteConversation(c.id, user), MarkParticipant(c.id, user, Cleared(s.clock)),
        MarkWritten)]
  {
    var s1 := ReachBegin(s, tid, DeleteConversation(c.id, user));
    s' := ReachTurn(s1, tid, "", s.store, FoundConversation(Some(c)));
  }

  lemma ReachAsked(s: Sys, tid: nat, c: Conversation, user: string) returns (s': Sys)
    requires Reachable(s) && tid !in s.threads && Lookup(s, c, user)
    ensures Reachable(s') && s'.clock == s.clock && s'.store == s.store
    ensures var pids := UserIds(c.participants);
      s'.threads == s.threads[tid := Waiting(Send(c.id, user, "x"), AskGate(user, pids),
        GateForSend(c.id, pids, user, "x"))]
  {
    SendStarts(c, user, s.clock);
    var s1 := ReachBegin(s, tid, Send(c.id, user, "x"));
    s' := ReachTurn(s1, tid, "", s.store, FoundConversation(Some(c)));
  }

  lemma SendStarts(c: Conversation, user: string, now: int)
    requires IsParticipant(c, user)
    ensures Start(Send(c.id, user, "x")) == Asking(FindConversation(c.id), LookupForSend(c.id, user, "x"))
    ensures var pids := UserIds(c.participants);
      AfterLookup(LookupForSend(c.id, user, "x"), Some(c), now) ==
        Go(Asking(AskGate(user, pids), GateForSend(c.id, pids, user, "x")))
  {
    assert Trim("x") == "x" by {
      assert !IsSpace('x');
    }
  }

  lemma ReachAllowed(s: Sys, tid: nat, c: Conversation, user: string) returns (s': Sys)
    requires Reachable(s) && tid !in s.threads && Lookup(s, c, user)
    ensures Reachable(s') && s'.clock == s.clock && s'.store == s.store
    ensures var pids := UserIds(c.participants);
      s'.threads == s.threads[tid := Waiting(Send(c.id, user, "x"), CreateMessage(c.id, user, "x"),
        SendWritten(pids, user))]
  {
    var s1 := ReachAsked(s, tid, c, user);
    s' := ReachTurn(s1, tid, "", s.store, GateSays(true));
  }

  lemma ReachSend(s: Sys, tid: nat, c: Conversation, user: string, id: string) returns (s': Sys)
    requires Reachable(s) && tid !in s.threads && Lookup(s, c, user) && FindById(s.store.msgs, id).None?
    ensures Reachable(s') && s'.clock == s.clock
    ensures s'.store == s.store.(msgs := s.store.msgs + [Message(id, c.id, user, "x", s.clock, None)])
    ensures forall t :: t in s.threads ==> t in s'.threads && s'.threads[t] == s.threads[t]
    ensures s'.threads.Keys == s.threads.Keys + {tid}
  {
    var s1 := ReachAllowed(s, tid, c, user);
    var m := Message(id, c.id, user, "x", s.clock, None);
    s' := ReachTurn(s1, tid, id, s.store.(msgs := s.store.msgs + [m]), Stored(m));
  }

  lemma ReachInitial(clock: int)
    ensures Reachable(Initial(Postgres, clock))
  {
    var s0 := Initial(Postgres, clock);
    assert Run([s0], []) && [s0][|[s0]| - 1] == s0;
  }

  lemma ReachGranted(clock: int) returns (s: Sys)
    ensures Reachable(s) && s.clock == clock && s.store == Store(Postgres, [], [])
    ensures s.threads == map[0 := Waiting(Create("a", ["a", "b"]), CreateConversation(["a", "b"]), CreateWritten)]
  {
    ReachInitial(clock);
    var s1 := ReachBegin(Initial(Postgres, clock), 0, Create("a", ["a", "b"]));
    s := ReachTurn(s1, 0, "", s1.store, GateSays(true));
  }

  lemma ReachConversation(clock: int) returns (s: Sys, c: Conversation)
    ensures Reachable(s) && s.clock == clock && s.store == Store(Postgres, [c], []) && s.threads.Keys == {0}
    ensures c.id == "c" && Lookup(s, c, "a") && Lookup(s, c, "b")
  {
    var s1 := ReachGranted(clock);
    c := Conversation("c", Fresh(["a", "b"]), clock);
    assert UserIds(c.participants) == ["a", "b"];
    assert NoDuplicates(["a", "b"]);
    s := ReachTurn(s1, 0, "c", Store(Postgres, [c], []), Created(c));
  }

  /** Two deletions by "b" wait for their UPDATE, and a message was created between the instants they read. */
  lemma TwoClearsWaiting() returns (s: Sys, c: Conversation, m: Message)
    ensures Reachable(s) && s.store == Store(Postgres, [c], [m]) && IsParticipant(c, "b")
    ensures c.id == "c" && m.conversationId == "c" && m.createdAt == 6
    ensures 1 in s.threads
    ensures s.threads[1] == Waiting(DeleteConversation("c", "b"), MarkParticipant("c", "b", Cleared(5)), MarkWritten)
    ensures 3 in s.threads
    ensures s.threads[3] == Waiting(DeleteConversation("c", "b"), MarkParticipant("c", "b", Cleared(7)), MarkWritten)
  {
    var s1, c1 := ReachConversation(5);
    c := c1;
    var s2 := ReachClear(s1, 1, c, "b");
    var s3 := ReachTick(s2, 6);
    var s4 := ReachSend(s3, 2, c, "a", "m");
    var s5 := ReachTick(s4, 7);
    s := ReachClear(s5, 3, c, "b");
    m := Message("m", "c", "a", "x", 6, None);
  }

  lemma OverlapHappens(s: Sys, t1: nat, t2: nat, m: Message, user: string) returns (s1: Sys, l: Label, s2: Sys)
    requires Reachable(s) && m in s.store.msgs && t1 in s.threads && t2 in s.threads
    requires Clears(s.threads[t1], m.conversationId, user) && Clears(s.threads[t2], m.conversationId, user)
    requires s.threads[t1].op.mark.at < m.createdAt <= s.threads[t2].op.mark.at
    ensures Reachable(s1) && s1.store.kind == s.store.kind && m in s1.store.msgs && Next(s1, l, s2)
    ensures !ShownTo(s1, m, user) && ShownTo(s2, m, user)
  {
    s1 := ClearExecutes(s, t2, m.conversationId, user);
    l := Execute(t1, "", true);
    s2 := ClearExecutes(s1, t1, m.conversationId, user);
    OverlapReveals(s, t1, t2, m, user, s1, s2, "", "", true, true);
  }

  /** Such a state can be reached: a message that "b" has cleared away is shown to "b" again by a step of a run that
      begins with nothing stored. */
  lemma OvertakenClearReveals()
    ensures exists s, l, s', m ::
      (Reachable(s) && s.store.kind.Postgres? && Next(s, l, s') && m in s.store.msgs && !ShownTo(s, m, "b")
        && ShownTo(s', m, "b"))
  {
    var s, c, m := TwoClearsWaiting();
    var s1, l, s2 := OverlapHappens(s, 1, 3, m, "b");
  }
}
