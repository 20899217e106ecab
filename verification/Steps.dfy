/** One step of a run over Postgres and the steps that go with it in memory: the two systems stay coupled exactly if the
    step fits. */
module Steps {
  import opened Domain
  import opened Query
  import opened Paging
  import opened Rows
  import opened Stores
  import opened Dated
  import opened Service
  import opened Sequential
  import opened Machine
  import opened Concurrency
  import opened Simulation
  import opened Agreement
  import opened Coupling

  // Which deletions wait.

  lemma {:induction false} RemovedIs(waits: seq<nat>, tid: nat)
    requires EachOnce(waits)
    ensures EachOnce(Removed(waits, tid))
    ensures forall t :: t in Removed(waits, tid) <==> t in waits && t != tid
  {
    if waits != [] && waits[0] != tid {
      RemovedIs(waits[1..], tid);
      assert waits == [waits[0]] + waits[1..];
      assert waits[0] !in waits[1..];
    } else if waits != [] {
      assert waits == [waits[0]] + waits[1..];
      assert waits[0] !in waits[1..];
    }
  }

  lemma OneMoves(b: Sys, l: Label, b': Sys)
    requires Next(b, l, b') && !l.Tick?
    ensures l.tid in b'.threads && b'.threads == b.threads[l.tid := b'.threads[l.tid]]
    ensures !l.Begin? ==> l.tid in b.threads && b'.threads[l.tid].call == b.threads[l.tid].call
    ensures l.Begin? ==> l.tid !in b.threads && !Deleting(b'.threads[l.tid])
    ensures l.Execute? ==> b.threads[l.tid].Waiting? && b'.threads[l.tid].Holding?
    ensures l.Continue? ==> b.threads[l.tid].Holding?
  {
  }

  lemma WaitsAfterAre(b: Sys, waits: seq<nat>, l: Label, b': Sys)
    requires WaitsAre(b, waits) && Next(b, l, b')
    ensures WaitsAre(b', WaitsAfter(b, waits, l, b'))
  {
    if !l.Tick? {
      OneMoves(b, l, b');
      RemovedIs(waits, l.tid);
    }
  }

  lemma OpsSame(b: Sys, b': Sys, waits: seq<nat>)
    requires forall tid :: tid in waits ==> OpOf(b', tid) == OpOf(b, tid)
    ensures Ops(b', waits) == Ops(b, waits)
  {
    forall i | 0 <= i < |waits|
      ensures Ops(b', waits)[i] == Ops(b, waits)[i]
    {
      assert waits[i] in waits;
    }
  }

  /** A thread that is not among those that wait moves. */
  lemma OpsStay(b: Sys, waits: seq<nat>, tid: nat, b': Sys)
    requires WaitsAre(b, waits) && tid !in waits && tid in b'.threads
    requires b'.threads == b.threads[tid := b'.threads[tid]]
    ensures Ops(b', waits) == Ops(b, waits)
  {
    OpsSame(b, b', waits);
  }

  // What it takes for the two systems to be coupled again.

  lemma MovesExactly(a: Sys, b: Sys, waits: seq<nat>, tid: nat, a': Sys, b': Sys, waits': seq<nat>)
    requires Coupled(a, b, waits) && tid in b.threads && tid in b'.threads && b'.store.kind.Postgres?
    requires b'.threads == b.threads[tid := b'.threads[tid]] && b'.threads[tid].call == b.threads[tid].call
    requires a'.threads == a.threads || (tid in a'.threads && a'.threads == a.threads[tid := a'.threads[tid]])
    requires WaitsAre(b', waits')
    ensures Coupled(a', b', waits') <==>
      a'.store == InMemoryOf(AheadOf(b', waits')) && OutsideAlike(a', b') && ThreadCoupled(a', b', tid)
  {
    forall t | t in b.threads && t != tid
      ensures ThreadCoupled(a', b', t)
    {
      assert ThreadCoupled(a, b, t);
    }
  }

  /** Only the database, and the call over it, move. */
  lemma WatchesExactly(a: Sys, b: Sys, waits: seq<nat>, tid: nat, y: Thread, b': Sys, waits': seq<nat>)
    requires Coupled(a, b, waits) && tid in b.threads && tid in a.threads && WaitsAre(b', waits')
    requires b'.threads == b.threads[tid := y] && y.call == b.threads[tid].call && b'.store.kind.Postgres?
    requires b'.clock == b.clock && b'.published == b.published && b'.notified == b.notified
    requires ThreadAlike(a.threads[tid], y) && !NotYet(y)
    ensures Coupled(a, b', waits') <==> AheadOf(b', waits') == AheadOf(b, waits)
  {
    CoupledThread(a, b, waits, tid);
    MovesExactly(a, b, waits, tid, a, b', waits');
    AheadAlike(b.store, Ops(b, waits));
    AheadAlike(b'.store, Ops(b', waits'));
    SameContent(AheadOf(b', waits'), AheadOf(b, waits));
  }

  lemma SameContent(s: Store, t: Store)
    requires s.kind == t.kind
    ensures InMemoryOf(s) == InMemoryOf(t) <==> s == t
  {
  }

  lemma CoupledThread(a: Sys, b: Sys, waits: seq<nat>, tid: nat)
    requires Coupled(a, b, waits) && tid in b.threads
    ensures GoodCall(b.threads[tid].call)
    ensures NotYet(b.threads[tid]) ==> tid !in a.threads
    ensures !NotYet(b.threads[tid]) ==> tid in a.threads && ThreadAlike(a.threads[tid], b.threads[tid])
  {
    assert ThreadCoupled(a, b, tid);
  }

  // What holds of the database holds of it with the deletions that wait applied.

  lemma AheadKeeps(b: Sys, waits: seq<nat>)
    requires Inv(b)
    ensures Alike(b.store, AheadOf(b, waits)) && WellFormed(AheadOf(b, waits))
    ensures Keeps(b.store.convs, AheadOf(b, waits).convs) && Appends(b.store.msgs, AheadOf(b, waits).msgs)
    ensures Keys(b.store.msgs) == Keys(AheadOf(b, waits).msgs)
  {
    AheadAlike(b.store, Ops(b, waits));
    AlikeKeeps(b.store, AheadOf(b, waits));
  }

  lemma AheadOk(b: Sys, waits: seq<nat>, tid: nat)
    requires Inv(b) && tid in b.threads
    ensures ThreadOk(AheadOf(b, waits), b.grants, tid, b.threads[tid])
  {
    AheadKeeps(b, waits);
    assert ThreadOk(b.store, b.grants, tid, b.threads[tid]);
    ThreadKeeps(b.store, AheadOf(b, waits), b.grants, b.grants, tid, b.threads[tid]);
  }

  // One operation: what the database and the in-memory stores, ahead of it, do with it.

  /** What waits is about what is there. */
  ghost predicate OpsOk(s: Store, ops: seq<Op>) {
    forall i :: 0 <= i < |ops| ==>
      && (ops[i].MarkParticipant? ==> Find(s.convs, ops[i].cid).Some?)
      && (ops[i].SoftDelete? ==> FindById(s.msgs, ops[i].mid).Some?)
  }

  lemma WaitingOpOk(s: Store, grants: set<nat>, tid: nat, call: Call, op: Op, k: Cont)
    requires WaitingOk(s, grants, tid, call, op, k)
    ensures op.MarkParticipant? ==> Find(s.convs, op.cid).Some?
    ensures op.SoftDelete? ==> FindById(s.msgs, op.mid).Some?
  {
  }

  lemma OpsAreOk(b: Sys, waits: seq<nat>)
    requires Inv(b) && WaitsAre(b, waits)
    ensures OpsOk(b.store, Ops(b, waits))
  {
    forall i | 0 <= i < |waits|
      ensures Ops(b, waits)[i].MarkParticipant? ==> Find(b.store.convs, Ops(b, waits)[i].cid).Some?
      ensures Ops(b, waits)[i].SoftDelete? ==> FindById(b.store.msgs, Ops(b, waits)[i].mid).Some?
    {
      var tid := waits[i];
      assert tid in waits;
      assert ThreadOk(b.store, b.grants, tid, b.threads[tid]);
      WaitingOpOk(b.store, b.grants, tid, b.threads[tid].call, b.threads[tid].op, b.threads[tid].k);
    }
  }

  lemma FoundAlike(s: Store, t: Store, cid: string, env: Env, s': Store, ans: Answer)
    requires s.kind.Postgres? && Alike(s, t) && Agreeable(s) && Exec(s, FindConversation(cid), env, s', ans)
    ensures s' == s && AnswerAlike(FoundConversation(Find(t.convs, cid)), ans)
  {
    AlikeFinds(s.convs, t.convs, cid);
  }

  lemma AllAlike(s: Store, t: Store, user: string, env: Env, s': Store, ans: Answer)
    requires s.kind.Postgres? && Alike(s, t) && Agreeable(s) && Exec(s, FindByParticipant(user), env, s', ans)
    ensures s' == s && AnswerAlike(FoundConversations(Concerning(t.convs, user)), ans)
  {
    ConcerningFacts(s.convs, user);
    OrderedUnique(Concerning(s.convs, user), ans.list);
    AlikeConcerning(s.convs, t.convs, user);
    forall i | 0 <= i < |ans.list|
      ensures Concerning(t.convs, user)[i].id == ans.list[i].id
    {
      assert Same(Concerning(s.convs, user)[i], ans.list[i]);
      assert SameMembers(Concerning(s.convs, user)[i], Concerning(t.convs, user)[i]);
    }
  }

  lemma MessageAlike(s: Store, t: Store, mid: string)
    requires Alike(s, t)
    ensures AnswerAlike(FoundMessage(FindById(t.msgs, mid)), FoundMessage(FindById(s.msgs, mid)))
  {
    AlikeFindsMessage(s.msgs, t.msgs, mid);
  }

  lemma KeysAreIds(a: seq<Message>, b: seq<Message>)
    requires Keys(a) == Keys(b)
    ensures SameMessageIds(a, b)
  {
    assert |a| == |Keys(a)| == |b|;
    forall i | 0 <= i < |a|
      ensures a[i].id == b[i].id
    {
      assert Keys(a)[i].id == Keys(b)[i].id;
    }
  }

  /** Two pages of one log name the same messages only if they are the same. */
  lemma IdsAreMessages(ms: seq<Message>, page: seq<Message>, page': seq<Message>)
    requires DistinctIds(ms) && SameMessageIds(page, page')
    requires forall m :: (m in page || m in page') ==> m in ms
    ensures page == page'
  {
    forall i | 0 <= i < |page|
      ensures page[i] == page'[i]
    {
      assert page[i] in page && page'[i] in page';
      var j :| 0 <= j < |ms| && ms[j] == page[i];
      var k :| 0 <= k < |ms| && ms[k] == page'[i];
    }
  }

  lemma PageExactly(s: Store, t: Store, cid: string, o: ListOptions, now: ListOptions, env: Env, s': Store, ans: Answer)
    requires s.kind.Postgres? && Alike(s, t) && Agreeable(s) && Exec(s, ListMessages(cid, o), env, s', ans)
    requires o.limit.Some? && 1 <= o.limit.value <= MAX_LIMIT
    ensures s' == s
    ensures AnswerAlike(FoundMessages(ListInMemory(t.msgs, cid, now)), ans) <==>
      ListInMemory(t.msgs, cid, o) == ListInMemory(t.msgs, cid, now)
  {
    AlikeMessages(s, t);
    PageNamed(s.msgs, t.msgs, cid, o, ans.page);
    SameIdsTrans(ListInMemory(t.msgs, cid, now), ListInMemory(t.msgs, cid, o), ans.page);
    ListingsExactly(t.msgs, cid, o, now);
  }

  lemma AlikeMessages(s: Store, t: Store)
    requires Alike(s, t) && WellFormed(s)
    ensures DistinctIds(t.msgs) && Keys(s.msgs) == Keys(t.msgs)
  {
    AlikeKeeps(s, t);
  }

  lemma PageNamed(ms: seq<Message>, ms': seq<Message>, cid: string, o: ListOptions, page: seq<Message>)
    requires DistinctInstants(ms) && Lists(Postgres, ms, cid, o, page) && Keys(ms) == Keys(ms')
    requires o.limit.Some? && 1 <= o.limit.value <= MAX_LIMIT
    ensures SameMessageIds(page, ListInMemory(ms', cid, o))
  {
    ListsOne(Postgres, ms, cid, o, page);
    SameKeysSameList(ms, ms', cid, o);
    KeysAreIds(page, ListInMemory(ms', cid, o));
  }

  lemma SameIdsTrans(a: seq<Message>, b: seq<Message>, c: seq<Message>)
    requires SameMessageIds(c, b)
    ensures SameMessageIds(a, c) <==> SameMessageIds(a, b)
  {
    assert forall i :: 0 <= i < |c| ==> c[i].id == b[i].id;
  }

  lemma ListingsExactly(ms: seq<Message>, cid: string, o: ListOptions, now: ListOptions)
    requires DistinctIds(ms)
    ensures SameMessageIds(ListInMemory(ms, cid, now), ListInMemory(ms, cid, o)) <==>
      ListInMemory(ms, cid, o) == ListInMemory(ms, cid, now)
  {
    var asked, listed := ListInMemory(ms, cid, o), ListInMemory(ms, cid, now);
    if SameMessageIds(listed, asked) {
      forall m | m in asked || m in listed
        ensures m in ms
      {
        if m in asked {
          ListsStored(InMemory, ms, cid, o, asked, m);
        } else {
          ListsStored(InMemory, ms, cid, now, listed, m);
        }
      }
      IdsAreMessages(ms, asked, listed);
    }
  }

  /** What is written that waits for nobody is written in both. */
  lemma WriteAhead(s: Store, ops: seq<Op>, op: Op, env: Env, s': Store, ans: Answer)
    requires s.kind.Postgres? && Exec(s, op, env, s', ans) && OpsOk(s, ops)
    requires forall i :: 0 <= i < |ops| ==> IsDated(ops[i])
    requires op.CreateConversation? || op.CreateMessage? || (op.MarkParticipant? && op.mark.Read?)
    requires op.CreateConversation? ==> NoDuplicates(op.pids)
    requires op.CreateMessage? ==> Find(s.convs, op.cid).Some?
    ensures var r := InMemoryExec(InMemoryOf(Ahead(s, ops)), op, env);
      r.store == InMemoryOf(Ahead(s', ops)) && AnswerAlike(r.ans, ans)
      && Exec(InMemoryOf(Ahead(s, ops)), op, env, r.store, r.ans)
  {
    AheadAlike(s, ops);
    var t := Ahead(s, ops);
    if op.CreateConversation? {
      AlikeFinds(s.convs, t.convs, env.id);
      AheadCreates(s, ops, ans.conversation);
    } else if op.CreateMessage? {
      AlikeFindsMessage(s.msgs, t.msgs, env.id);
      AheadSends(s, ops, ans.stored);
    } else {
      AheadCommutes(s, ops, op);
      assert s' == Write(s, op);
    }
  }

  // Executing.

  /** Step l executes operation `op` of thread `tid` with answer `ans`. */
  ghost predicate Executes(b: Sys, tid: nat, id: string, gate: bool, ans: Answer, b': Sys) {
    && tid in b.threads && b.threads[tid].Waiting?
    && Exec(b.store, b.threads[tid].op, Env(id, b.clock, gate), b'.store, ans)
    && b' == Executed(b, tid, b'.store, ans)
  }

  /** Thread `tid` holds `ans` in memory, and nothing else moves there. */
  function Holds(a: Sys, tid: nat, call: Call, ans: Answer, k: Cont): map<nat, Thread> {
    a.threads[tid := Holding(call, ans, k)]
  }

  /** The database answers, and memory has answered alike and come to the same content. */
  lemma AnsweredExactly(a: Sys, b: Sys, waits: seq<nat>, tid: nat, id: string, gate: bool, ans: Answer, b': Sys,
      a': Sys, k: Cont, mine: Answer)
    requires Coupled(a, b, waits) && Executes(b, tid, id, gate, ans, b') && !Deleting(b.threads[tid])
    requires !ans.NotUpdated? && !ans.FoundPreview? && ContSim(k, b.threads[tid].k)
    requires a'.threads == Holds(a, tid, b.threads[tid].call, mine, k)
    requires a'.clock == a.clock && a'.published == a.published && a'.notified == a.notified
    requires a'.store == InMemoryOf(Ahead(b'.store, Ops(b, waits)))
    ensures Coupled(a', b', waits) <==> AnswerAlike(mine, ans)
  {
    CoupledThread(a, b, waits, tid);
    QuietExecute(b, waits, tid, id, gate, ans, b');
    KindStays(b, tid, id, gate, ans, b');
    MovesExactly(a, b, waits, tid, a', b', waits);
  }

  lemma KindStays(b: Sys, tid: nat, id: string, gate: bool, ans: Answer, b': Sys)
    requires Executes(b, tid, id, gate, ans, b')
    ensures b'.store.kind == b.store.kind
  {
  }

  /** A call that has just asked in memory is answered. */
  lemma ThenAnswered(a: Sys, b: Sys, waits: seq<nat>, tid: nat, id: string, gate: bool, ans: Answer, b': Sys,
      a1: Sys, op: Op, k: Cont)
    requires Coupled(a, b, waits) && Executes(b, tid, id, gate, ans, b') && !Deleting(b.threads[tid])
    requires !ans.NotUpdated? && !ans.FoundPreview? && ContSim(k, b.threads[tid].k)
    requires a1 == a.(threads := a.threads[tid := Waiting(b.threads[tid].call, op, k)])
    requires var r := InMemoryExec(a.store, op, Env(id, b.clock, gate));
      && r.store == InMemoryOf(Ahead(b'.store, Ops(b, waits)))
      && Exec(a.store, op, Env(id, b.clock, gate), r.store, r.ans)
    ensures Next(a1, Execute(tid, id, gate), ExecutedNow(a1, tid, id, gate))
    ensures Coupled(ExecutedNow(a1, tid, id, gate), b', waits) <==>
      AnswerAlike(InMemoryExec(a.store, op, Env(id, b.clock, gate)).ans, ans)
  {
    var r := InMemoryExec(a.store, op, Env(id, b.clock, gate));
    var a' := ExecutedNow(a1, tid, id, gate);
    assert a' == Executed(a1, tid, r.store, r.ans) && a'.store == r.store;
    assert Exec(a1.store, a1.threads[tid].op, Env(id, a1.clock, gate), a'.store, r.ans);
    AnsweredExactly(a, b, waits, tid, id, gate, ans, b', ExecutedNow(a1, tid, id, gate), k, r.ans);
  }

  lemma GateStep(a: Sys, b: Sys, waits: seq<nat>, tid: nat, id: string, gate: bool, ans: Answer, b': Sys)
    requires Coupled(a, b, waits) && Executes(b, tid, id, gate, ans, b') && b.threads[tid].op.AskGate?
    ensures tid in a.threads && Next(a, Execute(tid, id, gate), ExecutedNow(a, tid, id, gate))
    ensures Coupled(ExecutedNow(a, tid, id, gate), b', waits)
  {
    CoupledThread(a, b, waits, tid);
    var x := a.threads[tid];
    assert Exec(a.store, x.op, Env(id, a.clock, gate), a.store, GateSays(gate));
    AnsweredExactly(a, b, waits, tid, id, gate, ans, b', ExecutedNow(a, tid, id, gate), x.k, GateSays(gate));
  }

  lemma OpensCall(s: Store, grants: set<nat>, tid: nat, call: Call, op: Op, k: Cont)
    requires WaitingOk(s, grants, tid, call, op, k) && Opens(op) && GoodCall(call)
    ensures Start(call) == Asking(op, k) && ContSim(k, k)
  {
  }

  lemma OpenAlike(s: Store, t: Store, op: Op, env: Env, s': Store, ans: Answer)
    requires s.kind.Postgres? && Alike(s, t) && Agreeable(s) && Opens(op) && Exec(s, op, env, s', ans)
    ensures var r := InMemoryExec(InMemoryOf(t), op, env);
      s' == s && r.store == InMemoryOf(t) && AnswerAlike(r.ans, ans) && Exec(InMemoryOf(t), op, env, r.store, r.ans)
  {
    if op.FindConversation? {
      FoundAlike(s, t, op.cid, env, s', ans);
    } else {
      AllAlike(s, t, op.user, env, s', ans);
    }
  }

  /** A call begins in memory when the database executes its first operation. */
  lemma OpenStep(a: Sys, b: Sys, waits: seq<nat>, tid: nat, id: string, gate: bool, ans: Answer, b': Sys)
    requires Coupled(a, b, waits) && Inv(b) && Agreeable(b.store) && Executes(b, tid, id, gate, ans, b')
    requires Opens(b.threads[tid].op)
    ensures var call := b.threads[tid].call;
      var a1 := Begun(a, tid, call);
      && Next(a, Begin(tid, call), a1) && tid in a1.threads && a1.threads[tid].Waiting?
      && Next(a1, Execute(tid, id, gate), ExecutedNow(a1, tid, id, gate))
      && Coupled(ExecutedNow(a1, tid, id, gate), b', waits)
  {
    CoupledThread(a, b, waits, tid);
    var y, env := b.threads[tid], Env(id, b.clock, gate);
    BeginsAsking(a, b, waits, tid);
    AheadKeeps(b, waits);
    OpenAlike(b.store, AheadOf(b, waits), y.op, env, b'.store, ans);
    ThenAnswered(a, b, waits, tid, id, gate, ans, b', Begun(a, tid, y.call), y.op, y.k);
  }

  lemma BeginsAsking(a: Sys, b: Sys, waits: seq<nat>, tid: nat)
    requires Coupled(a, b, waits) && Inv(b) && tid in b.threads && b.threads[tid].Waiting? && Opens(b.threads[tid].op)
    ensures var y := b.threads[tid];
      && Next(a, Begin(tid, y.call), Begun(a, tid, y.call)) && ContSim(y.k, y.k)
      && Begun(a, tid, y.call) == a.(threads := a.threads[tid := Waiting(y.call, y.op, y.k)])
  {
    CoupledThread(a, b, waits, tid);
    var y := b.threads[tid];
    assert ThreadOk(b.store, b.grants, tid, y);
    OpensCall(b.store, b.grants, tid, y.call, y.op, y.k);
  }

  /** A deletion executes over Postgres; in memory it has long been. */
  lemma DatedStep(a: Sys, b: Sys, waits: seq<nat>, tid: nat, id: string, gate: bool, ans: Answer, b': Sys)
    requires Coupled(a, b, waits) && Inv(b) && Executes(b, tid, id, gate, ans, b') && Deleting(b.threads[tid])
    ensures var waits' := WaitsAfter(b, waits, Execute(tid, id, gate), b');
      Coupled(a, b', waits') <==> Fits(b, waits, Execute(tid, id, gate))
  {
    CoupledThread(a, b, waits, tid);
    var y := b.threads[tid];
    DatedFits(b, waits, tid, id, gate, ans, b');
    assert ThreadOk(b.store, b.grants, tid, y);
    DatedAlike(b.store, b.grants, tid, y.call, y.op, y.k, Env(id, b.clock, gate), b'.store, ans, a.threads[tid]);
    DatedExecutes(b, waits, tid, id, gate, ans, b');
    WatchesExactly(a, b, waits, tid, Holding(y.call, ans, y.k), b', Removed(waits, tid));
  }

  lemma DatedExecutes(b: Sys, waits: seq<nat>, tid: nat, id: string, gate: bool, ans: Answer, b': Sys)
    requires WaitsAre(b, waits) && Executes(b, tid, id, gate, ans, b') && Deleting(b.threads[tid])
    ensures b'.threads == b.threads[tid := Holding(b.threads[tid].call, ans, b.threads[tid].k)]
    ensures WaitsAfter(b, waits, Execute(tid, id, gate), b') == Removed(waits, tid) && WaitsAre(b', Removed(waits, tid))
    ensures b'.clock == b.clock && b'.published == b.published && b'.notified == b.notified
    ensures b'.store.kind == b.store.kind
  {
    RemovedIs(waits, tid);
  }

  lemma RemovedAt(waits: seq<nat>, tid: nat, k: nat)
    requires EachOnce(waits) && k < |waits| && waits[k] == tid
    ensures Removed(waits, tid) == Without(waits, k)
  {
    if waits[0] != tid {
      assert waits[1..][k - 1] == tid;
      RemovedAt(waits[1..], tid, k - 1);
      assert Without(waits, k) == [waits[0]] + Without(waits[1..], k - 1);
    }
  }

  lemma DatedWrites(s: Store, op: Op, env: Env, s': Store, ans: Answer)
    requires Exec(s, op, env, s', ans) && IsDated(op) && DistinctIds(s.msgs)
    ensures s' == Write(s, op)
  {
    if op.SoftDelete? {
      forall i | 0 <= i < |s.msgs| && s'.msgs == s.msgs
        ensures Tombstoned(s.msgs, op.mid, op.at)[i] == s.msgs[i]
      {
        FindByIdUnique(s.msgs, i);
      }
    }
  }

  /** A deletion that executes leaves the database, with all that wait applied, as it was, exactly if it is in order. */
  lemma DatedFits(b: Sys, waits: seq<nat>, tid: nat, id: string, gate: bool, ans: Answer, b': Sys)
    requires Inv(b) && WaitsAre(b, waits) && Executes(b, tid, id, gate, ans, b') && Deleting(b.threads[tid])
    ensures AheadOf(b', Removed(waits, tid)) == AheadOf(b, waits) <==> Fits(b, waits, Execute(tid, id, gate))
  {
    var k :| 0 <= k < |waits| && waits[k] == tid;
    DatedWrites(b.store, b.threads[tid].op, Env(id, b.clock, gate), b'.store, ans);
    OpsWithout(b, waits, tid, k, b');
    OrderExactly(b, waits, tid, k);
    FitsDated(b, waits, tid, id, gate, k);
  }

  lemma OpsWithout(b: Sys, waits: seq<nat>, tid: nat, k: nat, b': Sys)
    requires EachOnce(waits) && k < |waits| && waits[k] == tid && tid in b'.threads
    requires b'.threads == b.threads[tid := b'.threads[tid]]
    ensures Ops(b', Removed(waits, tid)) == Without(Ops(b, waits), k)
  {
    RemovedAt(waits, tid, k);
    RemovedIs(waits, tid);
    OpsSame(b, b', Removed(waits, tid));
    WithoutMaps(b, waits, k);
  }

  lemma WithoutMaps(b: Sys, waits: seq<nat>, k: nat)
    requires k < |waits|
    ensures Ops(b, Without(waits, k)) == Without(Ops(b, waits), k)
  {
    var ops := Ops(b, waits);
    forall i | 0 <= i < |waits| - 1
      ensures Ops(b, Without(waits, k))[i] == Without(ops, k)[i]
    {
      var j := if i < k then i else i + 1;
      assert Without(waits, k)[i] == waits[j] && Without(ops, k)[i] == ops[j];
    }
  }

  lemma FitsDated(b: Sys, waits: seq<nat>, tid: nat, id: string, gate: bool, k: nat)
    requires WaitsAre(b, waits) && tid in b.threads && Deleting(b.threads[tid]) && k < |waits| && waits[k] == tid
    ensures IsDated(Ops(b, waits)[k])
    ensures Fits(b, waits, Execute(tid, id, gate)) <==> InOrder(b.store, Ops(b, waits), k)
  {
  }

  lemma OrderExactly(b: Sys, waits: seq<nat>, tid: nat, k: nat)
    requires Inv(b) && WaitsAre(b, waits) && tid in b.threads && Deleting(b.threads[tid])
    requires k < |waits| && waits[k] == tid
    ensures IsDated(Ops(b, waits)[k])
    ensures var ops := Ops(b, waits);
      Ahead(Write(b.store, ops[k]), Without(ops, k)) == Ahead(b.store, ops) <==> InOrder(b.store, ops, k)
  {
    var op, ops := b.threads[tid].op, Ops(b, waits);
    OpsAreDated(b, waits);
    OpsAreOk(b, waits);
    if op.MarkParticipant? {
      assert ThreadOk(b.store, b.grants, tid, b.threads[tid]);
      DeletionOk(b.store, b.grants, tid, b.threads[tid].call, op, b.threads[tid].k);
      ClearExactly(b.store, ops, k);
    } else {
      DeletionExactly(b.store, ops, k);
    }
  }

  lemma DeletionOk(s: Store, grants: set<nat>, tid: nat, call: Call, op: Op, k: Cont)
    requires WaitingOk(s, grants, tid, call, op, k) && op.MarkParticipant?
    ensures exists i :: 0 <= i < |s.convs| && s.convs[i].id == op.cid && IsParticipant(s.convs[i], op.user)
  {
  }

  lemma DatedAlike(s: Store, grants: set<nat>, tid: nat, call: Call, op: Op, k: Cont, env: Env, s': Store, ans: Answer,
      x: Thread)
    requires WellFormed(s) && WaitingOk(s, grants, tid, call, op, k) && Exec(s, op, env, s', ans) && s.kind.Postgres?
    requires IsDated(op) && x.call == call && ExecutedAhead(x, k, op)
    ensures ThreadAlike(x, Holding(call, ans, k))
  {
    if op.SoftDelete? {
      TombstoneIsLogged(s, call.cid, call.mid, call.user, op, env, s', ans);
    }
  }

  /** The second statement of a deletion, and the query for a preview, change nothing; in memory the one has been and
      the other comes later. */
  lemma StillStep(a: Sys, b: Sys, waits: seq<nat>, tid: nat, id: string, gate: bool, ans: Answer, b': Sys)
    requires Coupled(a, b, waits) && Inv(b) && Executes(b, tid, id, gate, ans, b')
    requires b.threads[tid].op.SelectDeleted? || b.threads[tid].op.QueryPreviews?
    ensures Coupled(a, b', waits)
  {
    CoupledThread(a, b, waits, tid);
    var y := b.threads[tid];
    assert ThreadOk(b.store, b.grants, tid, y);
    StillAlike(b.store, b.grants, tid, y.call, y.op, y.k, Env(id, b.clock, gate), b'.store, ans, a.threads[tid]);
    QuietExecute(b, waits, tid, id, gate, ans, b');
    WatchesExactly(a, b, waits, tid, Holding(y.call, ans, y.k), b', waits);
  }

  /** What executes that is no deletion leaves those that wait. */
  lemma QuietExecute(b: Sys, waits: seq<nat>, tid: nat, id: string, gate: bool, ans: Answer, b': Sys)
    requires WaitsAre(b, waits) && Executes(b, tid, id, gate, ans, b') && !Deleting(b.threads[tid])
    ensures b'.threads == b.threads[tid := Holding(b.threads[tid].call, ans, b.threads[tid].k)]
    ensures WaitsAre(b', waits) && Ops(b', waits) == Ops(b, waits)
    ensures b'.clock == b.clock && b'.published == b.published && b'.notified == b.notified
  {
    OpsStay(b, waits, tid, b');
  }

  lemma StillAlike(s: Store, grants: set<nat>, tid: nat, call: Call, op: Op, k: Cont, env: Env, s': Store, ans: Answer,
      x: Thread)
    requires WellFormed(s) && WaitingOk(s, grants, tid, call, op, k) && Exec(s, op, env, s', ans)
    requires op.SelectDeleted? || op.QueryPreviews?
    requires ThreadAlike(x, Waiting(call, op, k))
    ensures s' == s && ThreadAlike(x, Holding(call, ans, k))
  {
    if op.SelectDeleted? {
      TombstoneIsLogged(s, call.cid, call.mid, call.user, op, env, s', ans);
    }
  }

  // What memory has yet to ask for.

  predicate Later(op: Op) {
    !op.AskGate? && !Opens(op) && !IsDated(op) && !op.SelectDeleted? && !op.QueryPreviews?
  }

  /** What the in-memory call asks for when it asks now. */
  function AskedNow(s: Store, call: Call, op: Op): Op {
    if op.ListMessages? && call.List? && Find(s.convs, call.cid).Some? then
      ListMessages(call.cid, Bounded(call.o, ClearedAt(Find(s.convs, call.cid).value, call.user)))
    else op
  }

  lemma MemberFound(s: Store, cid: string, user: string)
    requires WellFormed(s) && Member(s.convs, cid, user)
    ensures Find(s.convs, cid).Some? && IsParticipant(Find(s.convs, cid).value, user)
  {
    var i :| 0 <= i < |s.convs| && s.convs[i].id == cid && user in UserIds(s.convs[i].participants);
    SameId(s.convs, s.convs[i], Find(s.convs, cid).value);
  }

  lemma LookupAsks(s: Store, grants: set<nat>, tid: nat, call: Call, op: Op, k: Cont, x: Thread, now: int)
    requires WellFormed(s) && WaitingOk(s, grants, tid, call, op, k) && Later(op)
    requires x.Holding? && Postponed(x, call, k) && (call.List? || call.DeleteMessage? || call.MarkRead?)
    ensures Resume(x.k, Refresh(InMemoryOf(s), x.ans), now) == Go(Asking(AskedNow(s, call, op), k))
  {
    MemberFound(s, call.cid, call.user);
    var c := Find(s.convs, call.cid).value;
    assert Denied(Some(c), call.cid, call.user) == None;
    assert Refresh(InMemoryOf(s), x.ans) == FoundConversation(Some(c));
    assert Resume(x.k, FoundConversation(Some(c)), now) == AfterLookup(x.k, Some(c), now);
  }

  lemma GateAsks(s: Store, grants: set<nat>, tid: nat, call: Call, op: Op, k: Cont, x: Thread, now: int)
    returns (kx: Cont)
    requires WaitingOk(s, grants, tid, call, op, k) && Later(op)
    requires x.Holding? && Postponed(x, call, k) && (call.Create? || call.Send?)
    ensures ContSim(kx, k) && Resume(x.k, Refresh(InMemoryOf(s), x.ans), now) == Go(Asking(AskedNow(s, call, op), kx))
  {
    kx := if call.Create? then CreateWritten else SendWritten(x.k.pids, call.user);
  }

  lemma AsksNow(s: Store, grants: set<nat>, tid: nat, call: Call, op: Op, k: Cont, x: Thread, now: int)
    returns (kx: Cont)
    requires WellFormed(s) && WaitingOk(s, grants, tid, call, op, k) && Later(op) && x.Holding? && Postponed(x, call, k)
    ensures ContSim(kx, k) && Resume(x.k, Refresh(InMemoryOf(s), x.ans), now) == Go(Asking(AskedNow(s, call, op), kx))
  {
    if call.Create? || call.Send? {
      kx := GateAsks(s, grants, tid, call, op, k, x, now);
    } else {
      LookupAsks(s, grants, tid, call, op, k, x, now);
      kx := k;
    }
  }

  /** The in-memory thread asks for it. */
  lemma ContinuesAsking(a: Sys, b: Sys, waits: seq<nat>, tid: nat) returns (kx: Cont)
    requires Coupled(a, b, waits) && Inv(b) && tid in b.threads && b.threads[tid].Waiting? && Later(b.threads[tid].op)
    ensures tid in a.threads && ContSim(kx, b.threads[tid].k)
    ensures Next(a, Continue(tid), ContinuedNow(a, tid))
    ensures var y := b.threads[tid];
      ContinuedNow(a, tid) ==
        a.(threads := a.threads[tid := Waiting(y.call, AskedNow(AheadOf(b, waits), y.call, y.op), kx)])
  {
    CoupledThread(a, b, waits, tid);
    AheadKeeps(b, waits);
    AheadOk(b, waits, tid);
    var x, y := a.threads[tid], b.threads[tid];
    kx := AsksNow(AheadOf(b, waits), b.grants, tid, y.call, y.op, y.k, x, a.clock);
    assert !x.k.PreviewsRead?;
    assert a.published + Posts(tid, []) == a.published && a.notified + Pushes(tid, []) == a.notified;
  }

  lemma LaterAllowed(s: Store, grants: set<nat>, tid: nat, call: Call, op: Op, k: Cont)
    requires WaitingOk(s, grants, tid, call, op, k) && GoodCall(call)
    ensures op.CreateConversation? ==> NoDuplicates(op.pids)
    ensures op.CreateMessage? ==> Find(s.convs, op.cid).Some?
    ensures op.ListMessages? ==>
      && call.List? && op.cid == call.cid && Member(s.convs, call.cid, call.user)
      && op.o.limit.Some? && 1 <= op.o.limit.value <= MAX_LIMIT
  {
  }

  lemma LaterAlike(s: Store, ops: seq<Op>, op: Op, env: Env, s': Store, ans: Answer)
    requires s.kind.Postgres? && Exec(s, op, env, s', ans) && OpsOk(s, ops)
    requires forall i :: 0 <= i < |ops| ==> IsDated(ops[i])
    requires Later(op) && !op.ListMessages?
    requires op.CreateConversation? ==> NoDuplicates(op.pids)
    requires op.CreateMessage? ==> Find(s.convs, op.cid).Some?
    ensures var r := InMemoryExec(InMemoryOf(Ahead(s, ops)), op, env);
      r.store == InMemoryOf(Ahead(s', ops)) && AnswerAlike(r.ans, ans)
      && Exec(InMemoryOf(Ahead(s, ops)), op, env, r.store, r.ans)
  {
    if op.FindMessage? {
      AheadAlike(s, ops);
      MessageAlike(s, Ahead(s, ops), op.mid);
    } else {
      WriteAhead(s, ops, op, env, s', ans);
    }
  }

  lemma OpsAreDated(b: Sys, waits: seq<nat>)
    requires WaitsAre(b, waits)
    ensures forall i :: 0 <= i < |waits| ==> IsDated(Ops(b, waits)[i])
  {
    forall i | 0 <= i < |waits|
      ensures IsDated(Ops(b, waits)[i])
    {
      assert waits[i] in waits;
    }
  }

  /** A call asks in memory when the database executes what it waits for. */
  lemma LaterStep(a: Sys, b: Sys, waits: seq<nat>, tid: nat, id: string, gate: bool, ans: Answer, b': Sys)
    requires Coupled(a, b, waits) && Inv(b) && Agreeable(b.store) && Executes(b, tid, id, gate, ans, b')
    requires Later(b.threads[tid].op)
    ensures var a1 := ContinuedNow(a, tid);
      && tid in a.threads && Next(a, Continue(tid), a1)
      && tid in a1.threads && a1.threads[tid].Waiting?
      && Next(a1, Execute(tid, id, gate), ExecutedNow(a1, tid, id, gate))
      && (Coupled(ExecutedNow(a1, tid, id, gate), b', waits) <==> Fits(b, waits, Execute(tid, id, gate)))
  {
    var y, env := b.threads[tid], Env(id, b.clock, gate);
    CoupledThread(a, b, waits, tid);
    var kx := ContinuesAsking(a, b, waits, tid);
    assert ThreadOk(b.store, b.grants, tid, y);
    LaterAllowed(b.store, b.grants, tid, y.call, y.op, y.k);
    var op := AskedNow(AheadOf(b, waits), y.call, y.op);
    if y.op.ListMessages? {
      ListLater(a, b, waits, tid, env, b', ans);
    } else {
      OpsAreOk(b, waits);
      OpsAreDated(b, waits);
      LaterAlike(b.store, Ops(b, waits), y.op, env, b'.store, ans);
    }
    FitsLater(b, waits, tid, id, gate);
    NotSpecial(y.op, env, b.store, b'.store, ans);
    ThenAnswered(a, b, waits, tid, id, gate, ans, b', ContinuedNow(a, tid), op, kx);
  }

  lemma NotSpecial(op: Op, env: Env, s: Store, s': Store, ans: Answer)
    requires Exec(s, op, env, s', ans) && Later(op)
    ensures !ans.NotUpdated? && !ans.FoundPreview?
  {
  }

  lemma FitsLater(b: Sys, waits: seq<nat>, tid: nat, id: string, gate: bool)
    requires WaitsAre(b, waits) && tid in b.threads && b.threads[tid].Waiting? && Later(b.threads[tid].op)
    ensures var y := b.threads[tid];
      Fits(b, waits, Execute(tid, id, gate)) <==>
        (y.op.ListMessages? ==> ListsAsAsked(AheadOf(b, waits), y.call, y.op))
  {
  }

  lemma ListLater(a: Sys, b: Sys, waits: seq<nat>, tid: nat, env: Env, b': Sys, ans: Answer)
    requires Coupled(a, b, waits) && Inv(b) && Agreeable(b.store) && tid in b.threads && b.threads[tid].Waiting?
    requires b.threads[tid].op.ListMessages? && Exec(b.store, b.threads[tid].op, env, b'.store, ans)
    ensures var s, y := AheadOf(b, waits), b.threads[tid];
      var op := AskedNow(s, y.call, y.op);
      var r := InMemoryExec(a.store, op, env);
      && b'.store == b.store && op.ListMessages?
      && r == Result(a.store, FoundMessages(ListInMemory(s.msgs, op.cid, op.o)))
      && Exec(a.store, op, env, r.store, r.ans)
      && (AnswerAlike(r.ans, ans) <==> ListsAsAsked(s, y.call, y.op))
  {
    CoupledThread(a, b, waits, tid);
    var s, y := AheadOf(b, waits), b.threads[tid];
    AheadKeeps(b, waits);
    AheadOk(b, waits, tid);
    LaterAllowed(s, b.grants, tid, y.call, y.op, y.k);
    MemberFound(s, y.call.cid, y.call.user);
    PageExactly(b.store, s, y.op.cid, y.op.o, AskedNow(s, y.call, y.op).o, env, b'.store, ans);
  }

  // Continuing.

  /** The call over Postgres goes on to wait for something that memory asks for later, or has had executed. */
  lemma PostponesAlike(s: Store, grants: set<nat>, tid: nat, x: Thread, y: Thread, now: int)
    requires WellFormed(s) && y.Holding? && HoldingOk(s, grants, tid, y.call, y.ans, y.k) && ThreadAlike(x, y)
    requires Postpones(Resume(y.k, y.ans, now).phase)
    ensures var u := Resume(y.k, y.ans, now);
      u.published == [] && u.notified == [] && ThreadAlike(x, AsThread(y.call, u.phase))
      && !NotYet(AsThread(y.call, u.phase))
  {
    if y.ans.FoundConversations? {
      UnreadAtFirst(x, y.k.user, y.ans.list);
    } else if y.ans.FoundPreview? {
      UnreadStill(x, y.k.user, y.k.entries, y.ans.i, y.ans.page);
    }
  }

  lemma UnreadAtFirst(x: Thread, user: string, list: seq<Conversation>)
    requires x.Holding? && x.k == AllForPreviews(user) && x.ans.FoundConversations?
    requires SameConversationIds(x.ans.list, list)
    ensures Unread(x, user, Entries(user, list))
  {
  }

  lemma UnreadStill(x: Thread, user: string, es: seq<Entry>, i: nat, page: seq<Message>)
    requires Unread(x, user, es) && i < |es|
    ensures Unread(x, user, WithAnswer(es, i, page))
  {
  }

  lemma PostponeStep(a: Sys, b: Sys, waits: seq<nat>, tid: nat)
    requires Coupled(a, b, waits) && Inv(b) && tid in b.threads && b.threads[tid].Holding?
    requires Postpones(PhaseAfter(b, tid))
    ensures Coupled(a, Continued(b, tid), waits)
  {
    CoupledThread(a, b, waits, tid);
    var x, y, b' := a.threads[tid], b.threads[tid], Continued(b, tid);
    assert ThreadOk(b.store, b.grants, tid, y);
    PostponesAlike(b.store, b.grants, tid, x, y, b.clock);
    assert b.published + Posts(tid, []) == b.published && b.notified + Pushes(tid, []) == b.notified;
    QuietContinue(b, waits, tid);
    WatchesExactly(a, b, waits, tid, b'.threads[tid], b', waits);
  }

  /** The deletions that wait are the same, unless the call asks for one. */
  lemma QuietContinue(b: Sys, waits: seq<nat>, tid: nat)
    requires WaitsAre(b, waits) && tid in b.threads && b.threads[tid].Holding? && b.store.kind.Postgres?
    ensures Continued(b, tid) == Turned(b, tid, Resume(b.threads[tid].k, b.threads[tid].ans, b.clock))
    ensures var b' := Continued(b, tid);
      !Deleting(b'.threads[tid]) ==> WaitsAre(b', waits) && AheadOf(b', waits) == AheadOf(b, waits)
    ensures var b' := Continued(b, tid);
      Deleting(b'.threads[tid]) ==>
        WaitsAre(b', waits + [tid]) && AheadOf(b', waits + [tid]) == Write(AheadOf(b, waits), b'.threads[tid].op)
  {
    var b' := Continued(b, tid);
    OpsStay(b, waits, tid, b');
    if Deleting(b'.threads[tid]) {
      var ops := Ops(b', waits + [tid]);
      assert ops[..|waits|] == Ops(b', waits) && ops[|waits|] == b'.threads[tid].op;
    }
  }

  /** Thread `tid` takes this turn. */
  function Turned(s: Sys, tid: nat, u: Turn): Sys
    requires tid in s.threads
  {
    s.(threads := s.threads[tid := AsThread(s.threads[tid].call, u.phase)],
       published := s.published + Posts(tid, u.published),
       notified := s.notified + Pushes(tid, u.notified))
  }

  lemma PushesExactly(a: seq<Push>, b: seq<Push>, tid: nat, ns: seq<Notice>, ns': seq<Notice>)
    requires PushesSim(a, b)
    ensures PushesSim(a + Pushes(tid, ns), b + Pushes(tid, ns')) <==> NoticesSim(ns, ns')
  {
    var ps, qs := a + Pushes(tid, ns), b + Pushes(tid, ns');
    if PushesSim(ps, qs) {
      forall i | 0 <= i < |ns|
        ensures NoticeSim(ns[i], ns'[i])
      {
        assert ps[|a| + i] == Push(tid, ns[i]) && qs[|a| + i] == Push(tid, ns'[i]);
      }
    }
  }

  lemma PostsExactly(posts: seq<Post>, tid: nat, ms: seq<Message>, ms': seq<Message>)
    ensures posts + Posts(tid, ms) == posts + Posts(tid, ms') <==> ms == ms'
  {
    var ps, qs := posts + Posts(tid, ms), posts + Posts(tid, ms');
    if ps == qs {
      assert |ps| == |posts| + |ms| && |qs| == |posts| + |ms'|;
      forall i | 0 <= i < |ms|
        ensures ms[i] == ms'[i]
      {
        assert ps[|posts| + i] == Post(tid, ms[i]) && qs[|posts| + i] == Post(tid, ms'[i]);
      }
    }
  }

  lemma OutsideExactly(a: Sys, b: Sys, tid: nat, u: Turn, v: Turn)
    requires OutsideAlike(a, b) && tid in a.threads && tid in b.threads
    ensures OutsideAlike(Turned(a, tid, u), Turned(b, tid, v)) <==>
      u.published == v.published && NoticesSim(u.notified, v.notified)
  {
    PostsExactly(a.published, tid, u.published, v.published);
    PushesExactly(a.notified, b.notified, tid, u.notified, v.notified);
  }

  lemma EndsExactly(call: Call, p: Phase, q: Phase)
    requires q.Finished? || q.op.AskGate?
    ensures ThreadAlike(AsThread(call, p), AsThread(call, q)) <==> PhaseSim(p, q)
  {
  }

  /** The call ends, or goes to the host, in both. */
  lemma TurnedExactly(a: Sys, b: Sys, waits: seq<nat>, tid: nat, u: Turn, v: Turn)
    requires Coupled(a, b, waits) && tid in b.threads && tid in a.threads && a.threads[tid].call == b.threads[tid].call
    requires v.phase.Finished? || v.phase.op.AskGate?
    requires WaitsAre(Turned(b, tid, v), waits) && AheadOf(Turned(b, tid, v), waits) == AheadOf(b, waits)
    ensures Coupled(Turned(a, tid, u), Turned(b, tid, v), waits) <==> TurnSim(u, v)
  {
    CoupledThread(a, b, waits, tid);
    var a', b' := Turned(a, tid, u), Turned(b, tid, v);
    OutsideExactly(a, b, tid, u, v);
    EndsExactly(b.threads[tid].call, u.phase, v.phase);
    MovesExactly(a, b, waits, tid, a', b', waits);
  }

  // The objects of memory, by whatever copy they are named.

  lemma NamedConversation(s: Store, c: Conversation, d: Conversation)
    requires ConversationOk(s, d) && c.id == d.id
    ensures CurrentConversation(s, c) == CurrentConversation(s, d)
  {
    var i :| 0 <= i < |s.convs| && s.convs[i].id == d.id;
  }

  lemma NamedMessage(s: Store, m: Message, n: Message)
    requires Logged(s.msgs, n) && m.id == n.id
    ensures CurrentMessage(s, m) == CurrentMessage(s, n)
  {
    var i :| 0 <= i < |s.msgs| && Becomes(n, s.msgs[i]);
    assert s.msgs[i].id == Key(s.msgs[i]).id && n.id == Key(n).id;
  }

  lemma NamedPage(s: Store, page: seq<Message>, page': seq<Message>)
    requires SameMessageIds(page, page') && forall i :: 0 <= i < |page'| ==> Logged(s.msgs, page'[i])
    ensures CurrentPage(s, page) == CurrentPage(s, page')
  {
    forall i | 0 <= i < |page|
      ensures CurrentMessage(s, page[i]) == CurrentMessage(s, page'[i])
    {
      NamedMessage(s, page[i], page'[i]);
    }
  }

  lemma NamedAnswer(s: Store, grants: set<nat>, tid: nat, call: Call, k: Cont, mine: Answer, ans: Answer)
    requires HoldingOk(s, grants, tid, call, ans, k) && AnswerAlike(mine, ans) && !ans.FoundConversations?
    ensures Refresh(InMemoryOf(s), mine) == Refresh(InMemoryOf(s), ans)
  {
    var t := InMemoryOf(s);
    if ans.FoundConversation? && ans.found.Some? {
      NamedConversation(t, mine.found.value, ans.found.value);
    } else if ans.Created? {
      NamedConversation(t, mine.conversation, ans.conversation);
    } else if ans.FoundMessage? && ans.message.Some? {
      NamedMessage(t, mine.message.value, ans.message.value);
    } else if ans.Stored? {
      NamedMessage(t, mine.stored, ans.stored);
    } else if ans.FoundMessages? {
      NamedPage(t, mine.page, ans.page);
    }
  }

  lemma NamedList(s: Store, list: seq<Conversation>, es: seq<Entry>)
    requires |list| == |es| && EntriesOk(s, es) && forall i :: 0 <= i < |es| ==> list[i].id == es[i].conversation.id
    ensures Refresh(InMemoryOf(s), FoundConversations(list)).list == CurrentList(s, es)
  {
    forall i | 0 <= i < |es|
      ensures CurrentConversation(InMemoryOf(s), list[i]) == CurrentConversation(s, es[i].conversation)
    {
      assert EntryOk(s, es[i]);
      NamedConversation(s, list[i], es[i].conversation);
    }
  }

  // A call that ends, goes to the host, or asks for a deletion.

  /** What the in-memory call does with its answer. */
  function MemoryTurn(a: Sys, x: Thread): Turn
    requires x.Holding?
  {
    Resume(x.k, Refresh(a.store, x.ans), a.clock)
  }

  lemma ContinuesTurn(a: Sys, tid: nat)
    requires tid in a.threads && a.threads[tid].Holding? && !a.threads[tid].k.PreviewsRead?
    ensures ContinuedNow(a, tid) == Turned(a, tid, MemoryTurn(a, a.threads[tid]))
  {
  }

  lemma SettlesAlike(s: Store, grants: set<nat>, tid: nat, x: Thread, y: Thread, now: int)
    requires WellFormed(s) && y.Holding? && HoldingOk(s, grants, tid, y.call, y.ans, y.k) && ThreadAlike(x, y)
    requires Settles(y.k, y.ans, now)
    ensures x.Holding? && x.call == y.call && !x.k.PreviewsRead? && ContSim(x.k, y.k)
    ensures Stands(s, y.k, y.ans) <==>
      TurnSim(Resume(x.k, Refresh(InMemoryOf(s), x.ans), now), Resume(y.k, y.ans, now))
  {
    assert !y.ans.NotUpdated? && ContSim(x.k, y.k) && AnswerAlike(x.ans, y.ans);
    if y.ans.FoundConversations? {
      assert y.ans.list != [] ==> Entries(y.k.user, y.ans.list)[0].last.Pending?;
      assert x.ans.list == [] == y.ans.list;
    } else {
      NamedAnswer(s, grants, tid, y.call, y.k, x.ans, y.ans);
    }
    TurnExactly(s, x.k, y.k, y.ans, y.call, grants, tid, now);
  }

  lemma SettleStep(a: Sys, b: Sys, waits: seq<nat>, tid: nat)
    requires Coupled(a, b, waits) && Inv(b) && tid in b.threads && b.threads[tid].Holding?
    requires Settles(b.threads[tid].k, b.threads[tid].ans, b.clock)
    requires PhaseAfter(b, tid).Finished? || PhaseAfter(b, tid).op.AskGate?
    ensures tid in a.threads && Next(a, Continue(tid), ContinuedNow(a, tid))
    ensures Coupled(ContinuedNow(a, tid), Continued(b, tid), waits) <==>
      Stands(AheadOf(b, waits), b.threads[tid].k, b.threads[tid].ans)
  {
    CoupledThread(a, b, waits, tid);
    var x, y := a.threads[tid], b.threads[tid];
    AheadKeeps(b, waits);
    AheadOk(b, waits, tid);
    SettlesAlike(AheadOf(b, waits), b.grants, tid, x, y, b.clock);
    ContinuesTurn(a, tid);
    QuietContinue(b, waits, tid);
    TurnedExactly(a, b, waits, tid, MemoryTurn(a, x), Resume(y.k, y.ans, b.clock));
  }

  /** Either the in-memory call asks for the same deletion, or it has nothing to ask for. */
  lemma AsksDeletion(s: Store, grants: set<nat>, tid: nat, x: Thread, y: Thread, now: int)
    requires WellFormed(s) && y.Holding? && HoldingOk(s, grants, tid, y.call, y.ans, y.k) && ThreadAlike(x, y)
    requires var p := Resume(y.k, y.ans, now).phase; p.Asking? && IsDated(p.op)
    ensures x.Holding? && x.call == y.call && !x.k.PreviewsRead?
    ensures var u, v := Resume(x.k, Refresh(InMemoryOf(s), x.ans), now), Resume(y.k, y.ans, now);
      && v.published == [] && v.notified == []
      && (if Stands(s, y.k, y.ans) then u == v && (v.phase.op.SoftDelete? ==> Live(s, v.phase.op.mid))
          else u.phase.Finished?)
  {
    assert ContSim(x.k, y.k) && AnswerAlike(x.ans, y.ans);
    NamedAnswer(s, grants, tid, y.call, y.k, x.ans, y.ans);
    if y.ans.FoundMessage? {
      AsksTombstone(s, y.k, y.ans.message.value, now);
    } else {
      AsksClear(s, grants, tid, y.call, y.k, y.ans, now);
    }
  }

  lemma AsksClear(s: Store, grants: set<nat>, tid: nat, call: Call, k: Cont, ans: Answer, now: int)
    requires WellFormed(s) && HoldingOk(s, grants, tid, call, ans, k) && !ans.FoundMessage?
    requires var p := Resume(k, ans, now).phase; p.Asking? && IsDated(p.op)
    ensures Stands(s, k, ans) && Resume(k, Refresh(InMemoryOf(s), ans), now) == Resume(k, ans, now)
    ensures var v := Resume(k, ans, now);
      v.published == [] && v.notified == [] && v.phase.op.MarkParticipant?
  {
    CurrentMembers(s, ans.found.value, k.user);
  }

  lemma AsksTombstone(s: Store, k: Cont, m: Message, now: int)
    requires WellFormed(s) && Logged(s.msgs, m) && k.MessageForDelete? && m.id == k.mid
    requires AfterMessage(k.cid, k.mid, k.user, Some(m), now).phase.Asking?
    ensures var u, v := AfterMessage(k.cid, k.mid, k.user, Some(CurrentMessage(s, m)), now),
      AfterMessage(k.cid, k.mid, k.user, Some(m), now);
      if MessageStands(s, k, m) then u == v && Live(s, k.mid) else u.phase.Finished?
  {
    CurrentIsLogged(s, m);
    var cur := CurrentMessage(s, m);
    assert cur.conversationId == Key(cur).conversationId && cur.senderId == Key(cur).senderId && cur.id == Key(cur).id;
    assert m.conversationId == Key(m).conversationId && m.senderId == Key(m).senderId && m.id == Key(m).id;
  }

  predicate Live(s: Store, mid: string) {
    FindById(s.msgs, mid).Some? && FindById(s.msgs, mid).value.deletedAt.None?
  }

  /** A deletion asked for in memory executes at once. */
  lemma DeletesNow(a: Sys, tid: nat, call: Call, op: Op, k: Cont, a1: Sys)
    requires a.store.kind.InMemory? && IsDated(op) && (op.SoftDelete? ==> Live(a.store, op.mid))
    requires a1 == a.(threads := a.threads[tid := Waiting(call, op, k)])
    ensures var a' := ExecutedNow(a1, tid, "", true);
      && Next(a1, Execute(tid, "", true), a') && a'.store == Write(a.store, op)
      && tid in a'.threads && a'.threads == a.threads[tid := a'.threads[tid]]
      && a'.threads[tid].call == call && ExecutedAhead(a'.threads[tid], k, op)
      && a'.clock == a.clock && a'.published == a.published && a'.notified == a.notified
  {
    var r := InMemoryExec(a.store, op, Env("", a.clock, true));
    assert Exec(a.store, op, Env("", a.clock, true), r.store, r.ans);
  }

  lemma WriteInMemory(s: Store, op: Op)
    ensures Write(InMemoryOf(s), op) == InMemoryOf(Write(s, op))
  {
  }

  /** The call asks for a deletion over Postgres. */
  lemma AskDeletionStep(a: Sys, b: Sys, waits: seq<nat>, tid: nat)
    requires Coupled(a, b, waits) && Inv(b) && tid in b.threads && b.threads[tid].Holding?
    requires PhaseAfter(b, tid).Asking? && IsDated(PhaseAfter(b, tid).op)
    ensures tid in a.threads && Next(a, Continue(tid), ContinuedNow(a, tid))
    ensures var a1, a' := ContinuedNow(a, tid), ExecutedNow(ContinuedNow(a, tid), tid, "", true);
      if Stands(AheadOf(b, waits), b.threads[tid].k, b.threads[tid].ans) then
        Next(a1, Execute(tid, "", true), a') && Coupled(a', Continued(b, tid), waits + [tid])
      else !Coupled(a', Continued(b, tid), waits + [tid])
  {
    CoupledThread(a, b, waits, tid);
    var s, x, y, p := AheadOf(b, waits), a.threads[tid], b.threads[tid], PhaseAfter(b, tid);
    AheadKeeps(b, waits);
    AheadOk(b, waits, tid);
    AsksDeletion(s, b.grants, tid, x, y, b.clock);
    ContinuesTurn(a, tid);
    if Stands(s, y.k, y.ans) {
      DeletionAsked(a, b, waits, tid, p);
    } else {
      NothingAsked(a, b, waits, tid);
    }
  }

  lemma DeletionAsked(a: Sys, b: Sys, waits: seq<nat>, tid: nat, p: Phase)
    requires Coupled(a, b, waits) && tid in b.threads && b.threads[tid].Holding? && tid in a.threads
    requires p == PhaseAfter(b, tid) && p.Asking? && IsDated(p.op)
    requires Resume(b.threads[tid].k, b.threads[tid].ans, b.clock) == Go(p)
    requires ContinuedNow(a, tid) == Turned(a, tid, Go(p)) && a.threads[tid].call == b.threads[tid].call
    requires p.op.SoftDelete? ==> Live(AheadOf(b, waits), p.op.mid)
    ensures var a1, a' := ContinuedNow(a, tid), ExecutedNow(ContinuedNow(a, tid), tid, "", true);
      Next(a1, Execute(tid, "", true), a') && Coupled(a', Continued(b, tid), waits + [tid])
  {
    CoupledThread(a, b, waits, tid);
    QuietContinue(b, waits, tid);
    assert a.published + Posts(tid, []) == a.published && a.notified + Pushes(tid, []) == a.notified;
    assert b.published + Posts(tid, []) == b.published && b.notified + Pushes(tid, []) == b.notified;
    var call, b' := b.threads[tid].call, Continued(b, tid);
    assert b'.threads[tid] == Waiting(call, p.op, p.k);
    DeletesNow(a, tid, call, p.op, p.k, ContinuedNow(a, tid));
    WriteInMemory(AheadOf(b, waits), p.op);
    MovesExactly(a, b, waits, tid, ExecutedNow(ContinuedNow(a, tid), tid, "", true), b', waits + [tid]);
  }

  lemma NothingAsked(a: Sys, b: Sys, waits: seq<nat>, tid: nat)
    requires Coupled(a, b, waits) && tid in b.threads && b.threads[tid].Holding? && tid in a.threads
    requires PhaseAfter(b, tid).Asking? && IsDated(PhaseAfter(b, tid).op)
    requires a.threads[tid].Holding? && ContinuedNow(a, tid) == Turned(a, tid, MemoryTurn(a, a.threads[tid]))
    requires MemoryTurn(a, a.threads[tid]).phase.Finished?
    ensures !Coupled(ExecutedNow(ContinuedNow(a, tid), tid, "", true), Continued(b, tid), waits + [tid])
  {
    var a', b' := ExecutedNow(ContinuedNow(a, tid), tid, "", true), Continued(b, tid);
    assert a'.threads[tid].Ended? && b'.threads[tid].Waiting?;
    assert !ThreadCoupled(a', b', tid);
  }

  // A list that replies.

  lemma SamePreviews(s: Store, user: string, list: seq<Conversation>)
    ensures PreviewsOf(InMemoryOf(s), user, list) == PreviewsOf(s, user, list)
  {
    assert AllFilled(InMemoryOf(s), Entries(user, list)) == AllFilled(s, Entries(user, list));
  }

  lemma ReplyPhase(b: Sys, tid: nat)
    requires Inv(b) && tid in b.threads && b.threads[tid].Holding? && b.threads[tid].ans.FoundPreview?
    requires !Postpones(PhaseAfter(b, tid))
    ensures var y := b.threads[tid];
      && y.k.PreviewsRead? && y.ans.i < |y.k.entries| && EntriesOk(b.store, y.k.entries)
      && var es := WithAnswer(y.k.entries, y.ans.i, y.ans.page);
         AllKnown(es) && Resume(y.k, y.ans, b.clock) == Go(Finished(Previews(ShownPreviews(es))))
  {
    assert ThreadOk(b.store, b.grants, tid, b.threads[tid]);
  }

  lemma ReplyStep(a: Sys, b: Sys, waits: seq<nat>, tid: nat)
    requires Coupled(a, b, waits) && Inv(b) && tid in b.threads && b.threads[tid].Holding?
    requires b.threads[tid].ans.FoundPreview? && !Postpones(PhaseAfter(b, tid))
    ensures Coupled(ListedNow(a, tid), Continued(b, tid), waits) <==>
      Stands(AheadOf(b, waits), b.threads[tid].k, b.threads[tid].ans)
  {
    CoupledThread(a, b, waits, tid);
    ReplyPhase(b, tid);
    var s, y := AheadOf(b, waits), b.threads[tid];
    var es := WithAnswer(y.k.entries, y.ans.i, y.ans.page);
    AheadKeeps(b, waits);
    EntriesAhead(b, waits, tid);
    UnreadPreviews(a.threads[tid], y);
    UnreadStill(a.threads[tid], y.k.user, y.k.entries, y.ans.i, y.ans.page);
    var reply := Previews(PreviewsOf(s, y.k.user, CurrentList(s, es)));
    ListedTurn(a, tid, s, y.k.user, es);
    RepliesTurn(b, waits, tid, Go(Finished(Previews(ShownPreviews(es)))));
    RepliesExactly(s, y.k, y.ans);
    TurnedExactly(a, b, waits, tid, Go(Finished(reply)), Go(Finished(Previews(ShownPreviews(es)))));
  }

  lemma RepliesTurn(b: Sys, waits: seq<nat>, tid: nat, v: Turn)
    requires WaitsAre(b, waits) && tid in b.threads && b.threads[tid].Holding? && b.store.kind.Postgres?
    requires Resume(b.threads[tid].k, b.threads[tid].ans, b.clock) == v && v.phase.Finished?
    ensures Continued(b, tid) == Turned(b, tid, v)
    ensures WaitsAre(Turned(b, tid, v), waits) && AheadOf(Turned(b, tid, v), waits) == AheadOf(b, waits)
  {
    QuietContinue(b, waits, tid);
  }

  lemma UnreadPreviews(x: Thread, y: Thread)
    requires ThreadAlike(x, y) && y.Holding? && y.ans.FoundPreview?
    ensures y.k.PreviewsRead? && Unread(x, y.k.user, y.k.entries) && x.call == y.call
  {
  }

  lemma RepliesExactly(s: Store, k: Cont, ans: Answer)
    requires k.PreviewsRead? && ans.FoundPreview? && ans.i < |k.entries|
    requires AllKnown(WithAnswer(k.entries, ans.i, ans.page))
    ensures var es := WithAnswer(k.entries, ans.i, ans.page);
      var mine := Go(Finished(Previews(PreviewsOf(s, k.user, CurrentList(s, es)))));
      Stands(s, k, ans) <==> TurnSim(mine, Go(Finished(Previews(ShownPreviews(es)))))
  {
  }

  lemma EntriesAhead(b: Sys, waits: seq<nat>, tid: nat)
    requires Inv(b) && tid in b.threads && b.threads[tid].Holding? && b.threads[tid].ans.FoundPreview?
    requires b.threads[tid].k.PreviewsRead? && b.threads[tid].ans.i < |b.threads[tid].k.entries|
    ensures var y := b.threads[tid];
      EntriesOk(AheadOf(b, waits), WithAnswer(y.k.entries, y.ans.i, y.ans.page))
  {
    AheadOk(b, waits, tid);
    var y := b.threads[tid];
    NamedEntries(AheadOf(b, waits), y.k.entries, y.ans.i, y.ans.page);
  }

  lemma ListedTurn(a: Sys, tid: nat, s: Store, user: string, es: seq<Entry>)
    requires a.store == InMemoryOf(s) && EntriesOk(s, es) && tid in a.threads && Unread(a.threads[tid], user, es)
    ensures ListedNow(a, tid) == Turned(a, tid, Go(Finished(Previews(PreviewsOf(s, user, CurrentList(s, es))))))
  {
    NamedList(s, a.threads[tid].ans.list, es);
    SamePreviews(s, user, CurrentList(s, es));
    assert a.published + Posts(tid, []) == a.published && a.notified + Pushes(tid, []) == a.notified;
  }

  lemma NamedEntries(s: Store, es: seq<Entry>, i: nat, page: seq<Message>)
    requires EntriesOk(s, es) && i < |es| && forall j :: 0 <= j < |page| ==> Logged(s.msgs, page[j])
    ensures EntriesOk(s, WithAnswer(es, i, page))
  {
  }
}
