/** The Postgres stores refine the in-memory ones over every interleaving of calls: callers, bus and notifier are handed
    the same, participants compared without order, as in a run over the in-memory stores in which every operation of a
    store executes when it is asked for, exactly as long as every step fits. */
module Refinement {
  import opened Domain
  import opened Query
  import opened Stores
  import opened Dated
  import opened Service
  import opened Machine
  import opened Concurrency
  import opened Safety
  import opened Simulation
  import opened Agreement
  import opened AtOnce
  import opened Coupling
  import opened Steps
  import opened Paths

  // One step.

  lemma BeginStep(a: Sys, b: Sys, waits: seq<nat>, tid: nat, call: Call, b': Sys)
    requires Coupled(a, b, waits) && Next(b, Begin(tid, call), b') && GoodCall(call)
    ensures Coupled(MemoryStep(a, b, Begin(tid, call)), b', waits)
    ensures Next(a, Begin(tid, call), Begun(a, tid, call))
  {
    var a' := MemoryStep(a, b, Begin(tid, call));
    WaitsAfterAre(b, waits, Begin(tid, call), b');
    OpsSame(b, b', waits);
    forall t | t in b'.threads
      ensures ThreadCoupled(a', b', t)
    {
      if t == tid {
        BeginsAlike(call);
      } else {
        assert ThreadCoupled(a, b, t);
      }
    }
  }

  lemma BeginsAlike(call: Call)
    requires GoodCall(call)
    ensures var y := AsThread(call, Start(call));
      NotYet(y) <==> Start(call).Asking? && Opens(Start(call).op)
    ensures var y := AsThread(call, Start(call));
      y.call == call && (!NotYet(y) ==> ThreadAlike(y, y))
  {
  }

  lemma TickStep(a: Sys, b: Sys, waits: seq<nat>, to: int, b': Sys)
    requires Coupled(a, b, waits) && Next(b, Tick(to), b')
    ensures Coupled(a.(clock := to), b', waits) && Next(a, Tick(to), a.(clock := to))
  {
    OpsSame(b, b', waits);
    forall t | t in b'.threads
      ensures ThreadCoupled(a.(clock := to), b', t)
    {
      assert ThreadCoupled(a, b, t);
    }
  }

  lemma ExecuteExactly(a: Sys, b: Sys, waits: seq<nat>, tid: nat, id: string, gate: bool, ans: Answer, b': Sys)
    requires Coupled(a, b, waits) && Inv(b) && Agreeable(b.store) && Executes(b, tid, id, gate, ans, b')
    ensures var l := Execute(tid, id, gate);
      Coupled(ExecuteStep(a, b, tid, id, gate), b', WaitsAfter(b, waits, l, b')) <==> Fits(b, waits, l)
  {
    var op := b.threads[tid].op;
    if op.AskGate? {
      GateStep(a, b, waits, tid, id, gate, ans, b');
    } else if Opens(op) {
      OpenStep(a, b, waits, tid, id, gate, ans, b');
    } else if IsDated(op) {
      DatedStep(a, b, waits, tid, id, gate, ans, b');
    } else if op.SelectDeleted? || op.QueryPreviews? {
      StillStep(a, b, waits, tid, id, gate, ans, b');
    } else {
      LaterStep(a, b, waits, tid, id, gate, ans, b');
    }
  }

  /** A call that goes on to wait for a query, or for another preview, always fits. */
  lemma PostponedStands(s: Store, k: Cont, ans: Answer, now: int)
    requires Postpones(Resume(k, ans, now).phase)
    ensures Stands(s, k, ans)
  {
  }

  lemma ContinueExactly(a: Sys, b: Sys, waits: seq<nat>, tid: nat)
    requires Coupled(a, b, waits) && Inv(b) && tid in b.threads && b.threads[tid].Holding?
    ensures var waits' := WaitsAfter(b, waits, Continue(tid), Continued(b, tid));
      Coupled(ContinueStep(a, b, tid), Continued(b, tid), waits') <==>
        Stands(AheadOf(b, waits), b.threads[tid].k, b.threads[tid].ans)
  {
    var y, p := b.threads[tid], PhaseAfter(b, tid);
    QuietContinue(b, waits, tid);
    if Postpones(p) {
      PostponeStep(a, b, waits, tid);
      PostponedStands(AheadOf(b, waits), y.k, y.ans, b.clock);
    } else if p.Asking? && IsDated(p.op) {
      AskDeletionStep(a, b, waits, tid);
    } else if y.ans.FoundPreview? {
      ReplyStep(a, b, waits, tid);
    } else {
      SettleStep(a, b, waits, tid);
    }
  }

  /** The two systems stay coupled exactly if the step fits. */
  lemma StepExactly(a: Sys, b: Sys, waits: seq<nat>, l: Label, b': Sys)
    requires Coupled(a, b, waits) && Inv(b) && Agreeable(b.store) && Next(b, l, b')
    requires l.Begin? ==> GoodCall(l.call)
    ensures Coupled(MemoryStep(a, b, l), b', WaitsAfter(b, waits, l, b')) <==> Fits(b, waits, l)
  {
    match l
    case Begin(tid, call) => BeginStep(a, b, waits, tid, call, b');
    case Execute(tid, id, gate) => ExecuteFits(a, b, waits, tid, id, gate, b');
    case Continue(tid) => ContinueFits(a, b, waits, tid, b');
    case Tick(to) => TickStep(a, b, waits, to, b');
  }

  /** What the database answers in a step. */
  lemma AnswerOf(b: Sys, tid: nat, id: string, gate: bool, b': Sys) returns (ans: Answer)
    requires Next(b, Execute(tid, id, gate), b')
    ensures Executes(b, tid, id, gate, ans, b')
  {
    ans :| Exec(b.store, b.threads[tid].op, Env(id, b.clock, gate), b'.store, ans)
      && b' == Executed(b, tid, b'.store, ans);
  }

  lemma ExecuteFits(a: Sys, b: Sys, waits: seq<nat>, tid: nat, id: string, gate: bool, b': Sys)
    requires Coupled(a, b, waits) && Inv(b) && Agreeable(b.store) && Next(b, Execute(tid, id, gate), b')
    ensures var l := Execute(tid, id, gate);
      Coupled(MemoryStep(a, b, l), b', WaitsAfter(b, waits, l, b')) <==> Fits(b, waits, l)
  {
    var ans := AnswerOf(b, tid, id, gate, b');
    ExecuteExactly(a, b, waits, tid, id, gate, ans, b');
  }

  lemma ContinueFits(a: Sys, b: Sys, waits: seq<nat>, tid: nat, b': Sys)
    requires Coupled(a, b, waits) && Inv(b) && Next(b, Continue(tid), b')
    ensures var l := Continue(tid);
      Coupled(MemoryStep(a, b, l), b', WaitsAfter(b, waits, l, b')) <==> Fits(b, waits, l)
  {
    ContinueExactly(a, b, waits, tid);
  }

  // Its steps in memory.

  lemma ExecutePath(p: Path, a: Sys, b: Sys, waits: seq<nat>, tid: nat, id: string, gate: bool, ans: Answer, b': Sys)
    returns (q: Path)
    requires Leads(p, a) && Coupled(a, b, waits) && Inv(b) && Agreeable(b.store)
    requires Executes(b, tid, id, gate, ans, b')
    ensures Leads(q, ExecuteStep(a, b, tid, id, gate)) && Extends(p, q)
  {
    CoupledAtRest(a, b, waits);
    var op, call := b.threads[tid].op, b.threads[tid].call;
    if op.AskGate? {
      GateStep(a, b, waits, tid, id, gate, ans, b');
      q := Goes(p, a, Execute(tid, id, gate), ExecutedNow(a, tid, id, gate));
    } else if Opens(op) {
      OpenStep(a, b, waits, tid, id, gate, ans, b');
      var a1 := Begun(a, tid, call);
      q := GoesTwice(p, a, Begin(tid, call), tid, a1, id, gate, ExecutedNow(a1, tid, id, gate));
    } else if IsDated(op) || op.SelectDeleted? || op.QueryPreviews? {
      q := p;
    } else {
      LaterStep(a, b, waits, tid, id, gate, ans, b');
      var a1 := ContinuedNow(a, tid);
      q := GoesTwice(p, a, Continue(tid), tid, a1, id, gate, ExecutedNow(a1, tid, id, gate));
    }
  }

  lemma ListInMemoryHolds(a: Sys, b: Sys, waits: seq<nat>, tid: nat)
    requires Coupled(a, b, waits) && Inv(b) && tid in b.threads && b.threads[tid].Holding?
    requires b.threads[tid].ans.FoundPreview?
    ensures tid in a.threads && a.threads[tid].Holding?
    ensures a.threads[tid].ans.FoundConversations? && a.threads[tid].k.AllForPreviews?
    ensures WellFormed(a.store)
  {
    CoupledThread(a, b, waits, tid);
    UnreadPreviews(a.threads[tid], b.threads[tid]);
    AheadKeeps(b, waits);
  }

  lemma ContinuePath(p: Path, a: Sys, b: Sys, waits: seq<nat>, tid: nat) returns (q: Path)
    requires Leads(p, a) && Coupled(a, b, waits) && Inv(b) && tid in b.threads && b.threads[tid].Holding?
    requires Stands(AheadOf(b, waits), b.threads[tid].k, b.threads[tid].ans)
    ensures Leads(q, ContinueStep(a, b, tid)) && Extends(p, q)
  {
    CoupledAtRest(a, b, waits);
    var ph := PhaseAfter(b, tid);
    if Postpones(ph) {
      q := p;
    } else if ph.Asking? && IsDated(ph.op) {
      AskDeletionStep(a, b, waits, tid);
      var a1 := ContinuedNow(a, tid);
      q := GoesTwice(p, a, Continue(tid), tid, a1, "", true, ExecutedNow(a1, tid, "", true));
    } else if b.threads[tid].ans.FoundPreview? {
      ListInMemoryHolds(a, b, waits, tid);
      q := GoesListing(p, a, tid);
    } else {
      SettleStep(a, b, waits, tid);
      q := Goes(p, a, Continue(tid), ContinuedNow(a, tid));
    }
  }

  lemma StepPath(p: Path, a: Sys, b: Sys, waits: seq<nat>, l: Label, b': Sys) returns (q: Path)
    requires Leads(p, a) && Coupled(a, b, waits) && Inv(b) && Agreeable(b.store) && Next(b, l, b')
    requires Fits(b, waits, l) && (l.Begin? ==> GoodCall(l.call))
    ensures Leads(q, MemoryStep(a, b, l)) && Extends(p, q)
  {
    match l
    case Begin(tid, call) => q := BeginPath(p, a, b, waits, tid, call, b');
    case Execute(tid, id, gate) =>
      var ans := AnswerOf(b, tid, id, gate, b');
      q := ExecutePath(p, a, b, waits, tid, id, gate, ans, b');
    case Continue(tid) => q := ContinuePath(p, a, b, waits, tid);
    case Tick(to) =>
      CoupledAtRest(a, b, waits);
      TickStep(a, b, waits, to, b');
      q := Goes(p, a, l, a.(clock := to));
  }

  lemma BeginPath(p: Path, a: Sys, b: Sys, waits: seq<nat>, tid: nat, call: Call, b': Sys) returns (q: Path)
    requires Leads(p, a) && Coupled(a, b, waits) && Next(b, Begin(tid, call), b') && GoodCall(call)
    ensures Leads(q, MemoryStep(a, b, Begin(tid, call))) && Extends(p, q)
  {
    CoupledAtRest(a, b, waits);
    BeginStep(a, b, waits, tid, call, b');
    if Start(call).Asking? && Opens(Start(call).op) {
      q := p;
    } else {
      q := Goes(p, a, Begin(tid, call), Begun(a, tid, call));
    }
  }

  // Whole runs.

  /** Waiting writes are ones the tables accept. */
  lemma CreatesAllowed(b: Sys, tid: nat)
    requires Inv(b) && tid in b.threads && b.threads[tid].Waiting? && GoodCall(b.threads[tid].call)
    ensures b.threads[tid].op.CreateConversation? ==>
      NoDuplicates(b.threads[tid].op.pids) && b.threads[tid].op.pids != []
    ensures b.threads[tid].op.CreateMessage? ==> Find(b.store.convs, b.threads[tid].op.cid).Some?
  {
    assert ThreadOk(b.store, b.grants, tid, b.threads[tid]);
  }

  /** What a Postgres run keeps when its callers keep to good calls. */
  ghost predicate Tidy(b: Sys) {
    && OldestFirst(b.store.convs)
    && (forall c :: c in b.store.convs ==> c.createdAt <= b.clock && c.participants != [])
    && (forall tid :: tid in b.threads ==> GoodCall(b.threads[tid].call))
  }

  lemma ConversationsTidy(s: Store, op: Op, env: Env, s': Store, ans: Answer, clock: int)
    requires Exec(s, op, env, s', ans) && env.now == clock && (op.CreateConversation? ==> op.pids != [])
    requires OldestFirst(s.convs) && forall c :: c in s.convs ==> c.createdAt <= clock && c.participants != []
    ensures OldestFirst(s'.convs) && forall c :: c in s'.convs ==> c.createdAt <= clock && c.participants != []
  {
    if op.MarkParticipant? {
      forall c | c in s'.convs
        ensures c.createdAt <= clock && c.participants != []
      {
        var i :| 0 <= i < |s'.convs| && s'.convs[i] == c;
        assert s.convs[i] in s.convs;
      }
    }
  }

  lemma StepTidy(b: Sys, l: Label, b': Sys)
    requires Inv(b) && Tidy(b) && Next(b, l, b') && (l.Begin? ==> GoodCall(l.call))
    ensures Tidy(b')
  {
    if l.Execute? {
      var env, op := Env(l.id, b.clock, l.gate), b.threads[l.tid].op;
      var ans :| Exec(b.store, op, env, b'.store, ans) && b' == Executed(b, l.tid, b'.store, ans);
      CreatesAllowed(b, l.tid);
      ConversationsTidy(b.store, op, env, b'.store, ans, b.clock);
    }
  }

  lemma {:induction false} TidyRun(bs: seq<Sys>, ls: seq<Label>, i: nat)
    requires Run(bs, ls) && GoodLabels(ls) && i < |bs|
    ensures Tidy(bs[i]) && bs[i].store.kind == bs[0].store.kind
  {
    if i > 0 {
      TidyRun(bs, ls, i - 1);
      RunInv(bs, ls, i - 1);
      assert Moves(bs, ls, i - 1);
      StepTidy(bs[i - 1], ls[i - 1], bs[i]);
    }
  }

  lemma DistinctBefore(s: Store, s': Store)
    requires Appends(s.msgs, s'.msgs) && Keeps(s.convs, s'.convs)
    requires DistinctInstants(s'.msgs) && DistinctCreation(s'.convs)
    ensures DistinctInstants(s.msgs) && DistinctCreation(s.convs)
  {
    forall i, j | 0 <= i < j < |s.msgs|
      ensures s.msgs[i].createdAt != s.msgs[j].createdAt
    {
      assert Key(s.msgs[i]) == Key(s'.msgs[i]) && Key(s.msgs[j]) == Key(s'.msgs[j]);
    }
    forall i, j | 0 <= i < j < |s.convs|
      ensures s.convs[i].createdAt != s.convs[j].createdAt
    {
      assert SameMembers(s.convs[i], s'.convs[i]) && SameMembers(s.convs[j], s'.convs[j]);
    }
  }

  /** Distinct instants at the end of a run were distinct all along. */
  lemma AgreesAllAlong(bs: seq<Sys>, ls: seq<Label>, i: nat)
    requires Run(bs, ls) && GoodLabels(ls) && i < |bs| && bs[0].store.kind.Postgres?
    requires DistinctInstants(bs[|bs| - 1].store.msgs) && DistinctCreation(bs[|bs| - 1].store.convs)
    ensures Inv(bs[i]) && Agreeable(bs[i].store)
  {
    TidyRun(bs, ls, i);
    RunInv(bs, ls, i);
    RunAppends(bs, ls, i, |bs| - 1);
    DistinctBefore(bs[i].store, bs[|bs| - 1].store);
    TidyAgrees(bs[i]);
  }

  lemma TidyAgrees(b: Sys)
    requires Inv(b) && Tidy(b) && b.store.kind.Postgres?
    requires DistinctInstants(b.store.msgs) && DistinctCreation(b.store.convs)
    ensures Agreeable(b.store)
  {
    forall c | c in b.store.convs
      ensures NoDuplicates(UserIds(c.participants))
    {
      var i :| 0 <= i < |b.store.convs| && b.store.convs[i] == c;
    }
  }

  /** The deletions that wait after n steps. */
  ghost function WaitsAt(bs: seq<Sys>, ls: seq<Label>, n: nat): seq<nat>
    requires n < |bs| == |ls| + 1
  {
    if n == 0 then [] else WaitsAfter(bs[n - 1], WaitsAt(bs, ls, n - 1), ls[n - 1], bs[n])
  }

  ghost predicate FitsAt(bs: seq<Sys>, ls: seq<Label>, i: nat)
    requires i < |ls| && |bs| == |ls| + 1
  {
    Fits(bs[i], WaitsAt(bs, ls, i), ls[i])
  }

  /** An in-memory run, and for each of the first states of a Postgres run the state that keeps step with it. */
  datatype Match = Match(memory: Path, at: seq<nat>)

  ghost predicate Aligned(m: Match, bs: seq<Sys>, ls: seq<Label>, i: nat)
    requires i < |bs| == |ls| + 1 && i < |m.at|
  {
    m.at[i] < |m.memory.states| && Coupled(m.memory.states[m.at[i]], bs[i], WaitsAt(bs, ls, i))
  }

  /** From one of those to the next memory takes the steps that go with that of the other run. */
  ghost predicate InStep(m: Match, bs: seq<Sys>, ls: seq<Label>, i: nat)
    requires i < |ls| < |bs| && i + 1 < |m.at|
  {
    && m.at[i] <= m.at[i + 1] < |m.memory.states|
    && m.memory.states[m.at[i + 1]] == MemoryStep(m.memory.states[m.at[i]], bs[i], ls[i])
  }

  /** The first n steps of a Postgres run, matched. */
  ghost predicate Matches(m: Match, bs: seq<Sys>, ls: seq<Label>, n: nat)
    requires n <= |ls| && |bs| == |ls| + 1
  {
    && RunsAtOnce(m.memory.states, m.memory.labels) && m.memory.states[0] == Initial(InMemory, bs[0].clock)
    && |m.at| == n + 1 && m.at[0] == 0 && m.at[n] == |m.memory.labels|
    && (forall i :: 0 <= i <= n ==> Aligned(m, bs, ls, i))
    && (forall i :: 0 <= i < n ==> InStep(m, bs, ls, i))
  }

  lemma MatchNext(m: Match, bs: seq<Sys>, ls: seq<Label>, n: nat) returns (m': Match)
    requires Run(bs, ls) && GoodLabels(ls) && n < |ls| && bs[0].store.kind.Postgres?
    requires DistinctInstants(bs[|bs| - 1].store.msgs) && DistinctCreation(bs[|bs| - 1].store.convs)
    requires Matches(m, bs, ls, n) && FitsAt(bs, ls, n)
    ensures Matches(m', bs, ls, n + 1)
  {
    AgreesAllAlong(bs, ls, n);
    assert Moves(bs, ls, n);
    var a := MatchedBy(m, bs, ls, n);
    var q := FittingStep(m.memory, a, bs[n], WaitsAt(bs, ls, n), ls[n], bs[n + 1]);
    m' := Match(q, m.at + [|q.labels|]);
    WaitsNext(bs, ls, n);
    MatchExtends(m, bs, ls, n, q, m');
  }

  lemma MatchedBy(m: Match, bs: seq<Sys>, ls: seq<Label>, n: nat) returns (a: Sys)
    requires n <= |ls| && |bs| == |ls| + 1 && Matches(m, bs, ls, n)
    ensures m.at[n] < |m.memory.states| && a == m.memory.states[m.at[n]]
    ensures Leads(m.memory, a) && Coupled(a, bs[n], WaitsAt(bs, ls, n))
  {
    assert Aligned(m, bs, ls, n);
    a := m.memory.states[m.at[n]];
  }

  lemma WaitsNext(bs: seq<Sys>, ls: seq<Label>, n: nat)
    requires n < |ls| && |bs| == |ls| + 1
    ensures WaitsAt(bs, ls, n + 1) == WaitsAfter(bs[n], WaitsAt(bs, ls, n), ls[n], bs[n + 1])
  {
  }

  lemma FittingStep(p: Path, a: Sys, b: Sys, waits: seq<nat>, l: Label, b': Sys) returns (q: Path)
    requires Leads(p, a) && Coupled(a, b, waits) && Inv(b) && Agreeable(b.store) && Next(b, l, b')
    requires Fits(b, waits, l) && (l.Begin? ==> GoodCall(l.call))
    ensures Leads(q, MemoryStep(a, b, l)) && Extends(p, q)
    ensures Coupled(MemoryStep(a, b, l), b', WaitsAfter(b, waits, l, b'))
  {
    StepExactly(a, b, waits, l, b');
    q := StepPath(p, a, b, waits, l, b');
  }

  lemma MatchExtends(m: Match, bs: seq<Sys>, ls: seq<Label>, n: nat, q: Path, m': Match)
    requires n < |ls| && |bs| == |ls| + 1 && Matches(m, bs, ls, n) && Extends(m.memory, q)
    requires Leads(q, MemoryStep(m.memory.states[m.at[n]], bs[n], ls[n])) && m' == Match(q, m.at + [|q.labels|])
    requires Coupled(MemoryStep(m.memory.states[m.at[n]], bs[n], ls[n]), bs[n + 1], WaitsAt(bs, ls, n + 1))
    ensures Matches(m', bs, ls, n + 1)
  {
    forall i | 0 <= i <= n + 1
      ensures Aligned(m', bs, ls, i)
    {
      assert i <= n ==> Aligned(m, bs, ls, i);
    }
    forall i | 0 <= i < n + 1
      ensures InStep(m', bs, ls, i)
    {
      assert i < n ==> InStep(m, bs, ls, i);
      assert Aligned(m, bs, ls, i);
    }
  }

  lemma MatchStarts(bs: seq<Sys>, ls: seq<Label>) returns (m: Match)
    requires Run(bs, ls) && bs[0].store.kind.Postgres?
    ensures Matches(m, bs, ls, 0)
  {
    var a := Initial(InMemory, bs[0].clock);
    m := Match(Path([a], []), [0]);
    assert Coupled(a, bs[0], []);
    assert Aligned(m, bs, ls, 0);
  }

  lemma {:induction false} Simulate(bs: seq<Sys>, ls: seq<Label>, k: nat) returns (m: Match, n: nat)
    requires Run(bs, ls) && GoodLabels(ls) && k <= |ls| && bs[0].store.kind.Postgres?
    requires DistinctInstants(bs[|bs| - 1].store.msgs) && DistinctCreation(bs[|bs| - 1].store.convs)
    ensures n <= k && Matches(m, bs, ls, n)
    ensures n == k || !FitsAt(bs, ls, n)
  {
    if k == 0 {
      m := MatchStarts(bs, ls);
      n := 0;
    } else {
      m, n := Simulate(bs, ls, k - 1);
      if n == k - 1 && FitsAt(bs, ls, n) {
        m := MatchNext(m, bs, ls, n);
        n := k;
      }
    }
  }

  /** Store refinement, over every interleaving. A Postgres run of good calls with distinct creation instants is kept in
      step with, in replies, errors, publications and notifications, by a run over the in-memory stores in which every
      operation executes when it is asked for, up to the first step that does not fit. */
  lemma PostgresRefinesInMemory(bs: seq<Sys>, ls: seq<Label>) returns (m: Match, n: nat)
    requires Run(bs, ls) && GoodLabels(ls) && bs[0].store.kind.Postgres?
    requires DistinctInstants(bs[|bs| - 1].store.msgs) && DistinctCreation(bs[|bs| - 1].store.convs)
    ensures n <= |ls| && Matches(m, bs, ls, n)
    ensures n < |ls| ==> !FitsAt(bs, ls, n)
  {
    m, n := Simulate(bs, ls, |ls|);
  }

  lemma MatchedFits(m: Match, bs: seq<Sys>, ls: seq<Label>, i: nat)
    requires Run(bs, ls) && GoodLabels(ls) && Matches(m, bs, ls, |ls|) && i < |ls| && bs[0].store.kind.Postgres?
    requires DistinctInstants(bs[|bs| - 1].store.msgs) && DistinctCreation(bs[|bs| - 1].store.convs)
    ensures FitsAt(bs, ls, i)
  {
    AgreesAllAlong(bs, ls, i);
    assert Moves(bs, ls, i) && Aligned(m, bs, ls, i) && Aligned(m, bs, ls, i + 1) && InStep(m, bs, ls, i);
    StepExactly(m.memory.states[m.at[i]], bs[i], WaitsAt(bs, ls, i), ls[i], bs[i + 1]);
  }

  /** So the whole run is kept in step with if and only if every step fits. */
  lemma MatchedExactly(bs: seq<Sys>, ls: seq<Label>)
    requires Run(bs, ls) && GoodLabels(ls) && bs[0].store.kind.Postgres?
    requires DistinctInstants(bs[|bs| - 1].store.msgs) && DistinctCreation(bs[|bs| - 1].store.convs)
    ensures (exists m :: Matches(m, bs, ls, |ls|)) <==> forall i :: 0 <= i < |ls| ==> FitsAt(bs, ls, i)
  {
    var m, n := Simulate(bs, ls, |ls|);
    if m' :| Matches(m', bs, ls, |ls|) {
      forall i | 0 <= i < |ls|
        ensures FitsAt(bs, ls, i)
      {
        MatchedFits(m', bs, ls, i);
      }
    }
  }
}
