/** The in-memory store hands out its own objects, the database copies: runs of both with the same labels, every
    operation executed when it is asked for, in which that shows. src/adapters/in-memory/conversation-store.ts:17-33,
    src/core/messaging-service.ts:65-67, 80-100, 214-217 */
module Disturbance {
  import opened Domain
  import opened Query
  import opened Rows
  import opened Stores
  import opened Service
  import opened Machine
  import opened Safety
  import opened Simulation
  import opened AtOnce

  ghost predicate Twins(ss: seq<Sys>, ts: seq<Sys>, ls: seq<Label>) {
    RunsAtOnce(ss, ls) && Run(ts, ls) && ts[0].store.kind.Postgres? && GoodLabels(ls)
  }

  /** Runs of good calls with the same labels, in memory and over the database, lead to `a` and to `b`. */
  ghost predicate Together(a: Sys, b: Sys) {
    exists ss, ts, ls :: Twins(ss, ts, ls) && ss[|ls|] == a && ts[|ls|] == b
  }

  lemma TogetherNext(a: Sys, b: Sys, l: Label, a': Sys, b': Sys)
    requires Together(a, b) && Heeds(a, l) && Next(a, l, a') && Next(b, l, b') && (l.Begin? ==> GoodCall(l.call))
    ensures Together(a', b')
  {
    var ss, ts, ls :| Twins(ss, ts, ls) && ss[|ls|] == a && ts[|ls|] == b;
    GoesOn(ss, ls, l, a');
    RunAppend(ts, ls, l, b');
    var ss', ts', ls' := ss + [a'], ts + [b'], ls + [l];
    assert Twins(ss', ts', ls') && ss'[|ls'|] == a' && ts'[|ls'|] == b';
  }

  /** The same state over the database. */
  function InTables(a: Sys): Sys {
    a.(store := a.store.(kind := Postgres))
  }

  ghost predicate Level(a: Sys) {
    a.store.kind.InMemory? && Together(a, InTables(a))
  }

  /** No other thread has asked for anything. */
  predicate OnlyUrgent(a: Sys, tid: nat) {
    forall t :: t in a.threads && t != tid ==> !Urgent(a.threads[t])
  }

  lemma LevelBegin(a: Sys, tid: nat, call: Call) returns (a': Sys)
    requires Level(a) && AtRest(a) && tid !in a.threads && GoodCall(call)
    ensures Level(a') && OnlyUrgent(a', tid)
    ensures a' == a.(threads := a.threads[tid := AsThread(call, Start(call))])
  {
    a' := a.(threads := a.threads[tid := AsThread(call, Start(call))]);
    TogetherNext(a, InTables(a), Begin(tid, call), a', InTables(a'));
  }

  /** The store of either kind may answer thread `tid` the same. */
  ghost predicate BothExec(a: Sys, tid: nat, id: string, convs: seq<Conversation>, ans: Answer) {
    && tid in a.threads && a.threads[tid].Waiting?
    && Exec(a.store, a.threads[tid].op, Env(id, a.clock, true), a.store.(convs := convs), ans)
    && Exec(InTables(a).store, a.threads[tid].op, Env(id, a.clock, true), InTables(a).store.(convs := convs), ans)
  }

  lemma LevelExecute(a: Sys, tid: nat, id: string, convs: seq<Conversation>, ans: Answer) returns (a': Sys)
    requires Level(a) && OnlyUrgent(a, tid) && BothExec(a, tid, id, convs, ans)
    ensures Level(a') && a' == Executed(a, tid, a.store.(convs := convs), ans) && OnlyUrgent(a', tid)
    ensures !Urgent(a'.threads[tid]) ==> AtRest(a')
  {
    a' := Executed(a, tid, a.store.(convs := convs), ans);
    assert InTables(a') == Executed(InTables(a), tid, InTables(a).store.(convs := convs), ans);
    TogetherNext(a, InTables(a), Execute(tid, id, true), a', InTables(a'));
  }

  lemma LevelContinue(a: Sys, tid: nat) returns (a': Sys)
    requires Level(a) && AtRest(a) && tid in a.threads && a.threads[tid].Holding?
    requires Refresh(a.store, a.threads[tid].ans) == a.threads[tid].ans && !a.threads[tid].k.PreviewsRead?
    ensures Level(a') && a' == Continued(a, tid) && OnlyUrgent(a', tid)
  {
    a' := Continued(a, tid);
    assert InTables(a') == Continued(InTables(a), tid);
    TogetherNext(a, InTables(a), Continue(tid), a', InTables(a'));
  }

  lemma LevelInitial()
    ensures Level(Initial(InMemory, 0))
  {
    var a, b := Initial(InMemory, 0), Initial(Postgres, 0);
    assert b == InTables(a);
    var none: seq<Label> := [];
    assert Twins([a], [b], none) && [a][|none|] == a && [b][|none|] == b;
  }

  function Alone(readAt: Option<int>): Conversation {
    Conversation("c", [Participant("u", readAt, None)], 0)
  }

  lemma LevelAsked(call: Call) returns (a: Sys)
    requires call.Create? && GoodCall(call)
    ensures Level(a) && OnlyUrgent(a, 0) && a.store == Store(InMemory, [], []) && a.clock == 0
    ensures a.threads == map[0 := Waiting(call, AskGate(call.requester, call.pids),
      GateForCreate(call.requester, call.pids))]
  {
    LevelInitial();
    a := LevelBegin(Initial(InMemory, 0), 0, call);
  }

  lemma LevelGateSays(call: Call) returns (a: Sys)
    requires call.Create? && GoodCall(call)
    ensures Level(a) && AtRest(a) && a.store == Store(InMemory, [], []) && a.clock == 0
    ensures a.threads == map[0 := Holding(call, GateSays(true), GateForCreate(call.requester, call.pids))]
  {
    var s := LevelAsked(call);
    a := LevelExecute(s, 0, "", [], GateSays(true));
  }

  lemma LevelGranted() returns (a: Sys)
    ensures Level(a) && OnlyUrgent(a, 0) && a.store == Store(InMemory, [], []) && a.clock == 0
    ensures a.threads == map[0 := Waiting(Create("u", ["u"]), CreateConversation(["u"]), CreateWritten)]
  {
    var s := LevelGateSays(Create("u", ["u"]));
    assert Resume(GateForCreate("u", ["u"]), GateSays(true), 0) ==
      Go(Asking(CreateConversation(["u"]), CreateWritten));
    a := LevelContinue(s, 0);
  }

  /** A conversation of "u" alone is stored. */
  lemma LevelConversation() returns (a: Sys)
    ensures Level(a) && AtRest(a) && a.store == Store(InMemory, [Alone(None)], []) && a.threads.Keys == {0}
  {
    var s := LevelGranted();
    assert Conversation("c", Fresh(["u"]), 0) == Alone(None);
    a := LevelExecute(s, 0, "c", [Alone(None)], Created(Alone(None)));
  }

  /** A lookup by "u" has been answered and waits to continue. */
  lemma LevelLookup(a: Sys, tid: nat, c: Conversation, call: Call) returns (a': Sys)
    requires Level(a) && AtRest(a) && tid !in a.threads && a.store.convs == [c] && GoodCall(call)
    requires c.participants != [] && Start(call).Asking? && Start(call).op == FindConversation(c.id)
    ensures Level(a') && AtRest(a') && a'.store == a.store && a'.clock == a.clock
    ensures a'.threads == a.threads[tid := Holding(call, FoundConversation(Some(c)), Start(call).k)]
  {
    var s := LevelBegin(a, tid, call);
    assert Find(a.store.convs, c.id) == Some(c);
    a' := LevelExecute(s, tid, "", [c], FoundConversation(Some(c)));
  }

  lemma LevelMarking(a: Sys, tid: nat) returns (a': Sys)
    requires Level(a) && AtRest(a) && tid !in a.threads && a.store.convs == [Alone(None)]
    ensures Level(a') && OnlyUrgent(a', tid) && a'.store == a.store
    ensures a'.threads ==
      a.threads[tid := Waiting(MarkRead("c", "u", 5), MarkParticipant("c", "u", Read(5)), MarkWritten)]
  {
    var s := LevelLookup(a, tid, Alone(None), MarkRead("c", "u", 5));
    assert Find(a.store.convs, "c") == Some(Alone(None));
    MarkingGoesOn(s.clock);
    a' := LevelContinue(s, tid);
  }

  lemma MarkingGoesOn(now: int)
    ensures Resume(LookupForMarkRead("c", "u", 5), FoundConversation(Some(Alone(None))), now) ==
      Go(Asking(MarkParticipant("c", "u", Read(5)), MarkWritten))
  {
    assert UserIds(Alone(None).participants) == ["u"];
  }

  lemma AloneMarked()
    ensures Marked([Alone(None)], "c", "u", Read(5)) == [Alone(Some(5))]
  {
    assert StampFirst(Alone(None).participants, "u", Read(5)) == Alone(Some(5)).participants;
  }

  /** While thread 1 is where it is, a markRead changes the row. */
  lemma LevelMarked(a: Sys) returns (a': Sys)
    requires Level(a) && AtRest(a) && 1 in a.threads && 2 !in a.threads
    requires a.store == Store(InMemory, [Alone(None)], [])
    ensures Level(a') && AtRest(a') && a'.store == Store(InMemory, [Alone(Some(5))], [])
    ensures 1 in a'.threads && a'.threads[1] == a.threads[1]
  {
    var s := LevelMarking(a, 2);
    AloneMarked();
    a' := LevelExecute(s, 2, "", [Alone(Some(5))], Acknowledged);
  }

  lemma AloneDiffers()
    ensures !Same(Alone(Some(5)), Alone(None))
  {
    var ps, qs := Alone(Some(5)).participants, Alone(None).participants;
    assert ps[0] in multiset(ps) && ps[0] !in multiset(qs);
  }

  /** So the two stores can be told apart by calls that overlap: one and the same getConversation, in two runs with
      the same labels, replies the new read mark in memory and the old one over the database. */
  lemma OverlappingReadShows() returns (a: Sys, b: Sys, tid: nat)
    ensures Together(a, b) && tid in a.threads && tid in b.threads && a.threads[tid].Ended? && b.threads[tid].Ended?
    ensures a.threads[tid].call == b.threads[tid].call && !ReplySim(a.threads[tid].reply, b.threads[tid].reply)
  {
    var s0 := LevelConversation();
    var s1 := LevelLookup(s0, 1, Alone(None), Get("c", "u"));
    var s := LevelMarked(s1);
    tid := 1;
    a, b := Continued(s, 1), Continued(InTables(s), 1);
    TogetherNext(s, InTables(s), Continue(1), a, b);
    GetsDiffer(s);
  }

  lemma GetsDiffer(s: Sys)
    requires s.store == Store(InMemory, [Alone(Some(5))], []) && 1 in s.threads
    requires s.threads[1] == Holding(Get("c", "u"), FoundConversation(Some(Alone(None))), LookupForGet("c", "u"))
    ensures var x, y := Continued(s, 1).threads[1], Continued(InTables(s), 1).threads[1];
      x.Ended? && y.Ended? && x.call == y.call && !ReplySim(x.reply, y.reply)
  {
    AloneDiffers();
    assert UserIds(Alone(None).participants) == ["u"] && UserIds(Alone(Some(5)).participants) == ["u"];
    assert Find(s.store.convs, "c") == Some(Alone(Some(5)));
  }

  /** A listConversations has been told of the conversation and asks for its preview. */
  lemma LevelPreviewing() returns (a: Sys)
    ensures Level(a) && OnlyUrgent(a, 1) && a.store == Store(InMemory, [Alone(None)], []) && a.threads.Keys == {0, 1}
    ensures a.threads[1] == Waiting(ListConversations("u"), QueryPreviews([Some(PreviewQuery("c", None))]),
      PreviewsRead("u", [Entry(Alone(None), None, Pending)]))
  {
    var s := LevelListed();
    AloneIsCurrent(s.store);
    AloneIsQueried(s.clock);
    a := LevelContinue(s, 1);
  }

  lemma LevelListed() returns (a: Sys)
    ensures Level(a) && AtRest(a) && a.store == Store(InMemory, [Alone(None)], []) && a.threads.Keys == {0, 1}
    ensures a.threads[1] == Holding(ListConversations("u"), FoundConversations([Alone(None)]), AllForPreviews("u"))
  {
    var s := LevelListing();
    AloneIsFound(s);
    a := LevelExecute(s, 1, "", [Alone(None)], FoundConversations([Alone(None)]));
  }

  lemma LevelListing() returns (a: Sys)
    ensures Level(a) && OnlyUrgent(a, 1) && a.store == Store(InMemory, [Alone(None)], []) && a.threads.Keys == {0, 1}
    ensures a.threads[1] == Waiting(ListConversations("u"), FindByParticipant("u"), AllForPreviews("u"))
  {
    var s := LevelConversation();
    a := LevelBegin(s, 1, ListConversations("u"));
  }

  lemma AloneIsFound(a: Sys)
    requires a.store == Store(InMemory, [Alone(None)], []) && 1 in a.threads && a.threads[1].Waiting?
    requires a.threads[1].op == FindByParticipant("u")
    ensures BothExec(a, 1, "", [Alone(None)], FoundConversations([Alone(None)]))
  {
    AloneIsListed(a.store.convs);
    assert a.store.(convs := [Alone(None)]) == a.store;
  }

  lemma AloneIsQueried(now: int)
    ensures Resume(AllForPreviews("u"), FoundConversations([Alone(None)]), now) ==
      Go(Asking(QueryPreviews([Some(PreviewQuery("c", None))]), PreviewsRead("u", [Entry(Alone(None), None, Pending)])))
  {
    var es := [Entry(Alone(None), None, Pending)];
    assert Entries("u", [Alone(None)]) == es;
    assert Queries(es) == [Some(PreviewQuery("c", None))];
    assert !es[0].last.Known?;
  }

  lemma AloneIsListed(cs: seq<Conversation>)
    requires cs == [Alone(None)]
    ensures Concerning(cs, "u") == [Alone(None)] && SameConversations([Alone(None)], Concerning(cs, "u"))
  {
    assert UserIds(Alone(None).participants) == ["u"];
    assert cs[..0] == [] && cs[0] == Alone(None) && Concerning(cs[..0], "u") == [];
    assert Find(cs, "c") == Some(Alone(None));
  }

  lemma AloneIsCurrent(s: Store)
    requires s.kind.InMemory? && s.convs == [Alone(None)]
    ensures Refresh(s, FoundConversations([Alone(None)])) == FoundConversations([Alone(None)])
  {
    assert Find(s.convs, "c") == Some(Alone(None));
    assert Refresh(s, FoundConversations([Alone(None)])).list == [Alone(None)];
  }

  lemma NothingListed(kind: Kind, o: ListOptions)
    ensures Lists(kind, [], "c", o, [])
  {
    InMemoryIsPage([], "c", o);
    PagesArePossible([], "c", o, []);
  }

  /** And so can a listConversations, although its preview is read as soon as it asks: it holds the conversations until
      it replies. */
  lemma OverlappingListShows() returns (a: Sys, b: Sys, tid: nat)
    ensures Together(a, b) && tid in a.threads && tid in b.threads && a.threads[tid].Ended? && b.threads[tid].Ended?
    ensures a.threads[tid].call == b.threads[tid].call && a.threads[tid].call.ListConversations?
    ensures !ReplySim(a.threads[tid].reply, b.threads[tid].reply)
  {
    var s0 := LevelPreviewing();
    var s1 := LevelPreviewed(s0);
    var s := LevelMarked(s1);
    tid := 1;
    a, b := Continued(s, 1), Continued(InTables(s), 1);
    TogetherNext(s, InTables(s), Continue(1), a, b);
    ListsDiffer(s);
  }

  lemma LevelPreviewed(a: Sys) returns (a': Sys)
    requires Level(a) && OnlyUrgent(a, 1) && a.store == Store(InMemory, [Alone(None)], []) && 1 in a.threads
    requires a.threads[1] == Waiting(ListConversations("u"), QueryPreviews([Some(PreviewQuery("c", None))]),
      PreviewsRead("u", [Entry(Alone(None), None, Pending)]))
    ensures Level(a') && AtRest(a') && a'.store == a.store && a'.threads.Keys == a.threads.Keys
    ensures a'.threads[1] == Holding(ListConversations("u"), FoundPreview(0, []),
      PreviewsRead("u", [Entry(Alone(None), None, Pending)]))
  {
    NothingListed(InMemory, PreviewOptions(None));
    NothingListed(Postgres, PreviewOptions(None));
    a' := LevelExecute(a, 1, "", a.store.convs, FoundPreview(0, []));
    assert AllKnown(WithAnswer([Entry(Alone(None), None, Pending)], 0, []));
  }

  lemma ListsDiffer(s: Sys)
    requires s.store == Store(InMemory, [Alone(Some(5))], []) && 1 in s.threads
    requires s.threads[1] == Holding(ListConversations("u"), FoundPreview(0, []),
      PreviewsRead("u", [Entry(Alone(None), None, Pending)]))
    ensures var x, y := Continued(s, 1).threads[1], Continued(InTables(s), 1).threads[1];
      x.Ended? && y.Ended? && x.call == y.call && !ReplySim(x.reply, y.reply)
  {
    var e, f := Entry(Alone(Some(5)), None, Known(None)), Entry(Alone(None), None, Known(None));
    assert RefreshKept(s.store, s.threads[1].k).entries == [e.(last := Pending)];
    OneShown(e);
    OneShown(f);
    AloneDiffers();
    assert !PreviewSim([Preview(Alone(Some(5)), None)][0], [Preview(Alone(None), None)][0]);
  }

  lemma OneShown(e: Entry)
    requires e.last == Known(None) && e.clearedAt == None
    ensures AfterPreviews("u", WithAnswer([e.(last := Pending)], 0, [])) ==
      Finished(Previews([Preview(e.conversation, None)]))
  {
    assert WithAnswer([e.(last := Pending)], 0, []) == [e];
    assert [e][..0] == [] && ShownPreviews([e]) == [Preview(e.conversation, None)];
  }
}
