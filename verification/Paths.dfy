/** The steps that keep memory in step with a run over Postgres are steps of a run in which every operation of the
    in-memory stores executes when it is asked for. */
module Paths {
  import opened Domain
  import opened Query
  import opened Paging
  import opened Stores
  import opened Service
  import opened Sequential
  import opened Machine
  import opened Coupling
  import opened AtOnce

  /** A run in memory, so far. */
  datatype Path = Path(states: seq<Sys>, labels: seq<Label>)

  ghost predicate Leads(p: Path, a: Sys) {
    RunsAtOnce(p.states, p.labels) && p.states[|p.labels|] == a
  }

  ghost predicate Extends(p: Path, q: Path) {
    p.states <= q.states && p.labels <= q.labels
  }

  lemma Goes(p: Path, a: Sys, l: Label, a': Sys) returns (q: Path)
    requires Leads(p, a) && Heeds(a, l) && Next(a, l, a')
    ensures Leads(q, a') && Extends(p, q)
  {
    GoesOn(p.states, p.labels, l, a');
    q := Path(p.states + [a'], p.labels + [l]);
  }

  /** Only thread `tid` of `a1` is not as in `a`. */
  ghost predicate OnlyMoved(a: Sys, tid: nat, a1: Sys) {
    tid in a1.threads && a1.threads == a.threads[tid := a1.threads[tid]]
  }

  lemma HeedsThread(a: Sys, tid: nat, a1: Sys, l: Label)
    requires AtRest(a) && OnlyMoved(a, tid, a1) && (l.Execute? || l.Continue?) && l.tid == tid
    ensures Heeds(a1, l)
  {
  }

  /** A call asks and is answered at once. */
  lemma GoesTwice(p: Path, a: Sys, l: Label, tid: nat, a1: Sys, id: string, gate: bool, a': Sys) returns (q: Path)
    requires Leads(p, a) && AtRest(a) && Next(a, l, a1) && OnlyMoved(a, tid, a1)
    requires Next(a1, Execute(tid, id, gate), a')
    ensures Leads(q, a') && Extends(p, q)
  {
    var p1 := Goes(p, a, l, a1);
    HeedsThread(a, tid, a1, Execute(tid, id, gate));
    q := Goes(p1, a1, Execute(tid, id, gate), a');
  }

  lemma CoupledAtRest(a: Sys, b: Sys, waits: seq<nat>)
    requires Coupled(a, b, waits)
    ensures AtRest(a)
  {
    forall tid | tid in a.threads
      ensures !Urgent(a.threads[tid])
    {
      assert ThreadCoupled(a, b, tid);
      RestsAlike(a.threads[tid], b.threads[tid]);
    }
  }

  lemma RestsAlike(x: Thread, y: Thread)
    requires ThreadAlike(x, y)
    ensures !Urgent(x)
  {
  }

  // A list reads its previews, one after the other, with nothing in between.

  /** What it keeps is what the store holds. */
  predicate Current(s: Store, es: seq<Entry>) {
    forall i :: 0 <= i < |es| ==> CurrentEntry(s, es[i]) == es[i]
  }

  /** The first n entries have been read. */
  predicate ReadSoFar(s: Store, es: seq<Entry>, n: nat) {
    && n <= |es|
    && (forall i :: 0 <= i < n ==> es[i] == Filled(s, es[i]))
    && (forall i :: n <= i < |es| ==> es[i].last == Pending)
  }

  lemma MessageIsCurrent(s: Store, m: Message)
    requires DistinctIds(s.msgs) && m in s.msgs
    ensures CurrentMessage(s, m) == m
  {
    var i :| 0 <= i < |s.msgs| && s.msgs[i] == m;
    FindByIdUnique(s.msgs, i);
  }

  lemma PageIsCurrent(s: Store, cid: string, o: ListOptions)
    requires DistinctIds(s.msgs)
    ensures var page := ListInMemory(s.msgs, cid, o);
      CurrentPage(s, page) == page
      && (page != [] ==> CurrentMessage(s, page[0]) == page[0])
  {
    var page := ListInMemory(s.msgs, cid, o);
    forall i | 0 <= i < |page|
      ensures CurrentMessage(s, page[i]) == page[i]
    {
      ListsStored(InMemory, s.msgs, cid, o, page, page[i]);
      MessageIsCurrent(s, page[i]);
    }
  }

  /** The state of the list while it waits for its previews. */
  function Reading(a: Sys, tid: nat, call: Call, user: string, es: seq<Entry>): Sys {
    a.(threads := a.threads[tid := AsThread(call, AfterPreviews(user, es))])
  }

  lemma ReadsOne(a: Sys, tid: nat, call: Call, user: string, es: seq<Entry>, n: nat) returns (a1: Sys, es': seq<Entry>)
    requires a.store.kind.InMemory? && DistinctIds(a.store.msgs) && Current(a.store, es)
    requires ReadSoFar(a.store, es, n) && n < |es|
    ensures OnlyMoved(a, tid, a1) && a1.threads[tid].Holding?
    ensures Next(Reading(a, tid, call, user, es), Execute(tid, "", true), a1)
    ensures Next(a1, Continue(tid), Reading(a, tid, call, user, es'))
    ensures |es'| == |es| && ReadSoFar(a.store, es', n + 1) && Current(a.store, es')
    ensures AllFilled(a.store, es') == AllFilled(a.store, es)
  {
    var s, e := a.store, es[n];
    var page := ListInMemory(s.msgs, e.conversation.id, PreviewOptions(e.clearedAt));
    var ans := FoundPreview(n, page);
    assert !AllKnown(es);
    var r := Reading(a, tid, call, user, es);
    assert Exec(s, QueryPreviews(Queries(es)), Env("", a.clock, true), s, ans);
    a1 := Executed(r, tid, s, ans);
    assert Next(r, Execute(tid, "", true), a1);
    PageIsCurrent(s, e.conversation.id, PreviewOptions(e.clearedAt));
    es' := WithAnswer(es, n, page);
    assert es'[n] == Filled(s, e);
    assert RefreshKept(s, PreviewsRead(user, es)).entries == es;
    ContinuesReading(a1, tid, call, user, es, n, page);
    assert AllFilled(s, es') == AllFilled(s, es);
  }

  lemma ContinuesReading(a1: Sys, tid: nat, call: Call, user: string, es: seq<Entry>, n: nat, page: seq<Message>)
    requires a1.store.kind.InMemory? && n < |es| && tid in a1.threads
    requires a1.threads[tid] == Holding(call, FoundPreview(n, page), PreviewsRead(user, es))
    requires RefreshKept(a1.store, PreviewsRead(user, es)).entries == es && CurrentPage(a1.store, page) == page
    ensures Next(a1, Continue(tid), Reading(a1, tid, call, user, WithAnswer(es, n, page)))
  {
    assert a1.published + Posts(tid, []) == a1.published && a1.notified + Pushes(tid, []) == a1.notified;
  }

  lemma {:induction false} ReadsAll(p: Path, a: Sys, tid: nat, call: Call, user: string, es: seq<Entry>, n: nat)
    returns (q: Path)
    requires AtRest(a) && a.store.kind.InMemory? && DistinctIds(a.store.msgs) && Current(a.store, es)
    requires Leads(p, Reading(a, tid, call, user, es)) && ReadSoFar(a.store, es, n)
    ensures Extends(p, q)
    ensures Leads(q, a.(threads := a.threads[tid := Ended(call, Previews(ShownPreviews(AllFilled(a.store, es))))]))
    decreases |es| - n
  {
    if n == |es| {
      assert AllFilled(a.store, es) == es;
      q := p;
    } else {
      var a1, es' := ReadsOne(a, tid, call, user, es, n);
      var r, r' := Reading(a, tid, call, user, es), Reading(a, tid, call, user, es');
      HeedsThread(a, tid, r, Execute(tid, "", true));
      var p1 := Goes(p, r, Execute(tid, "", true), a1);
      HeedsThread(a, tid, a1, Continue(tid));
      var p2 := Goes(p1, a1, Continue(tid), r');
      q := ReadsAll(p2, a, tid, call, user, es', n + 1);
    }
  }

  lemma ListIsCurrent(s: Store, user: string, list: seq<Conversation>)
    requires s.kind.InMemory?
    ensures Current(s, Entries(user, Refresh(s, FoundConversations(list)).list))
  {
    var now := Refresh(s, FoundConversations(list)).list;
    forall i | 0 <= i < |now|
      ensures CurrentConversation(s, now[i]) == now[i]
    {
    }
  }

  /** So what the coupling does in one step is a run: the list asks, reads, and replies. */
  lemma GoesListing(p: Path, a: Sys, tid: nat) returns (q: Path)
    requires Leads(p, a) && AtRest(a) && a.store.kind.InMemory? && DistinctIds(a.store.msgs)
    requires tid in a.threads && a.threads[tid].Holding?
    requires a.threads[tid].ans.FoundConversations? && a.threads[tid].k.AllForPreviews?
    ensures Leads(q, ListedNow(a, tid)) && Extends(p, q)
  {
    var th := a.threads[tid];
    var user, list := th.k.user, Refresh(a.store, th.ans).list;
    var es := Entries(user, list);
    assert a.published + Posts(tid, []) == a.published && a.notified + Pushes(tid, []) == a.notified;
    var r := Reading(a, tid, th.call, user, es);
    assert Continued(a, tid) == r;
    ListIsCurrent(a.store, user, th.ans.list);
    var p1 := Goes(p, a, Continue(tid), r);
    q := ReadsAll(p1, a, tid, th.call, user, es, 0);
  }
}
