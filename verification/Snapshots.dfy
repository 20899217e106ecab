/** In memory `listConversations` previews one moment of the log; over Postgres, where its queries execute one by one,
    its previews may come from different moments. src/core/messaging-service.ts:80-100 */
module Snapshots {
  import opened Domain
  import opened Query
  import opened Stores
  import opened Service
  import opened Sequential
  import opened Machine
  import opened Concurrency
  import opened Safety
  import opened Overlap
  import opened AtOnce

  function IdOf(m: Option<Message>): Option<string> {
    if m.Some? then Some(m.value.id) else None
  }

  /** The last message of a conversation that `user` has not cleared. */
  function LastIn(s: Store, cid: string, user: string): Option<Message> {
    var c := Find(s.convs, cid);
    var after := if c.Some? then ClearedAt(c.value, user) else None;
    FirstOf(ListInMemory(s.msgs, cid, PreviewOptions(after)))
  }

  predicate ShownIn(s: Store, user: string, p: Preview) {
    Find(s.convs, p.conversation.id).Some? && IdOf(p.lastMessage) == IdOf(LastIn(s, p.conversation.id, user))
  }

  /** An entry was asked for, and has been answered if it has been, by store `s`. */
  predicate ReadIn(s: Store, user: string, e: Entry) {
    var c := Find(s.convs, e.conversation.id);
    && c.Some? && e.clearedAt == ClearedAt(c.value, user)
    && (e.last.Known? ==> IdOf(e.last.message) == IdOf(LastIn(s, e.conversation.id, user)))
  }

  predicate AllReadIn(s: Store, user: string, es: seq<Entry>) {
    forall i :: 0 <= i < |es| ==> ReadIn(s, user, es[i])
  }

  predicate AnswerReadIn(s: Store, user: string, es: seq<Entry>, ans: Answer) {
    && ans.FoundPreview? && ans.i < |es|
    && IdOf(FirstOf(ans.page)) == IdOf(LastIn(s, es[ans.i].conversation.id, user))
  }

  /** What a list knows in state n it has read in state i. */
  predicate ReadAt(ss: seq<Sys>, i: nat, n: nat, tid: nat)
    requires n < |ss| && tid in ss[n].threads
  {
    i <= n && HasRead(ss[i].store, ss[n].store, ss[n].threads[tid])
  }

  lemma AsksIn(s: Store, user: string, list: seq<Conversation>)
    requires s.kind.InMemory? && forall i :: 0 <= i < |list| ==> ConversationOk(s, list[i])
    ensures AllReadIn(s, user, Entries(user, Refresh(s, FoundConversations(list)).list))
  {
    var now := Refresh(s, FoundConversations(list)).list;
    forall i | 0 <= i < |now|
      ensures Find(s.convs, now[i].id) == Some(now[i])
    {
      var j :| 0 <= j < |s.convs| && s.convs[j].id == list[i].id;
    }
  }

  lemma AnsweredIn(s: Store, user: string, es: seq<Entry>, env: Env, s': Store, ans: Answer)
    requires s.kind.InMemory? && AllReadIn(s, user, es) && Exec(s, QueryPreviews(Queries(es)), env, s', ans)
    ensures s' == s && AnswerReadIn(s, user, es, ans)
  {
    assert ReadIn(s, user, es[ans.i]);
  }

  lemma SameIdNow(s: Store, m: Message)
    ensures CurrentMessage(s, m).id == m.id
  {
  }

  lemma SameIdConversation(s: Store, c: Conversation)
    ensures CurrentConversation(s, c).id == c.id
  {
  }

  /** Looked at later, in `now`, what was read in `s` is what was read. */
  lemma KeptIn(s: Store, now: Store, user: string, es: seq<Entry>, i: nat, page: seq<Message>)
    requires AllReadIn(s, user, es) && AnswerReadIn(s, user, es, FoundPreview(i, page)) && now.kind.InMemory?
    ensures var kept := RefreshKept(now, PreviewsRead(user, es)).entries;
      |kept| == |es| && AllReadIn(s, user, WithAnswer(kept, i, CurrentPage(now, page)))
      && (AllKnown(WithAnswer(kept, i, CurrentPage(now, page))) <==> AllKnown(WithAnswer(es, i, page)))
  {
    var kept := RefreshKept(now, PreviewsRead(user, es)).entries;
    var es' := WithAnswer(kept, i, CurrentPage(now, page));
    forall j | 0 <= j < |es|
      ensures ReadIn(s, user, es'[j]) && (es'[j].last.Known? <==> WithAnswer(es, i, page)[j].last.Known?)
    {
      assert ReadIn(s, user, es[j]);
      SameIdConversation(now, es[j].conversation);
      if page != [] {
        SameIdNow(now, page[0]);
      }
      if es[j].last.Known? && es[j].last.message.Some? {
        SameIdNow(now, es[j].last.message.value);
      }
    }
  }

  lemma ShownAreIn(s: Store, user: string, es: seq<Entry>)
    requires AllReadIn(s, user, es)
    ensures forall p :: p in ShownPreviews(es) ==> ShownIn(s, user, p)
  {
    forall p | p in ShownPreviews(es)
      ensures ShownIn(s, user, p)
    {
      ShownMeaning(es, p);
      var i :| 0 <= i < |es| && ToShow(es[i]) && p == Preview(es[i].conversation, es[i].last.message);
      assert ReadIn(s, user, es[i]);
    }
  }

  lemma ContinuesReadAt(ss: seq<Sys>, ls: seq<Label>, i: nat, n: nat, tid: nat) returns (j: nat)
    requires RunsAtOnce(ss, ls) && n < |ls| && ls[n] == Continue(tid) && tid in ss[n].threads && ReadAt(ss, i, n, tid)
    ensures tid in ss[n + 1].threads && ReadAt(ss, j, n + 1, tid)
  {
    assert Moves(ss, ls, n);
    RunInv(ss, ls, n);
    SameKind(ss, ls, 0, n);
    var s, th := ss[n], ss[n].threads[tid];
    assert ThreadOk(s.store, s.grants, tid, th);
    if th.k.AllForPreviews? {
      j := n + 1;
      ListAsks(s.store, th.call, th.k.user, th.ans.list, s.clock);
    } else if th.k.PreviewsRead? {
      j := i;
      ListReads(ss[i].store, s.store, th, s.clock);
    } else {
      j := n + 1;
      NoPreviews(Refresh(s.store, th.ans), th.k, s.clock);
    }
  }

  /** The thread has read in store `s`, which is still `now` if it has more to read. */
  predicate HasRead(s: Store, now: Store, th: Thread) {
    match th
    case Waiting(_, _, k) => k.PreviewsRead? ==> AllReadIn(s, k.user, k.entries) && s == now
    case Holding(_, ans, k) =>
      k.PreviewsRead? ==>
        && AllReadIn(s, k.user, k.entries) && AnswerReadIn(s, k.user, k.entries, ans)
        && (Urgent(th) ==> s == now)
    case Ended(call, reply) =>
      call.ListConversations? && reply.Previews? ==> forall p :: p in reply.previews ==> ShownIn(s, call.user, p)
  }

  lemma ListAsks(s: Store, call: Call, user: string, list: seq<Conversation>, now: int)
    requires s.kind.InMemory? && call == ListConversations(user)
    requires forall i :: 0 <= i < |list| ==> ConversationOk(s, list[i])
    ensures var u := Resume(AllForPreviews(user), Refresh(s, FoundConversations(list)), now);
      HasRead(s, s, AsThread(call, u.phase))
  {
    AsksIn(s, user, list);
    GoesOnIn(s, user, Entries(user, Refresh(s, FoundConversations(list)).list));
  }

  lemma ListReads(s: Store, now: Store, th: Thread, clock: int)
    requires now.kind.InMemory? && th.Holding? && th.k.PreviewsRead? && HasRead(s, now, th)
    requires th.call == ListConversations(th.k.user)
    ensures var u := Resume(RefreshKept(now, th.k), Refresh(now, th.ans), clock);
      HasRead(s, now, AsThread(th.call, u.phase))
  {
    var page, i := CurrentPage(now, th.ans.page), th.ans.i;
    var kept := RefreshKept(now, th.k);
    KeptIn(s, now, th.k.user, th.k.entries, i, th.ans.page);
    GoesOnIn(s, th.k.user, WithAnswer(kept.entries, i, page));
    assert Resume(kept, FoundPreview(i, page), clock) ==
      Go(AfterPreviews(th.k.user, WithAnswer(kept.entries, i, page)));
    assert !AllKnown(WithAnswer(kept.entries, i, page)) ==> Urgent(th);
  }

  lemma GoesOnIn(s: Store, user: string, es: seq<Entry>)
    requires AllReadIn(s, user, es)
    ensures var p := AfterPreviews(user, es);
      if p.Asking? then p.k == PreviewsRead(user, es)
      else p.reply.Previews? && forall q :: q in p.reply.previews ==> ShownIn(s, user, q)
  {
    ShownAreIn(s, user, es);
  }

  lemma NoPreviews(ans: Answer, k: Cont, now: int)
    requires !k.AllForPreviews? && !k.PreviewsRead?
    ensures var p := Resume(k, ans, now).phase;
      if p.Asking? then !p.k.PreviewsRead? else !p.reply.Previews?
  {
  }

  lemma ExecutesReadAt(ss: seq<Sys>, ls: seq<Label>, i: nat, n: nat, tid: nat)
    requires RunsAtOnce(ss, ls) && n < |ls| && ls[n].Execute? && ls[n].tid == tid
    requires tid in ss[n].threads && ReadAt(ss, i, n, tid)
    ensures tid in ss[n + 1].threads && ReadAt(ss, i, n + 1, tid)
  {
    assert Moves(ss, ls, n);
    RunInv(ss, ls, n);
    SameKind(ss, ls, 0, n);
    var s, th := ss[n], ss[n].threads[tid];
    assert ThreadOk(s.store, s.grants, tid, th);
    var env := Env(ls[n].id, s.clock, ls[n].gate);
    var ans :| Exec(s.store, th.op, env, ss[n + 1].store, ans) && ss[n + 1] == Executed(s, tid, ss[n + 1].store, ans);
    if th.k.PreviewsRead? {
      AnsweredIn(s.store, th.k.user, th.k.entries, env, ss[n + 1].store, ans);
    }
  }

  /** A list that is reading is not interrupted. */
  lemma RestsReadAt(ss: seq<Sys>, ls: seq<Label>, i: nat, n: nat, tid: nat)
    requires RunsAtOnce(ss, ls) && n < |ls| && tid in ss[n].threads && ReadAt(ss, i, n, tid)
    requires ls[n].Tick? || ls[n].tid != tid
    ensures tid in ss[n + 1].threads && ReadAt(ss, i, n + 1, tid)
  {
    assert Moves(ss, ls, n) && Heeds(ss[n], ls[n]);
    RunInv(ss, ls, n);
    var th := ss[n].threads[tid];
    assert ThreadOk(ss[n].store, ss[n].grants, tid, th);
  }

  lemma {:induction false} ReadSometime(ss: seq<Sys>, ls: seq<Label>, n: nat, tid: nat) returns (i: nat)
    requires RunsAtOnce(ss, ls) && n < |ss| && tid in ss[n].threads
    ensures ReadAt(ss, i, n, tid)
  {
    assert n > 0;
    var l := ls[n - 1];
    assert Moves(ss, ls, n - 1);
    if tid !in ss[n - 1].threads {
      i := n;
    } else {
      i := ReadSometime(ss, ls, n - 1, tid);
      if l.Tick? || l.tid != tid {
        RestsReadAt(ss, ls, i, n - 1, tid);
      } else if l.Execute? {
        ExecutesReadAt(ss, ls, i, n - 1, tid);
      } else {
        i := ContinuesReadAt(ss, ls, i, n - 1, tid);
      }
    }
  }

  /** In memory, whatever runs beside it, a listConversations previews what was last in each conversation at one and the
      same moment. */
  lemma ListIsSnapshot(ss: seq<Sys>, ls: seq<Label>, n: nat, tid: nat) returns (i: nat)
    requires RunsAtOnce(ss, ls) && n < |ss| && tid in ss[n].threads && ss[n].threads[tid].Ended?
    requires ss[n].threads[tid].call.ListConversations? && ss[n].threads[tid].reply.Previews?
    ensures i <= n
    ensures forall p :: p in ss[n].threads[tid].reply.previews ==> ShownIn(ss[i].store, ss[n].threads[tid].call.user, p)
  {
    i := ReadSometime(ss, ls, n, tid);
  }

  // Over Postgres: a list asks for two previews; after the first has been read, something is sent to either
  // conversation.

  function Pair(id: string): Conversation {
    Conversation(id, [Participant("a", None, None), Participant("b", None, None)], 0)
  }

  function Sent(id: string, cid: string, at: int): Message {
    Message(id, cid, "a", "x", at, None)
  }

  lemma PairFacts(id: string)
    ensures UserIds(Pair(id).participants) == ["a", "b"] && IsParticipant(Pair(id), "a")
    ensures ClearedAt(Pair(id), "a") == None && Conversation(id, Fresh(["a", "b"]), 0) == Pair(id)
  {
  }

  lemma ReachGrantedCreate(s: Sys, tid: nat) returns (s': Sys)
    requires Reachable(s) && s.store.kind.Postgres? && tid !in s.threads
    ensures Reachable(s') && s'.store == s.store && s'.clock == s.clock
    ensures s'.threads ==
      s.threads[tid := Waiting(Create("a", ["a", "b"]), CreateConversation(["a", "b"]), CreateWritten)]
  {
    var s1 := ReachBegin(s, tid, Create("a", ["a", "b"]));
    s' := ReachTurn(s1, tid, "", s.store, GateSays(true));
  }

  lemma ReachPair(s: Sys, tid: nat, id: string) returns (s': Sys)
    requires Reachable(s) && s.store.kind.Postgres? && s.clock == 0
    requires tid !in s.threads && Find(s.store.convs, id).None?
    ensures Reachable(s') && s'.store == s.store.(convs := s.store.convs + [Pair(id)]) && s'.clock == 0
    ensures s'.threads.Keys == s.threads.Keys + {tid}
  {
    var s1 := ReachGrantedCreate(s, tid);
    PairFacts(id);
    assert NoDuplicates(["a", "b"]);
    s' := ReachTurn(s1, tid, id, s.store.(convs := s.store.convs + [Pair(id)]), Created(Pair(id)));
  }

  lemma ReachTwo() returns (s: Sys)
    ensures Reachable(s) && s.store == Store(Postgres, [Pair("c"), Pair("d")], []) && s.clock == 0
    ensures s.threads.Keys == {0, 1}
  {
    ReachInitial(0);
    var s1 := ReachPair(Initial(Postgres, 0), 0, "c");
    assert Find([Pair("c")], "d").None?;
    s := ReachPair(s1, 1, "d");
    assert [] + [Pair("c")] + [Pair("d")] == [Pair("c"), Pair("d")];
  }

  lemma BothFound(env: Env, s: Store)
    requires s == Store(Postgres, [Pair("c"), Pair("d")], [])
    ensures Exec(s, FindByParticipant("a"), env, s, FoundConversations(s.convs))
  {
    PairFacts("c");
    PairFacts("d");
    var cs := s.convs;
    assert cs[..1] == [Pair("c")] && cs[..1][..0] == [] && Concerning(cs[..1][..0], "a") == [];
    assert Concerning(cs[..1], "a") == [Pair("c")];
    assert Concerning(cs, "a") == cs;
    forall c | c in cs
      ensures Find(cs, c.id) == Some(c)
    {
    }
  }

  function Asked(last: LastKnown): seq<Entry> {
    [Entry(Pair("c"), None, last), Entry(Pair("d"), None, Pending)]
  }

  lemma AsksBoth(now: int)
    ensures var p := Asking(QueryPreviews(Queries(Asked(Pending))), PreviewsRead("a", Asked(Pending)));
      Resume(AllForPreviews("a"), FoundConversations([Pair("c"), Pair("d")]), now) == Go(p)
  {
    PairFacts("c");
    PairFacts("d");
    assert Entries("a", [Pair("c"), Pair("d")]) == Asked(Pending);
    assert !Asked(Pending)[0].last.Known?;
  }

  lemma ReachAsking() returns (s: Sys)
    ensures Reachable(s) && s.store == Store(Postgres, [Pair("c"), Pair("d")], []) && s.threads.Keys == {0, 1, 2}
    ensures s.clock == 0
    ensures s.threads[2] ==
      Waiting(ListConversations("a"), QueryPreviews(Queries(Asked(Pending))), PreviewsRead("a", Asked(Pending)))
  {
    var s0 := ReachTwo();
    var s1 := ReachBegin(s0, 2, ListConversations("a"));
    BothFound(Env("", 0, true), s0.store);
    AsksBoth(0);
    s := ReachTurn(s1, 2, "", s0.store, FoundConversations(s0.store.convs));
  }

  lemma AsksOne(now: int)
    ensures var es := Asked(Known(None));
      Resume(PreviewsRead("a", Asked(Pending)), FoundPreview(0, []), now) ==
        Go(Asking(QueryPreviews(Queries(es)), PreviewsRead("a", es)))
  {
    assert WithAnswer(Asked(Pending), 0, []) == Asked(Known(None));
    assert !Asked(Known(None))[1].last.Known?;
  }

  lemma NothingThere(cid: string)
    ensures Lists(Postgres, [], cid, PreviewOptions(None), [])
  {
    InMemoryIsPage([], cid, PreviewOptions(None));
    PagesArePossible([], cid, PreviewOptions(None), []);
  }

  /** The first preview has been read, and found nothing. */
  lemma ReachOne() returns (s: Sys)
    ensures Reachable(s) && s.store == Store(Postgres, [Pair("c"), Pair("d")], []) && s.threads.Keys == {0, 1, 2}
    ensures s.clock == 0
    ensures s.threads[2] == Waiting(ListConversations("a"), QueryPreviews(Queries(Asked(Known(None)))),
      PreviewsRead("a", Asked(Known(None))))
  {
    var s0 := ReachAsking();
    NothingThere("c");
    AsksOne(0);
    s := ReachTurn(s0, 2, "", s0.store, FoundPreview(0, []));
  }

  lemma PairLookup(s: Sys, id: string)
    requires s.store.kind.Postgres? && s.store.convs == [Pair("c"), Pair("d")] && (id == "c" || id == "d")
    ensures Lookup(s, Pair(id), "a")
  {
    PairFacts(id);
  }

  /** Something has been sent to the first conversation, and then to the second. */
  lemma ReachSentBoth() returns (s: Sys)
    ensures Reachable(s) && 2 in s.threads
    ensures s.store == Store(Postgres, [Pair("c"), Pair("d")], [Sent("m", "c", 1), Sent("n", "d", 2)])
    ensures s.threads[2] == Waiting(ListConversations("a"), QueryPreviews(Queries(Asked(Known(None)))),
      PreviewsRead("a", Asked(Known(None))))
  {
    var s0 := ReachOne();
    var s1 := ReachTick(s0, 1);
    PairLookup(s1, "c");
    var s2 := ReachSend(s1, 3, Pair("c"), "a", "m");
    var s3 := ReachTick(s2, 2);
    PairLookup(s3, "d");
    assert FindById([Sent("m", "c", 1)], "n").None?;
    s := ReachSend(s3, 4, Pair("d"), "a", "n");
    assert [] + [Sent("m", "c", 1)] + [Sent("n", "d", 2)] == [Sent("m", "c", 1), Sent("n", "d", 2)];
  }

  lemma LastsOf(m: Message, n: Message)
    requires m == Sent("m", "c", 1) && n == Sent("n", "d", 2)
    ensures ListInMemory([m, n], "d", PreviewOptions(None)) == [n]
    ensures ListInMemory([m, n], "c", PreviewOptions(None)) == [m]
    ensures ListInMemory([m], "c", PreviewOptions(None)) == [m]
    ensures ListInMemory([m], "d", PreviewOptions(None)) == [] == ListInMemory([], "d", PreviewOptions(None))
  {
    LastOfOne(m, "c");
    LastOfOne(m, "d");
    LastOfTwo(m, n, "c");
    LastOfTwo(m, n, "d");
    SortedIsSort([]);
  }

  lemma FilterOne(m: Message, q: Criteria)
    ensures Filter([m], q) == if Meets(m, q) then [m] else []
  {
    FilterAppend([], m, q);
    assert [] + [m] == [m];
  }

  lemma LastOfOne(m: Message, cid: string)
    ensures ListInMemory([m], cid, PreviewOptions(None)) == if m.conversationId == cid then [m] else []
  {
    FilterOne(m, Where(cid, PreviewOptions(None)));
    SortedIsSort([m]);
    SortedIsSort([]);
  }

  lemma LastOfTwo(m: Message, n: Message, cid: string)
    requires m.conversationId != n.conversationId && (cid == m.conversationId || cid == n.conversationId)
    ensures ListInMemory([m, n], cid, PreviewOptions(None)) == if m.conversationId == cid then [m] else [n]
  {
    var q := Where(cid, PreviewOptions(None));
    FilterOne(m, q);
    FilterAppend([m], n, q);
    assert [m] + [n] == [m, n];
    var last := if m.conversationId == cid then m else n;
    assert Filter([m, n], q) == [last];
    SortedIsSort([last]);
    assert Suffix([last], 1) == [last];
  }

  function Torn(n: Message): seq<Preview> {
    [Preview(Pair("c"), None), Preview(Pair("d"), Some(n))]
  }

  lemma RepliesTorn(n: Message, now: int)
    ensures Resume(PreviewsRead("a", Asked(Known(None))), FoundPreview(1, [n]), now) ==
      Go(Finished(Previews(Torn(n))))
  {
    var c, d := Entry(Pair("c"), None, Known(None)), Entry(Pair("d"), None, Known(Some(n)));
    assert WithAnswer(Asked(Known(None)), 1, [n]) == [c, d];
    ShownLast([], c);
    assert [] + [c] == [c] && ShownPreviews([]) == [];
    assert ShownPreviews([c]) == [Preview(Pair("c"), None)];
    ShownLast([c], d);
    assert [c] + [d] == [c, d];
    assert ShownPreviews([c, d]) == Torn(n);
    assert AllKnown([c, d]);
    assert FirstOf([n]) == Some(n);
  }

  lemma ShownLast(es: seq<Entry>, e: Entry)
    ensures ShownPreviews(es + [e]) ==
      ShownPreviews(es) + if ToShow(e) then [Preview(e.conversation, e.last.message)] else []
  {
    assert (es + [e])[..|es|] == es;
  }

  /** A reachable Postgres state in which a list has replied that the first conversation is empty although the second
      shows a message sent later than one to the first: whatever part of the log was there, it never looked like
      that. */
  lemma TornListShows() returns (s: Sys, m: Message, n: Message)
    ensures Reachable(s) && s.store.kind.Postgres? && s.store.msgs == [m, n] && 2 in s.threads
    ensures s.threads[2] == Ended(ListConversations("a"), Previews(Torn(n)))
    ensures forall k :: 0 <= k <= |s.store.msgs| ==>
      var t := s.store.(msgs := s.store.msgs[..k]);
      !ShownIn(t, "a", Torn(n)[0]) || !ShownIn(t, "a", Torn(n)[1])
  {
    s, m, n := ReachTorn();
    forall k | 0 <= k <= 2
      ensures var t := s.store.(msgs := s.store.msgs[..k]);
        !ShownIn(t, "a", Torn(n)[0]) || !ShownIn(t, "a", Torn(n)[1])
    {
      assert [m, n][..0] == [] && [m, n][..1] == [m] && [m, n][..2] == [m, n];
      NeverSo(s.store.(msgs := [m, n][..k]), m, n);
    }
  }

  lemma ReachTorn() returns (s: Sys, m: Message, n: Message)
    ensures Reachable(s) && m == Sent("m", "c", 1) && n == Sent("n", "d", 2) && 2 in s.threads
    ensures s.store == Store(Postgres, [Pair("c"), Pair("d")], [m, n])
    ensures s.threads[2] == Ended(ListConversations("a"), Previews(Torn(n)))
  {
    var s0 := ReachSentBoth();
    m, n := Sent("m", "c", 1), Sent("n", "d", 2);
    LastsOf(m, n);
    LastQueried(m, n);
    RepliesTorn(n, s0.clock);
    s := ReachTurn(s0, 2, "", s0.store, FoundPreview(1, [n]));
  }

  lemma LastQueried(m: Message, n: Message)
    requires ListInMemory([m, n], "d", PreviewOptions(None)) == [n]
    ensures Lists(Postgres, [m, n], "d", PreviewOptions(None), [n])
  {
    InMemoryIsPage([m, n], "d", PreviewOptions(None));
    PagesArePossible([m, n], "d", PreviewOptions(None), [n]);
  }

  lemma NeverSo(t: Store, m: Message, n: Message)
    requires t.convs == [Pair("c"), Pair("d")] && m == Sent("m", "c", 1) && n == Sent("n", "d", 2)
    requires t.msgs == [] || t.msgs == [m] || t.msgs == [m, n]
    ensures !ShownIn(t, "a", Torn(n)[0]) || !ShownIn(t, "a", Torn(n)[1])
  {
    LastsOf(m, n);
    if t.msgs == [] {
      NeverShown(t, "d", Preview(Pair("d"), Some(n)));
    } else {
      NeverShown(t, "c", Preview(Pair("c"), None));
    }
  }

  lemma NeverShown(t: Store, cid: string, p: Preview)
    requires t.convs == [Pair("c"), Pair("d")] && (cid == "c" || cid == "d") && p.conversation == Pair(cid)
    requires IdOf(p.lastMessage) != IdOf(FirstOf(ListInMemory(t.msgs, cid, PreviewOptions(None))))
    ensures !ShownIn(t, "a", p)
  {
    PairFacts(cid);
    assert Find(t.convs, cid) == Some(Pair(cid));
  }
}
