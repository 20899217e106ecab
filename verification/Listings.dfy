/** `listMessages` calls in flight: what one replies was queried while it ran, bounded by a clear that was in force
    while it ran. src/core/messaging-service.ts:137-152 */
module Listings {
  import opened Domain
  import opened Query
  import opened Stores
  import opened Service
  import opened Machine
  import opened Concurrency
  import opened Safety
  import opened Cleared
  import opened Overlap

  ghost predicate During(ss: seq<Sys>, i: nat, tid: nat) {
    i < |ss| && tid in ss[i].threads && !ss[i].threads[tid].Ended?
  }

  /** In state i, while the call ran, `at` was the latest clear. */
  ghost predicate ClearRead(ss: seq<Sys>, ls: seq<Label>, i: nat, tid: nat, cid: string, user: string, at: Option<int>)
    requires |ss| == |ls| + 1
  {
    During(ss, i, tid) && LatestClear(ss, ls, i, cid, user) == at
  }

  ghost predicate MayAnswer(s: Store, cid: string, o: ListOptions, page: seq<Message>) {
    exists env :: Exec(s, ListMessages(cid, o), env, s, FoundMessages(page))
  }

  /** The call executed the query in state e, and it answered `page`. */
  ghost predicate Queried(ss: seq<Sys>, e: nat, tid: nat, cid: string, o: ListOptions, page: seq<Message>) {
    During(ss, e, tid) && MayAnswer(ss[e].store, cid, o, page)
  }

  /** The page as the call sees it in a later state: in memory it holds the messages themselves. */
  function SeenIn(s: Store, page: seq<Message>): seq<Message> {
    Refresh(s, FoundMessages(page)).page
  }

  /** The clear the call read before state j, in some state i. */
  ghost predicate HasRead(ss: seq<Sys>, ls: seq<Label>, i: nat, j: nat, tid: nat, cid: string, user: string,
        at: Option<int>)
    requires |ss| == |ls| + 1
  {
    i <= j && ClearRead(ss, ls, i, tid, cid, user, at)
  }

  /** The call has read the clear in state i, and queried in step e before state j. */
  ghost predicate HasQueried(
    ss: seq<Sys>, ls: seq<Label>, i: nat, e: nat, j: nat, tid: nat, cid: string, user: string, o: ListOptions,
      page: seq<Message>)
    requires |ss| == |ls| + 1
  {
    i <= e < j && During(ss, i, tid) && Queried(ss, e, tid, cid, Bounded(o, LatestClear(ss, ls, i, cid, user)), page)
  }

  /** How far a listing has come by state j. */
  ghost predicate ListOk(ss: seq<Sys>, ls: seq<Label>, j: nat, tid: nat, cid: string, user: string, o: ListOptions)
    requires j < |ss| == |ls| + 1 && tid in ss[j].threads
  {
    match ss[j].threads[tid]
    case Waiting(_, op, k) =>
      if k == LookupForList(cid, user, o) then op == FindConversation(cid)
      else
        && k.ListRead?
        && exists i: nat, at ::
             HasRead(ss, ls, i, j, tid, cid, user, at) && op == ListMessages(cid, Bounded(o, at))
    case Holding(_, ans, k) =>
      if k == LookupForList(cid, user, o) then
        && ans.FoundConversation?
        && (ss[j].store.kind.Postgres? && ans.found.Some? && IsParticipant(ans.found.value, user) ==>
              exists i: nat :: HasRead(ss, ls, i, j, tid, cid, user, ClearedAt(ans.found.value, user)))
      else
        && k.ListRead? && ans.FoundMessages?
        && exists i: nat, e: nat :: HasQueried(ss, ls, i, e, j, tid, cid, user, o, ans.page)
    case Ended(_, reply) =>
      reply.Messages? ==> exists i: nat, e: nat, c: nat, page ::
        HasQueried(ss, ls, i, e, c, tid, cid, user, o, page) && c < j && reply.messages == SeenIn(ss[c].store, page)
  }

  /** What a lookup says about the requester is what the store holds. */
  lemma LookupReads(ss: seq<Sys>, ls: seq<Label>, n: nat, cid: string, user: string, env: Env, s': Store, ans: Answer)
    requires Run(ss, ls) && n < |ss| && Exec(ss[n].store, FindConversation(cid), env, s', ans)
    requires ans.FoundConversation? && ans.found.Some? && IsParticipant(ans.found.value, user)
    ensures ClearedAt(ans.found.value, user) == LatestClear(ss, ls, n, cid, user)
  {
    RunInv(ss, ls, n);
    var s, c := ss[n].store, Find(ss[n].store.convs, cid).value;
    var k :| 0 <= k < |s.convs| && s.convs[k] == c;
    if s.kind.Postgres? {
      SameFindsSame(c, ans.found.value, user);
    }
    ClearedAtIsLatest(ss, ls, n, k, user);
  }

  /** In memory it is so even when the call continues. */
  lemma CurrentReads(ss: seq<Sys>, ls: seq<Label>, n: nat, tid: nat, c: Conversation, user: string)
    requires Run(ss, ls) && n < |ss| && MembersAre(ss[n].store.convs, c.id, UserIds(c.participants))
    requires IsParticipant(CurrentConversation(ss[n].store, c), user)
    ensures ClearedAt(CurrentConversation(ss[n].store, c), user) == LatestClear(ss, ls, n, c.id, user)
  {
    var s, now := ss[n].store, CurrentConversation(ss[n].store, c);
    var i :| 0 <= i < |s.convs| && s.convs[i].id == c.id;
    var k :| 0 <= k < |s.convs| && s.convs[k] == now;
    ClearedAtIsLatest(ss, ls, n, k, user);
  }

  lemma ListBegins(ss: seq<Sys>, ls: seq<Label>, n: nat, tid: nat, cid: string, user: string, o: ListOptions)
    requires Run(ss, ls) && n < |ls| && tid !in ss[n].threads && tid in ss[n + 1].threads
    requires ss[n + 1].threads[tid].call == List(cid, user, o)
    ensures ListOk(ss, ls, n + 1, tid, cid, user, o)
  {
    assert Moves(ss, ls, n);
  }

  lemma ListExecutes(ss: seq<Sys>, ls: seq<Label>, n: nat, tid: nat, cid: string, user: string, o: ListOptions)
    requires Run(ss, ls) && n < |ls| && tid in ss[n].threads && tid in ss[n + 1].threads
    requires ListOk(ss, ls, n, tid, cid, user, o) && ls[n].Execute? && ls[n].tid == tid
    ensures ListOk(ss, ls, n + 1, tid, cid, user, o)
  {
    assert Moves(ss, ls, n);
    var s, s', th := ss[n], ss[n + 1], ss[n].threads[tid];
    var env := Env(ls[n].id, s.clock, ls[n].gate);
    var ans :| Exec(s.store, th.op, env, s'.store, ans) && s' == Executed(s, tid, s'.store, ans);
    if th.k.ListRead? {
      var i, at :| HasRead(ss, ls, i, n, tid, cid, user, at) && th.op == ListMessages(cid, Bounded(o, at));
      assert Queried(ss, n, tid, cid, Bounded(o, at), ans.page);
      assert HasQueried(ss, ls, i, n, n + 1, tid, cid, user, o, ans.page);
    } else if ans.found.Some? && IsParticipant(ans.found.value, user) {
      LookupReads(ss, ls, n, cid, user, env, s'.store, ans);
      assert HasRead(ss, ls, n, n + 1, tid, cid, user, ClearedAt(ans.found.value, user));
    }
  }

  lemma ListContinues(ss: seq<Sys>, ls: seq<Label>, n: nat, tid: nat, cid: string, user: string, o: ListOptions)
    requires Run(ss, ls) && n < |ls| && tid in ss[n].threads && tid in ss[n + 1].threads
    requires ListOk(ss, ls, n, tid, cid, user, o) && ls[n].Continue? && ls[n].tid == tid
    ensures ListOk(ss, ls, n + 1, tid, cid, user, o)
  {
    assert Moves(ss, ls, n);
    var th := ss[n].threads[tid];
    if th.k.ListRead? {
      var i, e :| HasQueried(ss, ls, i, e, n, tid, cid, user, o, th.ans.page);
      assert ss[n + 1].threads[tid] == Ended(th.call, Messages(SeenIn(ss[n].store, th.ans.page)));
    } else if th.ans.found.Some? {
      RunInv(ss, ls, n);
      assert ThreadOk(ss[n].store, ss[n].grants, tid, th);
      var seen := Refresh(ss[n].store, th.ans).found.value;
      assert Resume(th.k, Refresh(ss[n].store, th.ans), ss[n].clock) == AfterLookup(th.k, Some(seen), ss[n].clock);
      if Denied(Some(seen), cid, user).None? {
        var i := ClearIsRead(ss, ls, n, tid, th.ans.found.value, seen, user);
        assert HasRead(ss, ls, i, n + 1, tid, cid, user, ClearedAt(seen, user));
      }
    }
  }

  /** The clear in what a lookup lets the call see was read now, or when the lookup executed. */
  lemma ClearIsRead(ss: seq<Sys>, ls: seq<Label>, n: nat, tid: nat, c: Conversation, seen: Conversation, user: string)
    returns (i: nat)
    requires Run(ss, ls) && n < |ss| && During(ss, n, tid) && IsParticipant(seen, user)
    requires MembersAre(ss[n].store.convs, c.id, UserIds(c.participants))
    requires Refresh(ss[n].store, FoundConversation(Some(c))) == FoundConversation(Some(seen))
    requires ss[n].store.kind.Postgres? ==>
      exists j: nat :: HasRead(ss, ls, j, n, tid, c.id, user, ClearedAt(c, user))
    ensures HasRead(ss, ls, i, n, tid, c.id, user, ClearedAt(seen, user))
  {
    if ss[n].store.kind.InMemory? {
      CurrentReads(ss, ls, n, tid, c, user);
      i := n;
    } else {
      i :| HasRead(ss, ls, i, n, tid, c.id, user, ClearedAt(c, user));
    }
  }

  /** A listing stays where it is while others run. */
  lemma ListRests(ss: seq<Sys>, ls: seq<Label>, n: nat, tid: nat, cid: string, user: string, o: ListOptions)
    requires Run(ss, ls) && n < |ls| && tid in ss[n].threads && tid in ss[n + 1].threads
    requires ListOk(ss, ls, n, tid, cid, user, o) && ss[n + 1].threads[tid] == ss[n].threads[tid]
    requires ss[n + 1].store.kind == ss[n].store.kind
    ensures ListOk(ss, ls, n + 1, tid, cid, user, o)
  {
    match ss[n].threads[tid]
    case Waiting(_, op, k) =>
      if k.ListRead? {
        var i, at :| HasRead(ss, ls, i, n, tid, cid, user, at) && op == ListMessages(cid, Bounded(o, at));
        assert HasRead(ss, ls, i, n + 1, tid, cid, user, at);
      }
    case Holding(_, ans, k) =>
      if k.ListRead? {
        var i, e :| HasQueried(ss, ls, i, e, n, tid, cid, user, o, ans.page);
        assert HasQueried(ss, ls, i, e, n + 1, tid, cid, user, o, ans.page);
      } else if ss[n].store.kind.Postgres? && ans.found.Some? && IsParticipant(ans.found.value, user) {
        var i :| HasRead(ss, ls, i, n, tid, cid, user, ClearedAt(ans.found.value, user));
        assert HasRead(ss, ls, i, n + 1, tid, cid, user, ClearedAt(ans.found.value, user));
      }
    case Ended(_, _) =>
  }

  lemma {:induction false} ListInRun(ss: seq<Sys>, ls: seq<Label>, j: nat, tid: nat, cid: string, user: string,
        o: ListOptions)
    requires Run(ss, ls) && j < |ss| && tid in ss[j].threads && ss[j].threads[tid].call == List(cid, user, o)
    ensures ListOk(ss, ls, j, tid, cid, user, o)
  {
    if j > 0 {
      var n := j - 1;
      assert Moves(ss, ls, n);
      if tid !in ss[n].threads {
        ListBegins(ss, ls, n, tid, cid, user, o);
      } else {
        ListInRun(ss, ls, n, tid, cid, user, o);
        if ls[n].Execute? && ls[n].tid == tid {
          ListExecutes(ss, ls, n, tid, cid, user, o);
        } else if ls[n].Continue? && ls[n].tid == tid {
          ListContinues(ss, ls, n, tid, cid, user, o);
        } else {
          ListRests(ss, ls, n, tid, cid, user, o);
        }
      }
    }
  }

  /** A message of the reply, as the query answered it. */
  lemma SeenBefore(ss: seq<Sys>, ls: seq<Label>, e: nat, c: nat, cid: string, o: ListOptions, page: seq<Message>,
        m: Message)
    returns (m0: Message)
    requires Run(ss, ls) && e <= c < |ss| && m in SeenIn(ss[c].store, page)
    requires MayAnswer(ss[e].store, cid, o, page)
    ensures m0 in page && m0 in ss[e].store.msgs && Meets(m0, Where(cid, o)) && Key(m) == Key(m0)
  {
    var x :| 0 <= x < |SeenIn(ss[c].store, page)| && SeenIn(ss[c].store, page)[x] == m;
    m0 := page[x];
    var env :| Exec(ss[e].store, ListMessages(cid, o), env, ss[e].store, FoundMessages(page));
    PageIsBounded(ss[e].store, cid, o, env, FoundMessages(page), m0);
    if ss[c].store.kind.InMemory? {
      var k :| 0 <= k < |ss[e].store.msgs| && ss[e].store.msgs[k] == m0;
      RunAppends(ss, ls, e, c);
      RunInv(ss, ls, c);
      assert Key(ss[e].store.msgs[k]) == Key(ss[c].store.msgs[k]);
      FindByIdUnique(ss[c].store.msgs, k);
    }
  }

  /** What a reply comes from: a clear read in state i, a page queried in state e, as seen in state c. */
  lemma ListEnded(ss: seq<Sys>, ls: seq<Label>, j: nat, tid: nat, cid: string, user: string, o: ListOptions)
    returns (i: nat, e: nat, c: nat, page: seq<Message>)
    requires Run(ss, ls) && j < |ss| && tid in ss[j].threads && ss[j].threads[tid].call == List(cid, user, o)
    requires ss[j].threads[tid].Ended? && ss[j].threads[tid].reply.Messages?
    ensures i <= e < c < j && During(ss, i, tid)
    ensures Queried(ss, e, tid, cid, Bounded(o, LatestClear(ss, ls, i, cid, user)), page)
    ensures ss[j].threads[tid].reply.messages == SeenIn(ss[c].store, page)
  {
    ListInRun(ss, ls, j, tid, cid, user, o);
    i, e, c, page :|
      HasQueried(ss, ls, i, e, c, tid, cid, user, o, page) && c < j
        && ss[j].threads[tid].reply.messages == SeenIn(ss[c].store, page);
  }

  /** Whatever runs beside it, a listing replies nothing from before a clear of its requester that was in force at
      some moment while it ran; nor does any option its caller supplied change that. */
  lemma ListReplyIsBounded(ss: seq<Sys>, ls: seq<Label>, j: nat, tid: nat, cid: string, user: string, o: ListOptions,
        m: Message)
    returns (i: nat)
    requires Run(ss, ls) && j < |ss| && tid in ss[j].threads && ss[j].threads[tid].call == List(cid, user, o)
    requires ss[j].threads[tid].Ended? && ss[j].threads[tid].reply.Messages? && m in ss[j].threads[tid].reply.messages
    ensures i < j && During(ss, i, tid) && m.conversationId == cid
    ensures var at := LatestClear(ss, ls, i, cid, user); at.Some? ==> m.createdAt > at.value
  {
    var e, c, page;
    i, e, c, page := ListEnded(ss, ls, j, tid, cid, user, o);
    var m0 := SeenBefore(ss, ls, e, c, cid, Bounded(o, LatestClear(ss, ls, i, cid, user)), page, m);
  }

  // With deletions one at a time.

  lemma {:induction false} ClearsForward(ss: seq<Sys>, ls: seq<Label>, i: nat, j: nat, cid: string, user: string)
    requires Run(ss, ls) && NoOverlap(ss, ls, cid, user) && i <= j < |ss|
    ensures var was, now := LatestClear(ss, ls, i, cid, user), LatestClear(ss, ls, j, cid, user);
      was.Some? ==> now.Some? && was.value <= now.value
    decreases j - i
  {
    if i < j {
      ClearsForward(ss, ls, i, j - 1, cid, user);
      InOrderAlways(ss, ls, j - 1, cid, user);
    }
  }

  /** So a listing never replies what its requester had cleared away before it began, if their deletions of the
      conversation do not overlap: over either store, with any delays. */
  lemma ListingHidesWhatWasCleared(ss: seq<Sys>, ls: seq<Label>, n: nat, j: nat, tid: nat, cid: string, user: string,
        o: ListOptions, m: Message)
    requires Run(ss, ls) && NoOverlap(ss, ls, cid, user) && n < j < |ss| && tid !in ss[n].threads
    requires tid in ss[j].threads && ss[j].threads[tid].call == List(cid, user, o)
    requires ss[j].threads[tid].Ended? && ss[j].threads[tid].reply.Messages? && m in ss[j].threads[tid].reply.messages
    ensures var at := LatestClear(ss, ls, n, cid, user); at.Some? ==> m.createdAt > at.value
  {
    var i := ListReplyIsBounded(ss, ls, j, tid, cid, user, o, m);
    NotYet(ss, ls, i, n, tid);
    ClearsForward(ss, ls, n, i, cid, user);
  }

  /** A call that has not begun has not begun earlier. */
  lemma {:induction false} NotYet(ss: seq<Sys>, ls: seq<Label>, i: nat, n: nat, tid: nat)
    requires Run(ss, ls) && i < |ss| && n < |ss| && tid in ss[i].threads && tid !in ss[n].threads
    ensures n < i
    decreases n
  {
    if i <= n {
      if i < n {
        assert Moves(ss, ls, n - 1);
        NotYet(ss, ls, i, n - 1, tid);
      }
    }
  }
}
