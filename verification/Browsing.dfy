/** Backward paging by a client of the running service: the walk of Paging, made by listings that are in flight while
    other calls are. src/core/messaging-service.ts:137-152 */
module Browsing {
  import opened Domain
  import opened Query
  import opened Paging
  import opened Stores
  import opened Service
  import opened Machine
  import opened Concurrency
  import opened Safety
  import opened Cleared
  import opened Listings

  /** Along a run nothing is created in the past. */
  lemma RunGrows(ss: seq<Sys>, ls: seq<Label>, i: nat, j: nat)
    requires Run(ss, ls) && i <= j < |ss|
    ensures Grows(ss[i].store.msgs, ss[j].store.msgs)
  {
    RunAppends(ss, ls, i, j);
    RunClock(ss, ls, j);
    var a, b := ss[i].store.msgs, ss[j].store.msgs;
    assert Ascending(b);
    forall x, y | 0 <= x < |a| <= y < |b|
      ensures a[x].createdAt <= b[y].createdAt
    {
      assert Key(a[x]) == Key(b[x]);
    }
  }

  // One listing.

  /** The log a listing queried in state e, as it stands in state c when the listing hands out its page: over Postgres
      the page is a copy, in memory its messages may have been deleted since. */
  function LogSeen(e: Store, c: Store): seq<Message>
    requires |e.msgs| <= |c.msgs|
  {
    if c.kind.InMemory? then c.msgs[..|e.msgs|] else e.msgs
  }

  lemma ListedIn(ms: seq<Message>, cid: string, o: ListOptions, m: Message)
    requires m in ListInMemory(ms, cid, o)
    ensures m in ms
  {
    var found := Filter(ms, Where(cid, o));
    InMemoryIsPage(ms, cid, o);
    PageMember(found, SliceCount(o.limit, |found|), ListInMemory(ms, cid, o), m);
    FilterIn(ms, Where(cid, o));
  }

  /** The messages of an in-memory page, looked at later, are the page of the log looked at later. */
  lemma SeenLater(a: seq<Message>, s: Store, cid: string, o: ListOptions)
    requires s.kind.InMemory? && DistinctIds(s.msgs) && |a| <= |s.msgs| && Keys(a) == Keys(s.msgs[..|a|])
    ensures SeenIn(s, ListInMemory(a, cid, o)) == ListInMemory(s.msgs[..|a|], cid, o)
  {
    var b := s.msgs[..|a|];
    var page, later := ListInMemory(a, cid, o), ListInMemory(b, cid, o);
    SameKeysSameList(a, b, cid, o);
    assert |page| == |Keys(page)| == |Keys(later)| == |later|;
    forall x | 0 <= x < |page|
      ensures SeenIn(s, page)[x] == later[x]
    {
      assert Keys(page)[x] == Keys(later)[x];
      ListedIn(b, cid, o, later[x]);
      var k :| 0 <= k < |b| && b[k] == later[x];
      FindByIdUnique(s.msgs, k);
    }
  }

  /** What a listing hands out is a page of the log it queried. */
  lemma SeenIsPage(ss: seq<Sys>, ls: seq<Label>, e: nat, c: nat, cid: string, n: nat, before: Option<int>,
        after: Option<int>, page: seq<Message>)
    requires Run(ss, ls) && e <= c < |ss| && 1 <= n <= MAX_LIMIT && |ss[e].store.msgs| <= |ss[c].store.msgs|
    requires MayAnswer(ss[e].store, cid, ListOptions(Some(n), before, after), page)
    ensures var log := LogSeen(ss[e].store, ss[c].store);
      && DistinctIds(log) && Keys(log) == Keys(ss[e].store.msgs)
      && IsPage(Filter(log, Older(cid, before, after)), n, SeenIn(ss[c].store, page))
  {
    RunInv(ss, ls, e);
    RunInv(ss, ls, c);
    RunAppends(ss, ls, e, c);
    SameKind(ss, ls, e, c);
    SeenPage(ss[e].store, ss[c].store, cid, n, before, after, page);
  }

  lemma SeenPage(a: Store, c: Store, cid: string, n: nat, before: Option<int>, after: Option<int>, page: seq<Message>)
    requires DistinctIds(a.msgs) && DistinctIds(c.msgs) && Appends(a.msgs, c.msgs) && a.kind == c.kind
    requires 1 <= n <= MAX_LIMIT
    requires MayAnswer(a, cid, ListOptions(Some(n), before, after), page)
    ensures var log := LogSeen(a, c);
      && DistinctIds(log) && Keys(log) == Keys(a.msgs)
      && IsPage(Filter(log, Older(cid, before, after)), n, SeenIn(c, page))
  {
    var o := ListOptions(Some(n), before, after);
    var env :| Exec(a, ListMessages(cid, o), env, a, FoundMessages(page));
    if c.kind.InMemory? {
      SeenPageInMemory(a.msgs, c, cid, n, before, after);
    } else {
      StoresAnswerPages(a.msgs, cid, n, before, after, page);
    }
  }

  lemma SeenPageInMemory(a: seq<Message>, c: Store, cid: string, n: nat, before: Option<int>, after: Option<int>)
    requires c.kind.InMemory? && DistinctIds(c.msgs) && Appends(a, c.msgs) && 1 <= n <= MAX_LIMIT
    ensures var log := c.msgs[..|a|];
      var page := ListInMemory(a, cid, ListOptions(Some(n), before, after));
      && DistinctIds(log) && Keys(log) == Keys(a)
      && IsPage(Filter(log, Older(cid, before, after)), n, SeenIn(c, page))
  {
    var o, log := ListOptions(Some(n), before, after), c.msgs[..|a|];
    forall i | 0 <= i < |a|
      ensures Keys(log)[i] == Keys(a)[i]
    {
      assert Becomes(a[i], c.msgs[i]);
    }
    SeenLater(a, c, cid, o);
    StoresAnswerPages(log, cid, n, before, after, ListInMemory(log, cid, o));
  }

  // The client.

  /** One listing of the client: the step it begins with, and a state in which it has ended. */
  datatype Request = Request(begun: nat, ended: nat)

  ghost predicate Replied(ss: seq<Sys>, ls: seq<Label>, r: Request)
    requires |ss| == |ls| + 1
  {
    && r.begun < |ls| && r.ended < |ss| && ls[r.begun].Begin? && ls[r.begun].call.List?
    && ls[r.begun].tid in ss[r.ended].threads && ss[r.ended].threads[ls[r.begun].tid].call == ls[r.begun].call
    && ss[r.ended].threads[ls[r.begun].tid].Ended? && ss[r.ended].threads[ls[r.begun].tid].reply.Messages?
  }

  ghost function Page(ss: seq<Sys>, ls: seq<Label>, r: Request): seq<Message>
    requires |ss| == |ls| + 1 && Replied(ss, ls, r)
  {
    ss[r.ended].threads[ls[r.begun].tid].reply.messages
  }

  ghost predicate AllReplied(ss: seq<Sys>, ls: seq<Label>, rs: seq<Request>) {
    |ss| == |ls| + 1 && forall i :: 0 <= i < |rs| ==> Replied(ss, ls, rs[i])
  }

  /** The oldest instant of the page before. */
  ghost function CursorOf(ss: seq<Sys>, ls: seq<Label>, rs: seq<Request>, i: nat): Option<int>
    requires AllReplied(ss, ls, rs) && i <= |rs|
  {
    if i == 0 || Page(ss, ls, rs[i - 1]) == [] then None else Some(Page(ss, ls, rs[i - 1])[0].createdAt)
  }

  ghost predicate Asked(ss: seq<Sys>, ls: seq<Label>, rs: seq<Request>, i: nat, cid: string, user: string, n: nat)
    requires AllReplied(ss, ls, rs) && i < |rs|
  {
    ls[rs[i].begun].call == List(cid, user, ListOptions(Some(n), CursorOf(ss, ls, rs, i), None))
  }

  /** The client pages backward, one listing after the other, n messages at a time, until a page is empty. */
  ghost predicate Browses(ss: seq<Sys>, ls: seq<Label>, rs: seq<Request>, cid: string, user: string, n: nat) {
    && AllReplied(ss, ls, rs)
    && (forall i :: 0 <= i < |rs| ==> Asked(ss, ls, rs, i, cid, user, n))
    && (forall i, j :: 0 <= i < j < |rs| ==> rs[i].ended <= rs[j].begun)
    && (forall i :: 0 <= i < |rs| - 1 ==> Page(ss, ls, rs[i]) != [])
  }

  /** The user does not clear the conversation from the first listing to the last. */
  ghost predicate ClearedBefore(ss: seq<Sys>, ls: seq<Label>, rs: seq<Request>, cid: string, user: string,
        after: Option<int>)
    requires AllReplied(ss, ls, rs)
  {
    forall i, k :: 0 <= i < |rs| && rs[i].begun <= k <= rs[i].ended ==> LatestClear(ss, ls, k, cid, user) == after
  }

  /** A listing of the walk: the log it queried in some state e while it ran. */
  lemma VisitOf(ss: seq<Sys>, ls: seq<Label>, rs: seq<Request>, i: nat, cid: string, user: string, n: nat,
        after: Option<int>)
    returns (log: seq<Message>, e: nat)
    requires Run(ss, ls) && Browses(ss, ls, rs, cid, user, n) && ClearedBefore(ss, ls, rs, cid, user, after)
    requires 1 <= n <= MAX_LIMIT && i < |rs|
    ensures rs[i].begun < e < rs[i].ended && DistinctIds(log) && Keys(log) == Keys(ss[e].store.msgs)
    ensures IsPage(Filter(log, Older(cid, CursorOf(ss, ls, rs, i), after)), n, Page(ss, ls, rs[i]))
  {
    var r := rs[i];
    var tid, before := ls[r.begun].tid, CursorOf(ss, ls, rs, i);
    assert Asked(ss, ls, rs, i, cid, user, n) && Moves(ss, ls, r.begun);
    var f, c, page;
    f, e, c, page := ListEnded(ss, ls, r.ended, tid, cid, user, ListOptions(Some(n), before, None));
    NotYet(ss, ls, f, r.begun, tid);
    assert Bounded(ListOptions(Some(n), before, None), LatestClear(ss, ls, f, cid, user)) ==
      ListOptions(Some(n), before, after);
    RunAppends(ss, ls, e, c);
    log := LogSeen(ss[e].store, ss[c].store);
    SeenIsPage(ss, ls, e, c, cid, n, before, after, page);
  }

  /** What the walk of the first requests is made of. */
  ghost predicate WalkOf(ss: seq<Sys>, ls: seq<Label>, rs: seq<Request>, cid: string, n: nat, after: Option<int>,
        i: nat, v: Visit, e: nat)
    requires AllReplied(ss, ls, rs) && i < |rs|
  {
    && rs[i].begun < e < rs[i].ended && DistinctIds(v.log) && Keys(v.log) == Keys(ss[e].store.msgs)
      && v.page == Page(ss, ls, rs[i])
    && IsPage(Filter(v.log, Older(cid, CursorOf(ss, ls, rs, i), after)), n, v.page)
  }

  lemma {:induction false} VisitsOf(ss: seq<Sys>, ls: seq<Label>, rs: seq<Request>, k: nat, cid: string, user: string,
        n: nat, after: Option<int>)
    returns (vs: seq<Visit>, es: seq<nat>)
    requires Run(ss, ls) && Browses(ss, ls, rs, cid, user, n) && ClearedBefore(ss, ls, rs, cid, user, after)
    requires 1 <= n <= MAX_LIMIT && k <= |rs|
    ensures |vs| == |es| == k && forall i :: 0 <= i < k ==> WalkOf(ss, ls, rs, cid, n, after, i, vs[i], es[i])
  {
    if k == 0 {
      vs, es := [], [];
    } else {
      var vs0, es0 := VisitsOf(ss, ls, rs, k - 1, cid, user, n, after);
      var log, e := VisitOf(ss, ls, rs, k - 1, cid, user, n, after);
      var v := Visit(log, Page(ss, ls, rs[k - 1]));
      vs, es := vs0 + [v], es0 + [e];
      forall i | 0 <= i < k
        ensures WalkOf(ss, ls, rs, cid, n, after, i, vs[i], es[i])
      {
        if i < k - 1 {
          assert WalkOf(ss, ls, rs, cid, n, after, i, vs0[i], es0[i]);
        } else {
          assert vs[i] == v && es[i] == e;
        }
      }
    }
  }

  lemma KeysGrow(a: seq<Message>, b: seq<Message>, a': seq<Message>, b': seq<Message>)
    requires Keys(a') == Keys(a) && Keys(b') == Keys(b) && Grows(a, b)
    ensures Grows(a', b')
  {
    assert |a'| == |Keys(a')| == |a| && |b'| == |Keys(b')| == |b|;
    assert forall i :: 0 <= i < |a| ==> Keys(a')[i] == Keys(a)[i];
    assert forall i :: 0 <= i < |b| ==> Keys(b')[i] == Keys(b)[i];
    forall i | 0 <= i < |a|
      ensures Key(a'[i]) == Key(b'[i])
    {
      assert Key(a[i]) == Key(b[i]);
    }
    forall i, j | 0 <= i < |a| <= j < |b|
      ensures a'[i].createdAt <= b'[j].createdAt
    {
      assert Key(a'[i]) == Key(a[i]) && Key(b'[j]) == Key(b[j]);
    }
  }

  /** The listings of a client that pages backward form a walk, over either store and whatever other calls do between
      and during them. */
  lemma BrowsingIsWalk(ss: seq<Sys>, ls: seq<Label>, rs: seq<Request>, cid: string, user: string, n: nat,
        after: Option<int>)
    returns (vs: seq<Visit>, es: seq<nat>)
    requires Run(ss, ls) && Browses(ss, ls, rs, cid, user, n) && ClearedBefore(ss, ls, rs, cid, user, after)
    requires 1 <= n <= MAX_LIMIT
    ensures |vs| == |es| == |rs| && forall i :: 0 <= i < |rs| ==> WalkOf(ss, ls, rs, cid, n, after, i, vs[i], es[i])
    ensures Walk(vs, cid, after, n)
  {
    vs, es := VisitsOf(ss, ls, rs, |rs|, cid, user, n, after);
    forall i: nat | i < |vs|
      ensures Answered(vs, i, cid, after, n)
    {
      assert WalkOf(ss, ls, rs, cid, n, after, i, vs[i], es[i]);
      assert i > 0 ==> WalkOf(ss, ls, rs, cid, n, after, i - 1, vs[i - 1], es[i - 1]);
    }
    forall i: nat, j: nat | i < j < |vs|
      ensures Later(vs, i, j)
    {
      assert WalkOf(ss, ls, rs, cid, n, after, i, vs[i], es[i]) && WalkOf(ss, ls, rs, cid, n, after, j, vs[j], es[j]);
      RunGrows(ss, ls, es[i], es[j]);
      KeysGrow(ss[es[i]].store.msgs, ss[es[j]].store.msgs, vs[i].log, vs[j].log);
    }
  }

  /** The thread as `user` sees it in some state. */
  function Visible(s: Store, cid: string, after: Option<int>): seq<Message> {
    Filter(s.msgs, Older(cid, None, after))
  }

  lemma SameKeysSameVisible(a: seq<Message>, b: seq<Message>, q: Criteria, id: string)
    requires Keys(a) == Keys(b)
    ensures Shows(Filter(a, q), id) ==> Shows(Filter(b, q), id)
    ensures DistinctInstants(Filter(a, q)) ==> DistinctInstants(Filter(b, q))
  {
    KeysFilter(a, q);
    KeysFilter(b, q);
    var f, g := Filter(a, q), Filter(b, q);
    assert |f| == |Keys(f)| == |g|;
    assert forall i :: 0 <= i < |f| ==> Keys(f)[i] == Keys(g)[i];
    if Shows(f, id) {
      var m :| m in f && m.id == id;
      var i :| 0 <= i < |f| && f[i] == m;
      assert g[i] in g && g[i].id == id;
    }
  }

  /** Message `id` is on exactly one page if it is in `thread`, and on none otherwise. */
  ghost predicate OnOnePage(ss: seq<Sys>, ls: seq<Label>, rs: seq<Request>, thread: seq<Message>, id: string)
    requires AllReplied(ss, ls, rs)
  {
    && (Shows(thread, id) <==> exists i :: 0 <= i < |rs| && Shows(Page(ss, ls, rs[i]), id))
    && (forall i, j :: 0 <= i < j < |rs| && Shows(Page(ss, ls, rs[i]), id) ==> !Shows(Page(ss, ls, rs[j]), id))
  }

  /** Whatever else goes on, a client that pages backward to the end and does not clear the conversation meanwhile
      sees each message that was visible at some moment e of its first listing on exactly one page, and nothing
      that came later, when those have distinct instants. */
  lemma BrowsingSeesHistoryOnce(ss: seq<Sys>, ls: seq<Label>, rs: seq<Request>, cid: string, user: string, n: nat,
        after: Option<int>)
    returns (e: nat)
    requires Run(ss, ls) && Browses(ss, ls, rs, cid, user, n) && ClearedBefore(ss, ls, rs, cid, user, after)
    requires 1 <= n <= MAX_LIMIT && rs != [] && Page(ss, ls, rs[|rs| - 1]) == []
    ensures rs[0].begun < e < rs[0].ended
    ensures DistinctInstants(Visible(ss[e].store, cid, after)) ==>
      forall id :: OnOnePage(ss, ls, rs, Visible(ss[e].store, cid, after), id)
  {
    var vs, es := BrowsingIsWalk(ss, ls, rs, cid, user, n, after);
    e := es[0];
    assert WalkOf(ss, ls, rs, cid, n, after, 0, vs[0], es[0]);
    forall id | DistinctInstants(Visible(ss[e].store, cid, after))
      ensures OnOnePage(ss, ls, rs, Visible(ss[e].store, cid, after), id)
    {
      OnePageFor(ss, ls, rs, cid, n, after, vs, es, id);
    }
  }

  lemma OnePageFor(ss: seq<Sys>, ls: seq<Label>, rs: seq<Request>, cid: string, n: nat, after: Option<int>,
        vs: seq<Visit>, es: seq<nat>, id: string)
    requires AllReplied(ss, ls, rs) && |vs| == |es| == |rs| && rs != [] && Walk(vs, cid, after, n)
    requires forall i :: 0 <= i < |rs| ==> WalkOf(ss, ls, rs, cid, n, after, i, vs[i], es[i])
    requires Page(ss, ls, rs[|rs| - 1]) == [] && es[0] < |ss| && DistinctInstants(Visible(ss[es[0]].store, cid, after))
    ensures OnOnePage(ss, ls, rs, Visible(ss[es[0]].store, cid, after), id)
  {
    assert WalkOf(ss, ls, rs, cid, n, after, 0, vs[0], es[0]);
    assert WalkOf(ss, ls, rs, cid, n, after, |rs| - 1, vs[|rs| - 1], es[|rs| - 1]);
    WalkSeesOnce(vs, cid, after, n, ss[es[0]].store.msgs, id);
    PagesAlike(ss, ls, rs, cid, n, after, vs, es, id);
  }

  lemma PagesAlike(ss: seq<Sys>, ls: seq<Label>, rs: seq<Request>, cid: string, n: nat, after: Option<int>,
        vs: seq<Visit>, es: seq<nat>, id: string)
    requires AllReplied(ss, ls, rs) && |vs| == |es| == |rs|
    requires forall i :: 0 <= i < |rs| ==> WalkOf(ss, ls, rs, cid, n, after, i, vs[i], es[i])
    ensures forall i :: 0 <= i < |rs| ==> (Shows(vs[i].page, id) <==> Shows(Page(ss, ls, rs[i]), id))
  {
    forall i | 0 <= i < |rs|
      ensures vs[i].page == Page(ss, ls, rs[i])
    {
      assert WalkOf(ss, ls, rs, cid, n, after, i, vs[i], es[i]);
    }
  }

  /** A finished walk shows exactly what was visible in a log with the keys of its first, each message once. */
  lemma WalkSeesOnce(vs: seq<Visit>, cid: string, after: Option<int>, n: nat, log: seq<Message>, id: string)
    requires Walk(vs, cid, after, n) && Complete(vs) && Keys(log) == Keys(vs[0].log)
    requires DistinctInstants(Filter(log, Older(cid, None, after)))
    ensures Shows(Filter(log, Older(cid, None, after)), id) <==> exists i :: 0 <= i < |vs| && Shows(vs[i].page, id)
    ensures forall i, j :: 0 <= i < j < |vs| && Shows(vs[i].page, id) ==> !Shows(vs[j].page, id)
  {
    SameKeysSameVisible(log, vs[0].log, Older(cid, None, after), id);
    SameKeysSameVisible(vs[0].log, log, Older(cid, None, after), id);
    if Shows(History(vs, cid, after), id) {
      var m :| m in History(vs, cid, after) && m.id == id;
      WalkReturnsHistory(vs, cid, after, n, m);
    }
    forall i | 0 <= i < |vs| && Shows(vs[i].page, id)
      ensures Shows(History(vs, cid, after), id)
    {
      var m :| m in vs[i].page && m.id == id;
      OnlyHistory(vs, cid, after, n, i, m);
    }
  }
}
