/** Walking a conversation's history backward, page by page, while the log keeps growing: `before` is always
    the oldest instant of the previous page. The walk is stated over pages in the sense of IsPage, so it covers
    both stores, ties included. */
module Paging {
  import opened Domain
  import opened Query

  /** One request of the walk: the log the store held then, and the page it answered. */
  datatype Visit = Visit(log: seq<Message>, page: seq<Message>)

  ghost predicate DistinctIds(ms: seq<Message>) {
    forall i, j :: 0 <= i < j < |ms| ==> ms[i].id != ms[j].id
  }

  /** The log only grows, entries lose at most their body, and nothing is created in the past. */
  ghost predicate Grows(a: seq<Message>, b: seq<Message>) {
    && |a| <= |b|
    && (forall i :: 0 <= i < |a| ==> Key(a[i]) == Key(b[i]))
    && (forall i, j :: 0 <= i < |a| <= j < |b| ==> a[i].createdAt <= b[j].createdAt)
  }

  function Cursor(vs: seq<Visit>, i: nat): Option<int>
    requires i <= |vs|
  {
    if i == 0 || vs[i - 1].page == [] then None else Some(vs[i - 1].page[0].createdAt)
  }

  function Older(cid: string, before: Option<int>, after: Option<int>): Criteria {
    Criteria(Some(cid), before, after)
  }

  /** Visit `i` was answered with a page of what is older than the previous page's oldest instant. */
  ghost predicate Answered(vs: seq<Visit>, i: nat, cid: string, after: Option<int>, n: nat)
    requires i < |vs|
  {
    && DistinctIds(vs[i].log)
    && IsPage(Filter(vs[i].log, Older(cid, Cursor(vs, i), after)), n, vs[i].page)
    && (i < |vs| - 1 ==> vs[i].page != [])
  }

  ghost predicate Later(vs: seq<Visit>, i: nat, j: nat)
    requires i < |vs| && j < |vs|
  {
    Grows(vs[i].log, vs[j].log)
  }

  /** The client stops at the first empty page. */
  ghost predicate Walk(vs: seq<Visit>, cid: string, after: Option<int>, n: nat) {
    && n >= 1
    && (forall i: nat :: i < |vs| ==> Answered(vs, i, cid, after, n))
    && (forall i: nat, j: nat :: i < j < |vs| ==> Later(vs, i, j))
  }

  ghost predicate Complete(vs: seq<Visit>) {
    vs != [] && vs[|vs| - 1].page == []
  }

  /** The history as of the first page. */
  function History(vs: seq<Visit>, cid: string, after: Option<int>): seq<Message>
    requires vs != []
  {
    Filter(vs[0].log, Older(cid, None, after))
  }

  ghost predicate Shows(page: seq<Message>, id: string) {
    exists m :: m in page && m.id == id
  }

  // Single pages.

  lemma PageMember(found: seq<Message>, n: nat, page: seq<Message>, m: Message)
    requires IsPage(found, n, page) && m in page
    ensures m in found && page[0].createdAt <= m.createdAt
  {
    assert m in multiset(page);
    assert m in multiset(found);
  }

  lemma PageMisses(found: seq<Message>, n: nat, page: seq<Message>, m: Message)
    requires IsPage(found, n, page) && m in found && m !in page && n >= 1
    ensures page != [] && m.createdAt <= page[0].createdAt
  {
    assert m in multiset(found) && m !in multiset(page);
    assert m in multiset(found) - multiset(page);
  }

  lemma SameIdSameKey(a: seq<Message>, b: seq<Message>, x: Message, y: Message)
    requires (a == b || Grows(a, b)) && DistinctIds(b) && x in a && y in b && x.id == y.id
    ensures Key(x) == Key(y)
  {
    var i :| 0 <= i < |a| && a[i] == x;
    var j :| 0 <= j < |b| && b[j] == y;
    assert Key(a[i]) == Key(b[i]);
    assert b[i].id == b[j].id;
  }

  lemma Found(vs: seq<Visit>, cid: string, after: Option<int>, n: nat, i: nat, m: Message)
    requires Walk(vs, cid, after, n) && i < |vs| && m in vs[i].page
    ensures m in vs[i].log && Meets(m, Older(cid, Cursor(vs, i), after))
    ensures vs[i].page[0].createdAt <= m.createdAt
  {
    var q := Older(cid, Cursor(vs, i), after);
    assert Answered(vs, i, cid, after, n);
    PageMember(Filter(vs[i].log, q), n, vs[i].page, m);
    FilterIn(vs[i].log, q);
  }

  lemma NextPageOlder(vs: seq<Visit>, cid: string, after: Option<int>, n: nat, i: nat, m: Message)
    requires Walk(vs, cid, after, n) && i + 1 < |vs| && m in vs[i + 1].page
    ensures vs[i].page != [] && m.createdAt < vs[i].page[0].createdAt
  {
    assert Answered(vs, i, cid, after, n);
    Found(vs, cid, after, n, i + 1, m);
  }

  /** Each page is entirely older than every page before it. */
  lemma {:induction false} PagesDescend(vs: seq<Visit>, cid: string, after: Option<int>, n: nat, i: nat, j: nat,
        m: Message)
    requires Walk(vs, cid, after, n) && i < j < |vs| && m in vs[j].page
    ensures vs[i].page != [] && m.createdAt < vs[i].page[0].createdAt
    decreases j - i
  {
    NextPageOlder(vs, cid, after, n, j - 1, m);
    if i < j - 1 {
      PagesDescend(vs, cid, after, n, i, j - 1, vs[j - 1].page[0]);
    }
  }

  /** No message comes twice, even when it was tombstoned between the pages. */
  lemma NoRepeats(vs: seq<Visit>, cid: string, after: Option<int>, n: nat, i: nat, j: nat, x: Message, y: Message)
    requires Walk(vs, cid, after, n) && i < j < |vs| && x in vs[i].page && y in vs[j].page
    ensures x.id != y.id
  {
    Found(vs, cid, after, n, i, x);
    Found(vs, cid, after, n, j, y);
    PagesDescend(vs, cid, after, n, i, j, y);
    if x.id == y.id {
      assert Later(vs, i, j) && Answered(vs, j, cid, after, n);
      SameIdSameKey(vs[i].log, vs[j].log, x, y);
    }
  }

  /** A message sent during the walk is never returned by a later page: pages show only the first page's history. */
  lemma OnlyHistory(vs: seq<Visit>, cid: string, after: Option<int>, n: nat, i: nat, m: Message)
    requires Walk(vs, cid, after, n) && i < |vs| && m in vs[i].page
    ensures Shows(History(vs, cid, after), m.id)
  {
    Found(vs, cid, after, n, i, m);
    var q := Older(cid, None, after);
    FilterIn(vs[0].log, q);
    if i == 0 {
      assert m in History(vs, cid, after);
    } else {
      PagesDescend(vs, cid, after, n, 0, i, m);
      var oldest := vs[0].page[0];
      Found(vs, cid, after, n, 0, oldest);
      var o :| 0 <= o < |vs[0].log| && vs[0].log[o] == oldest;
      var k :| 0 <= k < |vs[i].log| && vs[i].log[k] == m;
      assert Later(vs, 0, i);
      assert k < |vs[0].log|;
      assert Key(vs[0].log[k]) == Key(m);
      assert vs[0].log[k] in History(vs, cid, after);
    }
  }

  /** The tied ones: as old as the oldest message of some page, but left outside that page. */
  ghost predicate Squeezed(vs: seq<Visit>, m: Message) {
    exists i :: 0 <= i < |vs| && vs[i].page != [] && vs[i].page[0].createdAt == m.createdAt && !Shows(vs[i].page, m.id)
  }

  /** `m` as the log of visit `i` holds it. */
  lemma AsOf(vs: seq<Visit>, cid: string, after: Option<int>, n: nat, i: nat, m: Message) returns (now: Message)
    requires Walk(vs, cid, after, n) && i < |vs| && m in History(vs, cid, after)
    ensures now in vs[i].log && Key(now) == Key(m)
    ensures Meets(now, Older(cid, None, after))
  {
    FilterIn(vs[0].log, Older(cid, None, after));
    var k :| 0 <= k < |vs[0].log| && vs[0].log[k] == m;
    if i == 0 {
      return m;
    }
    assert Later(vs, 0, i);
    now := vs[i].log[k];
    assert Key(vs[0].log[k]) == Key(now);
  }

  /** A message older than the cursor of visit `i` is on that page, tied with its oldest, or still ahead. */
  lemma Progress(vs: seq<Visit>, cid: string, after: Option<int>, n: nat, i: nat, m: Message)
    requires Walk(vs, cid, after, n) && i < |vs| && m in History(vs, cid, after)
    requires Cursor(vs, i).Some? ==> m.createdAt < Cursor(vs, i).value
    ensures vs[i].page != []
    ensures Shows(vs[i].page, m.id) || Squeezed(vs, m) || m.createdAt < vs[i].page[0].createdAt
  {
    var now := AsOf(vs, cid, after, n, i, m);
    var q := Older(cid, Cursor(vs, i), after);
    FilterIn(vs[i].log, q);
    var found := Filter(vs[i].log, q);
    assert now in found && Answered(vs, i, cid, after, n);
    if now in vs[i].page {
      assert Shows(vs[i].page, m.id);
    } else {
      PageMisses(found, n, vs[i].page, now);
    }
  }

  lemma {:induction false} Sweep(vs: seq<Visit>, cid: string, after: Option<int>, n: nat, i: nat, m: Message)
    requires Walk(vs, cid, after, n) && Complete(vs) && i < |vs| && m in History(vs, cid, after)
    requires Cursor(vs, i).Some? ==> m.createdAt < Cursor(vs, i).value
    ensures Squeezed(vs, m) || exists k :: 0 <= k < |vs| && Shows(vs[k].page, m.id)
    decreases |vs| - i
  {
    Progress(vs, cid, after, n, i, m);
    if m.createdAt < vs[i].page[0].createdAt && !Shows(vs[i].page, m.id) {
      Sweep(vs, cid, after, n, i + 1, m);
    }
  }

  /** A message of a page as the history holds it. */
  lemma InHistory(vs: seq<Visit>, cid: string, after: Option<int>, n: nat, i: nat, x: Message) returns (h: Message)
    requires Walk(vs, cid, after, n) && i < |vs| && x in vs[i].page
    ensures h in History(vs, cid, after) && h.id == x.id && h.createdAt == x.createdAt
  {
    OnlyHistory(vs, cid, after, n, i, x);
    Found(vs, cid, after, n, i, x);
    h :| h in History(vs, cid, after) && h.id == x.id;
    var now := AsOf(vs, cid, after, n, i, h);
    assert Answered(vs, i, cid, after, n);
    SameIdSameKey(vs[i].log, vs[i].log, x, now);
    assert h.createdAt == Key(h).createdAt && x.createdAt == Key(x).createdAt;
  }

  lemma ShownSince(vs: seq<Visit>, cid: string, after: Option<int>, n: nat, m: Message, k: nat) returns (x: Message)
    requires k < |vs| && Walk(vs, cid, after, n) && m in History(vs, cid, after) && Shows(vs[k].page, m.id)
    ensures x in vs[k].page && vs[k].page[0].createdAt <= x.createdAt == m.createdAt
  {
    x :| x in vs[k].page && x.id == m.id;
    Found(vs, cid, after, n, k, x);
    var now := AsOf(vs, cid, after, n, k, m);
    assert Answered(vs, k, cid, after, n);
    SameIdSameKey(vs[k].log, vs[k].log, x, now);
  }

  /** A tied message left outside a page is on no page at all. */
  lemma SqueezedIsLost(vs: seq<Visit>, cid: string, after: Option<int>, n: nat, m: Message, k: nat)
    requires k < |vs| && Walk(vs, cid, after, n) && m in History(vs, cid, after) && Squeezed(vs, m)
    ensures !Shows(vs[k].page, m.id)
  {
    var i :| 0 <= i < |vs| && vs[i].page != [] && vs[i].page[0].createdAt == m.createdAt && !Shows(vs[i].page, m.id);
    if Shows(vs[k].page, m.id) {
      var x := ShownSince(vs, cid, after, n, m, k);
      if k < i {
        PagesDescend(vs, cid, after, n, k, i, vs[i].page[0]);
      } else if i < k {
        PagesDescend(vs, cid, after, n, i, k, x);
      }
    }
  }

  /** A finished walk misses exactly the messages tied with the oldest of a page but outside that page. */
  lemma MissesExactlySqueezed(vs: seq<Visit>, cid: string, after: Option<int>, n: nat, m: Message)
    requires Walk(vs, cid, after, n) && Complete(vs) && m in History(vs, cid, after)
    ensures (forall k :: 0 <= k < |vs| ==> !Shows(vs[k].page, m.id)) <==> Squeezed(vs, m)
  {
    Sweep(vs, cid, after, n, 0, m);
    if Squeezed(vs, m) {
      forall k | 0 <= k < |vs|
        ensures !Shows(vs[k].page, m.id)
      {
        SqueezedIsLost(vs, cid, after, n, m, k);
      }
    }
  }

  /** With distinct instants in the history, a finished walk returns every message of it exactly once. */
  lemma WalkReturnsHistory(vs: seq<Visit>, cid: string, after: Option<int>, n: nat, m: Message)
    requires Walk(vs, cid, after, n) && Complete(vs) && m in History(vs, cid, after)
    requires DistinctInstants(History(vs, cid, after))
    ensures exists k :: 0 <= k < |vs| && Shows(vs[k].page, m.id)
    ensures forall j, k :: 0 <= j < k < |vs| ==> !(Shows(vs[j].page, m.id) && Shows(vs[k].page, m.id))
  {
    MissesExactlySqueezed(vs, cid, after, n, m);
    if Squeezed(vs, m) {
      var i :| 0 <= i < |vs| && vs[i].page != [] && vs[i].page[0].createdAt == m.createdAt && !Shows(vs[i].page, m.id);
      var oldest := vs[i].page[0];
      var h := InHistory(vs, cid, after, n, i, oldest);
      OnePerInstant(History(vs, cid, after), h, m);
    }
    forall j, k | 0 <= j < k < |vs|
      ensures !(Shows(vs[j].page, m.id) && Shows(vs[k].page, m.id))
    {
      if Shows(vs[j].page, m.id) && Shows(vs[k].page, m.id) {
        var x :| x in vs[j].page && x.id == m.id;
        var y :| y in vs[k].page && y.id == m.id;
        NoRepeats(vs, cid, after, n, j, k, x, y);
      }
    }
  }

  // Termination.

  function Ids(ms: seq<Message>): set<string> {
    set m | m in ms :: m.id
  }

  lemma {:induction false} IdsBound(ms: seq<Message>)
    ensures |Ids(ms)| <= |ms|
  {
    if ms != [] {
      var front, last := ms[..|ms| - 1], ms[|ms| - 1];
      IdsBound(front);
      assert ms == front + [last];
      assert Ids(ms) == Ids(front) + {last.id};
    }
  }

  /** The oldest id of each page is new, so there are at most as many non-empty pages as messages. */
  lemma {:induction false} Firsts(vs: seq<Visit>, cid: string, after: Option<int>, n: nat, k: nat)
    returns (ids: set<string>)
    requires Walk(vs, cid, after, n) && k <= |vs| && vs != []
    requires forall i :: 0 <= i < k ==> vs[i].page != []
    ensures |ids| == k && ids <= Ids(History(vs, cid, after))
    ensures forall id :: id in ids ==> exists i :: 0 <= i < k && id == vs[i].page[0].id
  {
    ids := {};
    if k > 0 {
      ids := Firsts(vs, cid, after, n, k - 1);
      var m := vs[k - 1].page[0];
      OnlyHistory(vs, cid, after, n, k - 1, m);
      if m.id in ids {
        var i :| 0 <= i < k - 1 && m.id == vs[i].page[0].id;
        NoRepeats(vs, cid, after, n, i, k - 1, vs[i].page[0], m);
      }
      ids := ids + {m.id};
    }
  }

  /** A walk ends: it makes at most one request more than the history has messages. */
  lemma WalkTerminates(vs: seq<Visit>, cid: string, after: Option<int>, n: nat)
    requires Walk(vs, cid, after, n) && vs != []
    ensures |vs| <= |History(vs, cid, after)| + 1
  {
    forall i: nat | i < |vs| - 1
      ensures vs[i].page != []
    {
      assert Answered(vs, i, cid, after, n);
    }
    var ids := Firsts(vs, cid, after, n, |vs| - 1);
    IdsBound(History(vs, cid, after));
    SubsetSize(ids, Ids(History(vs, cid, after)));
  }

  lemma {:induction false} SubsetSize(a: set<string>, b: set<string>)
    requires a <= b
    ensures |a| <= |b|
  {
    if a != {} {
      var x :| x in a;
      SubsetSize(a - {x}, b - {x});
    }
  }

  // Messages of one instant.

  /** They are on one page. */
  lemma OneInstantOnePage(vs: seq<Visit>, cid: string, after: Option<int>, n: nat, i: nat, j: nat, x: Message,
        y: Message)
    requires Walk(vs, cid, after, n) && i < |vs| && j < |vs| && x in vs[i].page && y in vs[j].page
    requires x.createdAt == y.createdAt
    ensures i == j
  {
    Found(vs, cid, after, n, i, x);
    Found(vs, cid, after, n, j, y);
    if i < j {
      PagesDescend(vs, cid, after, n, i, j, y);
    } else if j < i {
      PagesDescend(vs, cid, after, n, j, i, x);
    }
  }

  ghost predicate Returned(vs: seq<Visit>, id: string) {
    exists k :: 0 <= k < |vs| && Shows(vs[k].page, id)
  }

  /** The messages of the history created at instant t. */
  function AtInstant(vs: seq<Visit>, cid: string, after: Option<int>, t: int): set<string>
    requires vs != []
  {
    set m | m in History(vs, cid, after) && m.createdAt == t :: m.id
  }

  ghost function ReturnedAt(vs: seq<Visit>, cid: string, after: Option<int>, t: int): set<string>
    requires vs != []
  {
    set id | id in AtInstant(vs, cid, after, t) && Returned(vs, id)
  }

  /** Of the messages of one instant a walk returns at most a page, and a finished one returns some, so whatever
      exceeds a page is lost. */
  lemma ExcessOfAnInstantIsLost(vs: seq<Visit>, cid: string, after: Option<int>, n: nat, t: int)
    requires Walk(vs, cid, after, n) && vs != []
    ensures |ReturnedAt(vs, cid, after, t)| <= n
    ensures |AtInstant(vs, cid, after, t) - ReturnedAt(vs, cid, after, t)| >= |AtInstant(vs, cid, after, t)| - n
    ensures Complete(vs) && AtInstant(vs, cid, after, t) != {} ==> ReturnedAt(vs, cid, after, t) != {}
  {
    var all, returned := AtInstant(vs, cid, after, t), ReturnedAt(vs, cid, after, t);
    AtMostAPage(vs, cid, after, n, t);
    assert all == returned + (all - returned);
    if Complete(vs) && all != {} {
      var m :| m in History(vs, cid, after) && m.createdAt == t;
      SomeReturned(vs, cid, after, n, m);
    }
  }

  lemma AtMostAPage(vs: seq<Visit>, cid: string, after: Option<int>, n: nat, t: int)
    requires Walk(vs, cid, after, n) && vs != []
    ensures |ReturnedAt(vs, cid, after, t)| <= n
  {
    var returned := ReturnedAt(vs, cid, after, t);
    if id0 :| id0 in returned {
      var k :| 0 <= k < |vs| && Shows(vs[k].page, id0);
      forall id | id in returned
        ensures id in Ids(vs[k].page)
      {
        SamePageAt(vs, cid, after, n, t, k, id0, id);
      }
      assert Answered(vs, k, cid, after, n);
      IdsBound(vs[k].page);
      SubsetSize(returned, Ids(vs[k].page));
    }
  }

  lemma SamePageAt(vs: seq<Visit>, cid: string, after: Option<int>, n: nat, t: int, k: nat, id0: string, id: string)
    requires Walk(vs, cid, after, n) && k < |vs| && Shows(vs[k].page, id0)
    requires id0 in ReturnedAt(vs, cid, after, t) && id in ReturnedAt(vs, cid, after, t)
    ensures id in Ids(vs[k].page)
  {
    var m0 :| m0 in History(vs, cid, after) && m0.createdAt == t && m0.id == id0;
    var m :| m in History(vs, cid, after) && m.createdAt == t && m.id == id;
    var j :| 0 <= j < |vs| && Shows(vs[j].page, id);
    var x := ShownSince(vs, cid, after, n, m0, k);
    var y := ShownSince(vs, cid, after, n, m, j);
    OneInstantOnePage(vs, cid, after, n, k, j, x, y);
    var shown :| shown in vs[k].page && shown.id == id;
  }

  /** A finished walk returns some message of every instant of its history. */
  lemma SomeReturned(vs: seq<Visit>, cid: string, after: Option<int>, n: nat, m: Message)
    requires Walk(vs, cid, after, n) && Complete(vs) && m in History(vs, cid, after)
    ensures ReturnedAt(vs, cid, after, m.createdAt) != {}
  {
    if Returned(vs, m.id) {
      assert m.id in ReturnedAt(vs, cid, after, m.createdAt);
    } else {
      MissesExactlySqueezed(vs, cid, after, n, m);
      var i :| 0 <= i < |vs| && vs[i].page != [] && vs[i].page[0].createdAt == m.createdAt && !Shows(vs[i].page, m.id);
      var oldest := vs[i].page[0];
      var h := InHistory(vs, cid, after, n, i, oldest);
      assert Shows(vs[i].page, h.id) && Returned(vs, h.id);
      assert h.id in ReturnedAt(vs, cid, after, m.createdAt);
    }
  }

  // Both stores answer pages, so both can be walked.

  /** A page either store answers to a request of the walk is a page in the sense above. */
  lemma StoresAnswerPages(ms: seq<Message>, cid: string, limit: int, before: Option<int>, after: Option<int>,
        page: seq<Message>)
    requires 1 <= limit <= MAX_LIMIT
    ensures var o := ListOptions(Some(limit), before, after);
      page == ListInMemory(ms, cid, o) || ListPostgres(ms, cid, o, page) ==>
        IsPage(Filter(ms, Older(cid, before, after)), limit, page)
  {
    var o := ListOptions(Some(limit), before, after);
    if page == ListInMemory(ms, cid, o) {
      InMemoryIsPage(ms, cid, o);
      var found := Filter(ms, Where(cid, o));
      assert Min(SliceCount(o.limit, |found|), |found|) == Min(limit, |found|);
    } else if ListPostgres(ms, cid, o, page) {
      PostgresIsPage(ms, cid, o, page);
    }
  }

  // Messages are lost in fact, over both stores.

  /** Visit i asked for one message, and both stores may answer its page. */
  ghost predicate AskedBoth(vs: seq<Visit>, i: nat, cid: string)
    requires i < |vs|
  {
    var o := ListOptions(Some(1), Cursor(vs, i), None);
    vs[i].page == ListInMemory(vs[i].log, cid, o) && ListPostgres(vs[i].log, cid, o, vs[i].page)
  }

  lemma PairFilter(a: Message, b: Message, q: Criteria)
    requires a.conversationId == b.conversationId && a.createdAt == b.createdAt
    ensures Filter([a, b], q) == if Meets(a, q) then [a, b] else []
  {
    assert [a, b][..1] == [a] && [a][..0] == [];
    assert Filter([a], q) == if Meets(a, q) then [a] else [];
  }

  lemma PairInMemory(a: Message, b: Message, o: ListOptions)
    requires a.conversationId == b.conversationId && a.createdAt == b.createdAt && o.limit == Some(1)
    ensures ListInMemory([a, b], a.conversationId, o) == if Meets(a, Where(a.conversationId, o)) then [b] else []
  {
    PairFilter(a, b, Where(a.conversationId, o));
    SortedIsSort([a, b]);
    SortedIsSort([]);
  }

  lemma PairInTables(a: Message, b: Message, o: ListOptions)
    requires a.conversationId == b.conversationId && a.createdAt == b.createdAt && o.limit == Some(1)
    ensures ListPostgres([a, b], a.conversationId, o, if Meets(a, Where(a.conversationId, o)) then [b] else [])
  {
    PairInMemory(a, b, o);
    PairFilter(a, b, Where(a.conversationId, o));
    InMemoryIsPage([a, b], a.conversationId, o);
    PagesArePossible([a, b], a.conversationId, o, ListInMemory([a, b], a.conversationId, o));
  }

  /** The two visits of such a walk. */
  lemma PairVisit(vs: seq<Visit>, i: nat, a: Message, b: Message)
    requires a.conversationId == b.conversationId && a.createdAt == b.createdAt && a.id != b.id && i < 2
    requires vs == [Visit([a, b], [b]), Visit([a, b], [])]
    ensures AskedBoth(vs, i, a.conversationId) && Answered(vs, i, a.conversationId, None, 1)
  {
    var o := ListOptions(Some(1), Cursor(vs, i), None);
    assert Cursor(vs, 0) == None && Cursor(vs, 1) == Some(b.createdAt);
    PairInMemory(a, b, o);
    PairInTables(a, b, o);
    StoresAnswerPages([a, b], a.conversationId, 1, Cursor(vs, i), None, vs[i].page);
  }

  /** Whatever two messages of one conversation have the same instant, one by one paging over either store may end
      without the first of them. */
  lemma TiedMessageIsLost(a: Message, b: Message) returns (vs: seq<Visit>)
    requires a.conversationId == b.conversationId && a.createdAt == b.createdAt && a.id != b.id
    ensures Walk(vs, a.conversationId, None, 1) && Complete(vs) && forall i: nat :: i < |vs| ==>
      AskedBoth(vs, i, a.conversationId)
    ensures a in History(vs, a.conversationId, None) && Squeezed(vs, a) && !Returned(vs, a.id) && Returned(vs, b.id)
  {
    vs := [Visit([a, b], [b]), Visit([a, b], [])];
    forall i: nat | i < |vs|
      ensures AskedBoth(vs, i, a.conversationId) && Answered(vs, i, a.conversationId, None, 1)
    {
      PairVisit(vs, i, a, b);
    }
    PairFilter(a, b, Older(a.conversationId, None, None));
    assert vs[0].page[0].createdAt == a.createdAt && !Shows(vs[0].page, a.id);
    assert b in vs[0].page && Shows(vs[0].page, b.id);
  }
}
