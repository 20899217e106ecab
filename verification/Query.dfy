/** Reading a conversation's history: the in-memory query (filter, stable sort, filter, filter, slice) against
    the SQL query (WHERE, ORDER BY ... DESC, LIMIT, ORDER BY ... ASC).
    src/adapters/in-memory/message-store.ts:36-56, src/adapters/postgres/message-store.ts:68-104 */
module Query {
  import opened Domain

  const DEFAULT_LIMIT := 50
  const MAX_LIMIT := 200

  /** A filter on messages; a criterion that is None always passes. */
  datatype Criteria = Criteria(cid: Option<string>, before: Option<int>, after: Option<int>)

  predicate Meets(m: Message, q: Criteria) {
    && (q.cid.Some? ==> m.conversationId == q.cid.value)
    && (q.before.Some? ==> m.createdAt < q.before.value)
    && (q.after.Some? ==> m.createdAt > q.after.value)
  }

  function Where(cid: string, o: ListOptions): Criteria {
    Criteria(Some(cid), o.before, o.after)
  }

  function Filter(ms: seq<Message>, q: Criteria): seq<Message> {
    if ms == [] then []
    else
      var front := Filter(ms[..|ms| - 1], q);
      if Meets(ms[|ms| - 1], q) then front + [ms[|ms| - 1]] else front
  }

  ghost predicate Ascending(ms: seq<Message>) {
    forall i, j :: 0 <= i < j < |ms| ==> ms[i].createdAt <= ms[j].createdAt
  }

  ghost predicate Descending(ms: seq<Message>) {
    forall i, j :: 0 <= i < j < |ms| ==> ms[i].createdAt >= ms[j].createdAt
  }

  ghost predicate DistinctInstants(ms: seq<Message>) {
    forall i, j :: 0 <= i < j < |ms| ==> ms[i].createdAt != ms[j].createdAt
  }

  /** Insertion after every element that is not newer, which is what keeps the sort stable. */
  function Insert(ms: seq<Message>, m: Message): seq<Message> {
    if ms == [] || ms[|ms| - 1].createdAt <= m.createdAt then ms + [m]
    else Insert(ms[..|ms| - 1], m) + [ms[|ms| - 1]]
  }

  function StableSort(ms: seq<Message>): seq<Message> {
    if ms == [] then [] else Insert(StableSort(ms[..|ms| - 1]), ms[|ms| - 1])
  }

  function Suffix(ms: seq<Message>, n: int): (r: seq<Message>) {
    if n <= 0 then [] else if n >= |ms| then ms else ms[|ms| - n..]
  }

  /** How many elements `results.slice(-limit)` keeps: minus zero is zero, and a negative limit drops from the front. */
  function SliceCount(limit: Option<int>, n: nat): (r: nat)
    ensures r <= n
  {
    match limit
    case None => n
    case Some(l) =>
      if l == 0 then n
      else if l > 0 then (if l < n then l else n)
      else if n + l < 0 then 0 else n + l
  }

  function ListInMemory(ms: seq<Message>, cid: string, o: ListOptions): seq<Message> {
    var found := StableSort(Filter(ms, Where(cid, o)));
    Suffix(found, SliceCount(o.limit, |found|))
  }

  /** `Math.min(Math.max(limit ?? 50, 1), 200)` */
  function Clamp(limit: Option<int>): (r: nat)
    ensures 1 <= r <= MAX_LIMIT
  {
    var l := if limit.Some? then limit.value else DEFAULT_LIMIT;
    if l < 1 then 1 else if l > MAX_LIMIT then MAX_LIMIT else l
  }

  function Min(a: int, b: int): int {
    if a < b then a else b
  }

  /** What the SQL query may answer. ORDER BY leaves rows with equal keys in any order, so this is a relation. */
  ghost predicate ListPostgres(ms: seq<Message>, cid: string, o: ListOptions, page: seq<Message>) {
    exists recent: seq<Message> ::
      && multiset(recent) == multiset(Filter(ms, Where(cid, o)))
      && Descending(recent)
      && multiset(page) == multiset(recent[..Min(Clamp(o.limit), |recent|)])
      && Ascending(page)
  }

  /** The meaning of a page: the n newest of `found`, oldest first, ties at the boundary broken either way. */
  ghost predicate IsPage(found: seq<Message>, n: nat, page: seq<Message>) {
    && Ascending(page)
    && multiset(page) <= multiset(found)
    && |page| == Min(n, |found|)
    && NoneNewer(multiset(found) - multiset(page), page)
  }

  ghost predicate NoneNewer(rest: multiset<Message>, page: seq<Message>) {
    forall m, p :: m in rest && p in page ==> m.createdAt <= p.createdAt
  }

  // Filtering and sorting.

  lemma FilterAppend(ms: seq<Message>, m: Message, q: Criteria)
    ensures Filter(ms + [m], q) == if Meets(m, q) then Filter(ms, q) + [m] else Filter(ms, q)
  {
    assert (ms + [m])[..|ms|] == ms;
  }

  lemma {:induction false} FilterIn(ms: seq<Message>, q: Criteria)
    ensures forall m :: m in Filter(ms, q) <==> m in ms && Meets(m, q)
  {
    if ms != [] {
      FilterIn(ms[..|ms| - 1], q);
      assert ms == ms[..|ms| - 1] + [ms[|ms| - 1]];
    }
  }

  lemma {:induction false} FilterAscending(ms: seq<Message>, q: Criteria)
    requires Ascending(ms)
    ensures Ascending(Filter(ms, q))
  {
    if ms != [] {
      var front, last := ms[..|ms| - 1], ms[|ms| - 1];
      FilterAscending(front, q);
      FilterIn(front, q);
      var kept := Filter(front, q);
      forall i | 0 <= i < |kept|
        ensures kept[i].createdAt <= last.createdAt
      {
        assert kept[i] in kept;
      }
    }
  }

  lemma {:induction false} InsertFacts(ms: seq<Message>, m: Message)
    ensures |Insert(ms, m)| == |ms| + 1
    ensures multiset(Insert(ms, m)) == multiset(ms) + multiset{m}
    ensures Ascending(ms) ==> Ascending(Insert(ms, m))
  {
    if ms != [] && ms[|ms| - 1].createdAt > m.createdAt {
      var front, last := ms[..|ms| - 1], ms[|ms| - 1];
      var r := Insert(front, m);
      InsertFacts(front, m);
      assert ms == front + [last];
      if Ascending(ms) {
        forall i | 0 <= i < |r|
          ensures r[i].createdAt <= last.createdAt
        {
          assert r[i] in multiset(r);
          assert r[i] in front || r[i] == m;
        }
      }
    }
  }

  lemma {:induction false} SortFacts(ms: seq<Message>)
    ensures |StableSort(ms)| == |ms|
    ensures multiset(StableSort(ms)) == multiset(ms)
    ensures Ascending(StableSort(ms))
  {
    if ms != [] {
      SortFacts(ms[..|ms| - 1]);
      InsertFacts(StableSort(ms[..|ms| - 1]), ms[|ms| - 1]);
      assert ms == ms[..|ms| - 1] + [ms[|ms| - 1]];
    }
  }

  lemma InsertLast(front: seq<Message>, last: Message, m: Message)
    ensures Insert(front + [last], m) ==
      if last.createdAt <= m.createdAt then front + [last] + [m] else Insert(front, m) + [last]
  {
    assert (front + [last])[..|front|] == front;
  }

  lemma {:induction false} FilterInsert(ms: seq<Message>, m: Message, q: Criteria)
    requires Ascending(ms)
    ensures Filter(Insert(ms, m), q) == if Meets(m, q) then Insert(Filter(ms, q), m) else Filter(ms, q)
  {
    if ms == [] {
      FilterAppend(ms, m, q);
    } else if ms[|ms| - 1].createdAt <= m.createdAt {
      FilterAppend(ms, m, q);
      FilterIn(ms, q);
      var kept := Filter(ms, q);
      if kept != [] {
        assert kept[|kept| - 1] in kept;
      }
    } else {
      var front, last := ms[..|ms| - 1], ms[|ms| - 1];
      assert ms == front + [last];
      FilterInsert(front, m, q);
      assert Insert(ms, m) == Insert(front, m) + [last];
      FilterAppend(Insert(front, m), last, q);
      InsertLast(Filter(front, q), last, m);
    }
  }

  lemma FilterDistinct(ms: seq<Message>, q: Criteria)
    requires DistinctInstants(ms)
    ensures DistinctInstants(Filter(ms, q))
  {
    if ms != [] {
      var front, last := ms[..|ms| - 1], ms[|ms| - 1];
      FilterDistinct(front, q);
      FilterIn(front, q);
      var kept := Filter(front, q);
      forall i | 0 <= i < |kept|
        ensures kept[i].createdAt != last.createdAt
      {
        assert kept[i] in front;
      }
    }
  }

  /** Filtering before or after the stable sort is the same query. */
  lemma {:induction false} FilterSort(ms: seq<Message>, q: Criteria)
    ensures Filter(StableSort(ms), q) == StableSort(Filter(ms, q))
  {
    if ms != [] {
      var front, last := ms[..|ms| - 1], ms[|ms| - 1];
      FilterSort(front, q);
      SortFacts(front);
      FilterInsert(StableSort(front), last, q);
      if Meets(last, q) {
        var kept := Filter(front, q) + [last];
        assert kept[..|kept| - 1] == Filter(front, q);
      }
    }
  }

  lemma NewestLast(ms: seq<Message>, m: Message)
    requires ms == [] || ms[|ms| - 1].createdAt <= m.createdAt
    ensures Insert(ms, m) == ms + [m]
  {
  }

  lemma {:induction false} SortedIsSort(ms: seq<Message>)
    requires Ascending(ms)
    ensures StableSort(ms) == ms
  {
    if ms != [] {
      var front, last := ms[..|ms| - 1], ms[|ms| - 1];
      SortedIsSort(front);
      NewestLast(front, last);
      assert front + [last] == ms;
    }
  }

  lemma {:induction false} FilterTwice(ms: seq<Message>, q: Criteria, r: Criteria, both: Criteria)
    requires forall m :: Meets(m, both) <==> Meets(m, q) && Meets(m, r)
    ensures Filter(Filter(ms, q), r) == Filter(ms, both)
  {
    if ms != [] {
      var front, last := ms[..|ms| - 1], ms[|ms| - 1];
      FilterTwice(front, q, r, both);
      if Meets(last, q) {
        FilterAppend(Filter(front, q), last, r);
      }
    }
  }

  // Both queries answer a page.

  lemma SplitMultiset(s: seq<Message>, i: int)
    requires 0 <= i <= |s|
    ensures multiset(s) == multiset(s[..i]) + multiset(s[i..])
  {
    assert s == s[..i] + s[i..];
  }

  lemma CutAscending(s: seq<Message>, i: nat)
    requires Ascending(s) && i <= |s|
    ensures Ascending(s[i..]) && NoneNewer(multiset(s[..i]), s[i..])
  {
    forall m, p | m in multiset(s[..i]) && p in s[i..]
      ensures m.createdAt <= p.createdAt
    {
      assert m in s[..i];
      var x :| 0 <= x < i && s[x] == m;
      var y :| i <= y < |s| && s[y] == p;
    }
  }

  /** The end of an ascending arrangement is a page. */
  lemma SuffixIsPage(found: seq<Message>, s: seq<Message>, i: nat)
    requires Ascending(s) && multiset(s) == multiset(found) && i <= |s|
    ensures IsPage(found, |s| - i, s[i..])
  {
    assert |multiset(s)| == |s| && |multiset(found)| == |found|;
    SplitMultiset(s, i);
    CutAscending(s, i);
    assert multiset(found) - multiset(s[i..]) == multiset(s[..i]);
  }

  /** With a positive limit the in-memory query answers a page; without one, everything that matches, oldest first. */
  lemma InMemoryIsPage(ms: seq<Message>, cid: string, o: ListOptions)
    ensures var found := Filter(ms, Where(cid, o));
      IsPage(found, SliceCount(o.limit, |found|), ListInMemory(ms, cid, o))
  {
    var found := Filter(ms, Where(cid, o));
    var s := StableSort(found);
    SortFacts(found);
    var n := SliceCount(o.limit, |found|);
    SuffixIsPage(found, s, |s| - n);
    assert ListInMemory(ms, cid, o) == s[|s| - n..];
  }

  /** Whatever order the database gives tied rows, the SQL query answers a page. */
  lemma PostgresIsPage(ms: seq<Message>, cid: string, o: ListOptions, page: seq<Message>)
    requires ListPostgres(ms, cid, o, page)
    ensures IsPage(Filter(ms, Where(cid, o)), Clamp(o.limit), page)
  {
    var found := Filter(ms, Where(cid, o));
    var recent: seq<Message> :|
      && multiset(recent) == multiset(found)
      && Descending(recent)
      && multiset(page) == multiset(recent[..Min(Clamp(o.limit), |recent|)])
      && Ascending(page);
    var n := Min(Clamp(o.limit), |recent|);
    assert |multiset(recent)| == |multiset(found)|;
    assert |multiset(page)| == |multiset(recent[..n])|;
    SplitMultiset(recent, n);
    CutDescending(recent, n);
    assert multiset(found) - multiset(page) == multiset(recent[n..]);
    SameIsNoneNewer(multiset(recent[n..]), recent[..n], page);
  }

  lemma CutDescending(s: seq<Message>, n: nat)
    requires Descending(s) && n <= |s|
    ensures NoneNewer(multiset(s[n..]), s[..n])
  {
    forall m, p | m in multiset(s[n..]) && p in s[..n]
      ensures m.createdAt <= p.createdAt
    {
      assert m in s[n..];
      var x :| n <= x < |s| && s[x] == m;
      var y :| 0 <= y < n && s[y] == p;
    }
  }

  lemma SameIsNoneNewer(rest: multiset<Message>, a: seq<Message>, b: seq<Message>)
    requires multiset(a) == multiset(b) && NoneNewer(rest, a)
    ensures NoneNewer(rest, b)
  {
    forall m, p | m in rest && p in b
      ensures m.createdAt <= p.createdAt
    {
      assert p in multiset(a);
      assert p in a;
    }
  }

  lemma LastIsNewest(a: seq<Message>, m: Message)
    requires Ascending(a) && m in a
    ensures m.createdAt <= a[|a| - 1].createdAt
  {
  }

  lemma OnePerInstant(a: seq<Message>, x: Message, y: Message)
    requires DistinctInstants(a) && x in a && y in a && x.createdAt == y.createdAt
    ensures x == y
  {
    var i, j :| 0 <= i < |a| && a[i] == x && 0 <= j < |a| && a[j] == y;
  }

  lemma DropLast(a: seq<Message>, b: seq<Message>)
    requires a != [] && b != [] && a[|a| - 1] == b[|b| - 1] && multiset(a) == multiset(b)
    ensures multiset(a[..|a| - 1]) == multiset(b[..|b| - 1])
  {
    assert a == a[..|a| - 1] + [a[|a| - 1]];
    assert b == b[..|b| - 1] + [b[|b| - 1]];
    assert multiset(a[..|a| - 1]) == multiset(a) - multiset{a[|a| - 1]};
    assert multiset(b[..|b| - 1]) == multiset(b) - multiset{b[|b| - 1]};
  }

  lemma SameLast(a: seq<Message>, b: seq<Message>)
    requires Ascending(a) && Ascending(b) && multiset(a) == multiset(b) && DistinctInstants(a) && a != []
    ensures b != [] && a[|a| - 1] == b[|b| - 1]
    ensures multiset(a[..|a| - 1]) == multiset(b[..|b| - 1])
  {
    assert |multiset(a)| == |a| && |multiset(b)| == |b|;
    var x, y := a[|a| - 1], b[|b| - 1];
    assert x in multiset(b) && y in multiset(a);
    LastIsNewest(b, x);
    LastIsNewest(a, y);
    OnePerInstant(a, x, y);
    DropLast(a, b);
  }

  /** Two ascending arrangements of the same rows with distinct instants are the same sequence. */
  lemma {:induction false} AscendingUnique(a: seq<Message>, b: seq<Message>)
    requires Ascending(a) && Ascending(b) && multiset(a) == multiset(b) && DistinctInstants(a)
    ensures a == b
  {
    if a == [] {
      assert |multiset(b)| == 0;
    } else {
      SameLast(a, b);
      var c, d := a[..|a| - 1], b[..|b| - 1];
      AscendingUnique(c, d);
      assert a == c + [a[|a| - 1]] && b == d + [b[|b| - 1]];
    }
  }

  /** What `found` holds beyond `page`, as a sequence. */
  lemma {:induction false} Remainder(found: seq<Message>, page: seq<Message>) returns (rest: seq<Message>)
    requires multiset(page) <= multiset(found)
    ensures multiset(found) == multiset(rest) + multiset(page)
    ensures |found| == |rest| + |page|
  {
    if page == [] {
      rest := found;
    } else {
      var p := page[|page| - 1];
      assert page == page[..|page| - 1] + [p];
      var more := Remainder(found, page[..|page| - 1]);
      assert multiset(page)[p] <= multiset(found)[p];
      assert p in multiset(more);
      var i :| 0 <= i < |more| && more[i] == p;
      rest := more[..i] + more[i + 1..];
      assert more == more[..i] + [p] + more[i + 1..];
    }
  }

  lemma OccursTwice(b: seq<Message>, i: nat, j: nat)
    requires i < j < |b| && b[i] == b[j]
    ensures multiset(b)[b[i]] >= 2
  {
    assert b == b[..j] + [b[j]] + b[j + 1..];
    assert b[..j][i] == b[i];
  }

  lemma DistinctPermutes(a: seq<Message>, b: seq<Message>)
    requires DistinctInstants(a) && multiset(a) == multiset(b)
    ensures DistinctInstants(b)
  {
    forall i, j | 0 <= i < j < |b|
      ensures b[i].createdAt != b[j].createdAt
    {
      if b[i].createdAt == b[j].createdAt {
        assert b[i] in multiset(a) && b[j] in multiset(a);
        OnePerInstant(a, b[i], b[j]);
        OccursOnce(a, b[i]);
        OccursTwice(b, i, j);
      }
    }
  }

  lemma {:induction false} OccursOnce(a: seq<Message>, m: Message)
    requires DistinctInstants(a)
    ensures multiset(a)[m] <= 1
  {
    if a != [] {
      OccursOnce(a[..|a| - 1], m);
      assert a == a[..|a| - 1] + [a[|a| - 1]];
      if a[|a| - 1] == m {
        assert m !in a[..|a| - 1];
      }
    }
  }

  /** With distinct instants a page is determined: it is the end of the sorted history. */
  lemma PageUnique(found: seq<Message>, n: nat, page: seq<Message>)
    requires IsPage(found, n, page) && DistinctInstants(found)
    ensures page == Suffix(StableSort(found), Min(n, |found|))
  {
    var rest := Remainder(found, page);
    var s := StableSort(rest) + page;
    SortFacts(rest);
    SortFacts(found);
    assert multiset(s) == multiset(found);
    forall i, j | 0 <= i < j < |s|
      ensures s[i].createdAt <= s[j].createdAt
    {
      if i < |rest| <= j {
        assert s[i] in multiset(StableSort(rest));
        assert s[i] in multiset(found) - multiset(page);
        assert s[j] in page;
      }
    }
    DistinctPermutes(found, s);
    AscendingUnique(s, StableSort(found));
  }

  /** The two limits keep equally many of n matching messages. */
  predicate LimitsAgree(limit: Option<int>, n: nat) {
    match limit
    case None => n <= DEFAULT_LIMIT
    case Some(l) =>
      if l > 0 then l <= MAX_LIMIT || n <= MAX_LIMIT
      else if l == 0 then n <= 1
      else n == 0 || n == 1 - l
  }

  /** The SQL query and the in-memory query answer the same, for every log whose matching messages have
      distinct instants, exactly when their limits keep equally many. */
  lemma QueryEquivalence(ms: seq<Message>, cid: string, o: ListOptions, page: seq<Message>)
    requires ListPostgres(ms, cid, o, page)
    requires DistinctInstants(Filter(ms, Where(cid, o)))
    ensures page == ListInMemory(ms, cid, o) <==> LimitsAgree(o.limit, |Filter(ms, Where(cid, o))|)
    ensures o.limit.Some? && 1 <= o.limit.value <= MAX_LIMIT ==> page == ListInMemory(ms, cid, o)
  {
    var found := Filter(ms, Where(cid, o));
    PostgresIsPage(ms, cid, o, page);
    PageUnique(found, Clamp(o.limit), page);
    SortFacts(found);
    SuffixesAgree(StableSort(found), Min(Clamp(o.limit), |found|), SliceCount(o.limit, |found|));
  }

  lemma SuffixesAgree(s: seq<Message>, m: nat, n: nat)
    requires m <= |s| && n <= |s|
    ensures Suffix(s, m) == Suffix(s, n) <==> m == n
  {
    assert |Suffix(s, m)| == m && |Suffix(s, n)| == n;
  }

  function Reverse(ms: seq<Message>): (r: seq<Message>)
    ensures |r| == |ms| && forall i :: 0 <= i < |ms| ==> r[i] == ms[|ms| - 1 - i]
    ensures multiset(r) == multiset(ms)
  {
    if ms == [] then []
    else
      assert ms == [ms[0]] + ms[1..];
      Reverse(ms[1..]) + [ms[0]]
  }

  lemma ReverseDescends(a: seq<Message>)
    requires Ascending(a)
    ensures Descending(Reverse(a))
  {
  }

  lemma NewestFirst(page: seq<Message>, rest: seq<Message>)
    requires Ascending(page) && Ascending(rest) && NoneNewer(multiset(rest), page)
    ensures Descending(Reverse(page) + Reverse(rest))
  {
    var newest, older := Reverse(page), Reverse(rest);
    ReverseDescends(page);
    ReverseDescends(rest);
    forall i, j | 0 <= i < |newest| && 0 <= j < |older|
      ensures newest[i].createdAt >= older[j].createdAt
    {
      assert rest[|rest| - 1 - j] in multiset(rest);
      assert page[|page| - 1 - i] in page;
    }
  }

  /** The SQL query can always answer, and any page of the clamped size is an answer it may give. */
  lemma PagesArePossible(ms: seq<Message>, cid: string, o: ListOptions, page: seq<Message>)
    requires IsPage(Filter(ms, Where(cid, o)), Clamp(o.limit), page)
    ensures ListPostgres(ms, cid, o, page)
  {
    var found := Filter(ms, Where(cid, o));
    var rest := Remainder(found, page);
    SortFacts(rest);
    var older := StableSort(rest);
    assert multiset(found) - multiset(page) == multiset(older);
    NewestFirst(page, older);
    var recent := Reverse(page) + Reverse(older);
    assert multiset(recent) == multiset(Reverse(page)) + multiset(Reverse(older));
    IsPossible(ms, cid, o, page, recent);
  }

  /** `recent` is an arrangement of the rows that the page is the newest part of. */
  lemma IsPossible(ms: seq<Message>, cid: string, o: ListOptions, page: seq<Message>, recent: seq<Message>)
    requires multiset(recent) == multiset(Filter(ms, Where(cid, o))) && Descending(recent) && Ascending(page)
    requires Reverse(page) <= recent && |page| == Min(Clamp(o.limit), |Filter(ms, Where(cid, o))|)
    ensures ListPostgres(ms, cid, o, page)
  {
    assert |multiset(recent)| == |recent| == |Filter(ms, Where(cid, o))|;
    assert recent[..|page|] == Reverse(page);
  }

  /** The database can always answer a list. */
  lemma SomePage(ms: seq<Message>, cid: string, o: ListOptions) returns (page: seq<Message>)
    ensures ListPostgres(ms, cid, o, page)
  {
    var clamped := o.(limit := Some(Clamp(o.limit)));
    page := ListInMemory(ms, cid, clamped);
    InMemoryIsPage(ms, cid, clamped);
    assert Where(cid, clamped) == Where(cid, o);
    PagesArePossible(ms, cid, o, page);
  }

  lemma {:induction false} FilterAll(ms: seq<Message>, q: Criteria)
    requires forall m :: m in ms ==> Meets(m, q)
    ensures Filter(ms, q) == ms
  {
    if ms != [] {
      var front, last := ms[..|ms| - 1], ms[|ms| - 1];
      FilterAll(front, q);
      assert last in ms && ms == front + [last];
    }
  }

  // A listing does not look at what a deletion changes.

  function Keys(ms: seq<Message>): (r: seq<Message>)
    ensures |r| == |ms| && forall i :: 0 <= i < |ms| ==> r[i] == Key(ms[i])
  {
    seq(|ms|, i requires 0 <= i < |ms| => Key(ms[i]))
  }

  lemma {:induction false} KeysFilter(ms: seq<Message>, q: Criteria)
    ensures Keys(Filter(ms, q)) == Filter(Keys(ms), q)
  {
    if ms != [] {
      var n := |ms| - 1;
      KeysFilter(ms[..n], q);
      assert Keys(ms)[..n] == Keys(ms[..n]);
      assert Meets(Key(ms[n]), q) <==> Meets(ms[n], q);
    }
  }

  lemma {:induction false} KeysInsert(ms: seq<Message>, m: Message)
    ensures Keys(Insert(ms, m)) == Insert(Keys(ms), Key(m))
  {
    if ms != [] {
      var n := |ms| - 1;
      KeysInsert(ms[..n], m);
      assert Keys(ms)[..n] == Keys(ms[..n]);
    }
  }

  lemma {:induction false} KeysSort(ms: seq<Message>)
    ensures Keys(StableSort(ms)) == StableSort(Keys(ms))
  {
    if ms != [] {
      var n := |ms| - 1;
      KeysSort(ms[..n]);
      assert Keys(ms)[..n] == Keys(ms[..n]);
      KeysInsert(StableSort(ms[..n]), ms[n]);
    }
  }

  lemma KeysList(ms: seq<Message>, cid: string, o: ListOptions)
    ensures Keys(ListInMemory(ms, cid, o)) == ListInMemory(Keys(ms), cid, o)
  {
    KeysFilter(ms, Where(cid, o));
    KeysSort(Filter(ms, Where(cid, o)));
  }

  lemma SameKeysSameList(a: seq<Message>, b: seq<Message>, cid: string, o: ListOptions)
    requires Keys(a) == Keys(b)
    ensures Keys(ListInMemory(a, cid, o)) == Keys(ListInMemory(b, cid, o))
  {
    KeysList(a, cid, o);
    KeysList(b, cid, o);
  }
}
