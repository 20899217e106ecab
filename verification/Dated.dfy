/** The operations that carry the instant they were asked at, `clear` and `softDelete`, and a database with those that
    wait applied ahead of time. src/core/messaging-service.ts:189, 211 */
module Dated {
  import opened Domain
  import opened Query
  import opened Paging
  import opened Stores

  /** The caller reads the clock for the operation. */
  predicate IsDated(op: Op) {
    op.SoftDelete? || (op.MarkParticipant? && op.mark.Cleared?)
  }

  /** What a stamp or a deletion leaves. */
  function Write(s: Store, op: Op): Store {
    match op
    case MarkParticipant(cid, user, mark) => s.(convs := Marked(s.convs, cid, user, mark))
    case SoftDelete(mid, at) => s.(msgs := Tombstoned(s.msgs, mid, at))
    case _ => s
  }

  function Ahead(s: Store, ops: seq<Op>): Store {
    if ops == [] then s else Write(Ahead(s, ops[..|ops| - 1]), ops[|ops| - 1])
  }

  // What they leave alone.

  /** The same store but for marks, and for messages that have been deleted in `t`. */
  ghost predicate Alike(s: Store, t: Store) {
    && t.kind == s.kind && |t.convs| == |s.convs| && |t.msgs| == |s.msgs|
    && (forall i :: 0 <= i < |s.convs| ==> SameMembers(s.convs[i], t.convs[i]))
    && (forall i :: 0 <= i < |s.msgs| ==> Becomes(s.msgs[i], t.msgs[i]))
  }

  lemma WriteAlike(s: Store, op: Op)
    ensures Alike(s, Write(s, op))
  {
    if op.MarkParticipant? {
      forall i | 0 <= i < |s.convs|
        ensures SameMembers(s.convs[i], Write(s, op).convs[i])
      {
        RestampKeeps(s.convs[i], op.cid, op.user, op.mark);
      }
    }
  }

  lemma AlikeTrans(s: Store, t: Store, u: Store)
    requires Alike(s, t) && Alike(t, u)
    ensures Alike(s, u)
  {
    forall i | 0 <= i < |s.convs|
      ensures SameMembers(s.convs[i], u.convs[i])
    {
      assert SameMembers(s.convs[i], t.convs[i]) && SameMembers(t.convs[i], u.convs[i]);
    }
    forall i | 0 <= i < |s.msgs|
      ensures Becomes(s.msgs[i], u.msgs[i])
    {
      assert Becomes(s.msgs[i], t.msgs[i]) && Becomes(t.msgs[i], u.msgs[i]);
    }
  }

  lemma {:induction false} AheadAlike(s: Store, ops: seq<Op>)
    ensures Alike(s, Ahead(s, ops))
  {
    if ops != [] {
      var front := ops[..|ops| - 1];
      AheadAlike(s, front);
      WriteAlike(Ahead(s, front), ops[|ops| - 1]);
      AlikeTrans(s, Ahead(s, front), Ahead(s, ops));
    } else {
      AlikeSelf(s);
    }
  }

  lemma AlikeSelf(s: Store)
    ensures Alike(s, s)
  {
  }

  lemma AlikeKeeps(s: Store, t: Store)
    requires Alike(s, t) && WellFormed(s)
    ensures WellFormed(t) && Keeps(s.convs, t.convs) && Appends(s.msgs, t.msgs) && Keys(s.msgs) == Keys(t.msgs)
  {
    forall i, j | 0 <= i < j < |t.msgs|
      ensures t.msgs[i].id != t.msgs[j].id
    {
      assert Becomes(s.msgs[i], t.msgs[i]) && Becomes(s.msgs[j], t.msgs[j]);
      assert s.msgs[i].id == Key(s.msgs[i]).id && t.msgs[i].id == Key(t.msgs[i]).id;
      assert s.msgs[j].id == Key(s.msgs[j]).id && t.msgs[j].id == Key(t.msgs[j]).id;
    }
    forall i, j | 0 <= i < j < |t.convs|
      ensures t.convs[i].id != t.convs[j].id
    {
      assert SameMembers(s.convs[i], t.convs[i]) && SameMembers(s.convs[j], t.convs[j]);
    }
    forall i | 0 <= i < |t.convs| && t.kind.Postgres?
      ensures NoDuplicates(UserIds(t.convs[i].participants))
    {
      assert SameMembers(s.convs[i], t.convs[i]);
    }
    forall i | 0 <= i < |s.msgs|
      ensures Keys(s.msgs)[i] == Keys(t.msgs)[i]
    {
      assert Becomes(s.msgs[i], t.msgs[i]);
    }
  }

  lemma {:induction false} AlikeFinds(a: seq<Conversation>, b: seq<Conversation>, cid: string)
    requires |a| == |b| && forall i :: 0 <= i < |a| ==> SameMembers(a[i], b[i])
    ensures Find(a, cid).Some? <==> Find(b, cid).Some?
    ensures Find(a, cid).Some? ==> SameMembers(Find(a, cid).value, Find(b, cid).value)
  {
    if a != [] {
      assert SameMembers(a[0], b[0]);
      AlikeFinds(a[1..], b[1..], cid);
    }
  }

  lemma {:induction false} AlikeFindsMessage(a: seq<Message>, b: seq<Message>, mid: string)
    requires |a| == |b| && forall i :: 0 <= i < |a| ==> Becomes(a[i], b[i])
    ensures FindById(a, mid).Some? <==> FindById(b, mid).Some?
    ensures FindById(a, mid).Some? ==> Becomes(FindById(a, mid).value, FindById(b, mid).value)
  {
    if a != [] {
      assert Becomes(a[0], b[0]) && a[0].id == Key(a[0]).id && b[0].id == Key(b[0]).id;
      AlikeFindsMessage(a[1..], b[1..], mid);
    }
  }

  lemma {:induction false} AlikeConcerning(a: seq<Conversation>, b: seq<Conversation>, user: string)
    requires |a| == |b| && forall i :: 0 <= i < |a| ==> SameMembers(a[i], b[i])
    ensures |Concerning(a, user)| == |Concerning(b, user)|
    ensures forall i :: 0 <= i < |Concerning(a, user)| ==> SameMembers(Concerning(a, user)[i], Concerning(b, user)[i])
  {
    if a != [] {
      var n := |a| - 1;
      assert SameMembers(a[n], b[n]);
      AlikeConcerning(a[..n], b[..n], user);
    }
  }

  // The order in which writes are applied matters only between two of one kind to one place.

  predicate Independent(p: Op, q: Op) {
    match p
    case MarkParticipant(cid, user, mark) =>
      q.MarkParticipant? ==> q.cid != cid || q.user != user || q.mark.Read? != mark.Read?
    case SoftDelete(mid, _) => q.SoftDelete? ==> q.mid != mid
    case _ => true
  }

  lemma {:induction false} StampsCommute(ps: seq<Participant>, u: string, m: Mark, v: string, n: Mark)
    requires u != v || m.Read? != n.Read?
    ensures StampFirst(StampFirst(ps, u, m), v, n) == StampFirst(StampFirst(ps, v, n), u, m)
  {
    if ps != [] {
      var um, vn := StampFirst(ps, u, m), StampFirst(ps, v, n);
      assert um[1..] == if ps[0].userId == u then ps[1..] else StampFirst(ps[1..], u, m);
      assert vn[1..] == if ps[0].userId == v then ps[1..] else StampFirst(ps[1..], v, n);
      StampsCommute(ps[1..], u, m, v, n);
    }
  }

  lemma WritesCommute(s: Store, p: Op, q: Op)
    requires Independent(p, q)
    ensures Write(Write(s, p), q) == Write(Write(s, q), p)
  {
    if p.MarkParticipant? && q.MarkParticipant? {
      MarksCommute(s.convs, p.cid, p.user, p.mark, q.cid, q.user, q.mark);
    } else if p.SoftDelete? && q.SoftDelete? {
      assert Tombstoned(Tombstoned(s.msgs, p.mid, p.at), q.mid, q.at)
        == Tombstoned(Tombstoned(s.msgs, q.mid, q.at), p.mid, p.at);
    }
  }

  lemma MarksCommute(cs: seq<Conversation>, c: string, u: string, m: Mark, d: string, v: string, n: Mark)
    requires c != d || u != v || m.Read? != n.Read?
    ensures Marked(Marked(cs, c, u, m), d, v, n) == Marked(Marked(cs, d, v, n), c, u, m)
  {
    forall i | 0 <= i < |cs|
      ensures Marked(Marked(cs, c, u, m), d, v, n)[i] == Marked(Marked(cs, d, v, n), c, u, m)[i]
    {
      if c == d {
        StampsCommute(cs[i].participants, u, m, v, n);
      }
    }
  }

  /** A write independent of all that wait may as well come first. */
  lemma {:induction false} AheadCommutes(s: Store, ops: seq<Op>, op: Op)
    requires forall i :: 0 <= i < |ops| ==> Independent(ops[i], op)
    ensures Ahead(Write(s, op), ops) == Write(Ahead(s, ops), op)
  {
    if ops != [] {
      var front, last := ops[..|ops| - 1], ops[|ops| - 1];
      AheadCommutes(s, front, op);
      WritesCommute(Ahead(s, front), last, op);
    }
  }

  /** Writes do not reach what is created while they wait. */
  lemma {:induction false} AheadCreates(s: Store, ops: seq<Op>, c: Conversation)
    requires forall i :: 0 <= i < |ops| && ops[i].MarkParticipant? ==> ops[i].cid != c.id
    ensures Ahead(s.(convs := s.convs + [c]), ops) == Ahead(s, ops).(convs := Ahead(s, ops).convs + [c])
  {
    if ops != [] {
      var front, last := ops[..|ops| - 1], ops[|ops| - 1];
      AheadCreates(s, front, c);
      var t := Ahead(s, front);
      if last.MarkParticipant? {
        assert Marked(t.convs + [c], last.cid, last.user, last.mark) ==
          Marked(t.convs, last.cid, last.user, last.mark) + [c];
      }
    }
  }

  lemma {:induction false} AheadSends(s: Store, ops: seq<Op>, m: Message)
    requires forall i :: 0 <= i < |ops| && ops[i].SoftDelete? ==> ops[i].mid != m.id
    ensures Ahead(s.(msgs := s.msgs + [m]), ops) == Ahead(s, ops).(msgs := Ahead(s, ops).msgs + [m])
  {
    if ops != [] {
      var front, last := ops[..|ops| - 1], ops[|ops| - 1];
      AheadSends(s, front, m);
      var t := Ahead(s, front);
      if last.SoftDelete? {
        assert Tombstoned(t.msgs + [m], last.mid, last.at) == Tombstoned(t.msgs, last.mid, last.at) + [m];
      }
    }
  }

  // What the database holds once all that wait are applied: of clears the last counts, of deletions the first.

  predicate ClearsRow(op: Op, cid: string, user: string) {
    op.MarkParticipant? && op.mark.Cleared? && op.cid == cid && op.user == user
  }

  function LastClear(ops: seq<Op>, cid: string, user: string): Option<int> {
    if ops == [] then None
    else if ClearsRow(ops[|ops| - 1], cid, user) then Some(ops[|ops| - 1].mark.at)
    else LastClear(ops[..|ops| - 1], cid, user)
  }

  function FirstDeletion(ops: seq<Op>, mid: string): Option<int> {
    if ops == [] then None
    else
      var before, op := FirstDeletion(ops[..|ops| - 1], mid), ops[|ops| - 1];
      if before.None? && op.SoftDelete? && op.mid == mid then Some(op.at) else before
  }

  predicate First(ps: seq<Participant>, q: nat)
    requires q < |ps|
  {
    forall i :: 0 <= i < q ==> ps[i].userId != ps[q].userId
  }

  lemma FirstShifts(ps: seq<Participant>, q: nat)
    requires 0 < q < |ps| && ps[0].userId != ps[q].userId
    ensures First(ps, q) <==> First(ps[1..], q - 1)
  {
    if First(ps[1..], q - 1) {
      forall i | 0 <= i < q
        ensures ps[i].userId != ps[q].userId
      {
        assert i > 0 ==> ps[i] == ps[1..][i - 1];
      }
    }
  }

  lemma {:induction false} StampsOnly(ps: seq<Participant>, user: string, mark: Mark, q: nat)
    requires q < |ps|
    ensures StampFirst(ps, user, mark)[q] ==
      if ps[q].userId == user && First(ps, q) then Stamp(ps[q], mark) else ps[q]
  {
    if q > 0 && ps[0].userId != user {
      var rest := ps[1..];
      assert rest[q - 1] == ps[q];
      assert StampFirst(ps, user, mark) == [ps[0]] + StampFirst(rest, user, mark);
      StampsOnly(rest, user, mark, q - 1);
      if ps[q].userId == user {
        FirstShifts(ps, q);
      }
    } else if q > 0 {
      assert StampFirst(ps, user, mark) == [Stamp(ps[0], mark)] + ps[1..];
      assert ps[q].userId == user ==> !First(ps, q);
    }
  }

  function ClearedBy(p: Participant, at: Option<int>): Participant {
    if at.Some? then p.(clearedAt := at) else p
  }

  /** Participant q of conversation i, with all that wait applied. */
  lemma {:induction false} AheadParticipant(s: Store, ops: seq<Op>, i: nat, q: nat)
    requires i < |s.convs| && q < |s.convs[i].participants| && forall j :: 0 <= j < |ops| ==> IsDated(ops[j])
    ensures |Ahead(s, ops).convs| == |s.convs|
    ensures |Ahead(s, ops).convs[i].participants| == |s.convs[i].participants|
    ensures var c, p := s.convs[i], s.convs[i].participants[q];
      && Ahead(s, ops).convs[i] == c.(participants := Ahead(s, ops).convs[i].participants)
      && Ahead(s, ops).convs[i].participants[q] ==
           if First(c.participants, q) then ClearedBy(p, LastClear(ops, c.id, p.userId)) else p
  {
    AheadAlike(s, ops);
    assert SameMembers(s.convs[i], Ahead(s, ops).convs[i]);
    assert |UserIds(s.convs[i].participants)| == |UserIds(Ahead(s, ops).convs[i].participants)|;
    if ops != [] {
      var front, last := ops[..|ops| - 1], ops[|ops| - 1];
      AheadParticipant(s, front, i, q);
      AheadAlike(s, front);
      var before := Ahead(s, front).convs[i];
      assert SameMembers(s.convs[i], before);
      SameFirst(s.convs[i].participants, before.participants, q);
      if last.MarkParticipant? && last.cid == before.id {
        StampsOnly(before.participants, last.user, last.mark, q);
      }
    }
  }

  lemma SameFirst(ps: seq<Participant>, qs: seq<Participant>, q: nat)
    requires UserIds(ps) == UserIds(qs) && q < |ps|
    ensures |qs| == |ps| && ps[q].userId == qs[q].userId && (First(ps, q) <==> First(qs, q))
  {
    assert |qs| == |UserIds(qs)|;
    assert forall i :: 0 <= i < |ps| ==> UserIds(ps)[i] == UserIds(qs)[i];
  }

  lemma {:induction false} AheadMessage(s: Store, ops: seq<Op>, i: nat)
    requires i < |s.msgs|
    ensures |Ahead(s, ops).msgs| == |s.msgs|
    ensures var at := FirstDeletion(ops, s.msgs[i].id);
      Ahead(s, ops).msgs[i] == if at.Some? then Tombstone(s.msgs[i], at.value) else s.msgs[i]
  {
    if ops != [] {
      AheadMessage(s, ops[..|ops| - 1], i);
    }
  }

  function Without<T>(s: seq<T>, k: nat): seq<T>
    requires k < |s|
  {
    s[..k] + s[k + 1..]
  }

  /** A write that executes changes nothing of that: of the clears of a row, the one asked for last stays the last one;
      the message is a tombstone already, or this is the first of its deletions. */
  predicate InOrder(s: Store, ops: seq<Op>, k: nat)
    requires k < |ops| && IsDated(ops[k])
  {
    match ops[k]
    case MarkParticipant(cid, user, mark) =>
      var rest := LastClear(Without(ops, k), cid, user);
      LastClear(ops, cid, user) == if rest.Some? then rest else Some(mark.at)
    case SoftDelete(mid, at) =>
      var m := FindById(s.msgs, mid);
      (m.Some? && m.value.deletedAt.None?) ==> FirstDeletion(ops, mid) == Some(at)
  }

  ghost predicate AllDated(ops: seq<Op>) {
    forall i :: 0 <= i < |ops| ==> IsDated(ops[i])
  }

  lemma {:induction false} LastClearWithout(ops: seq<Op>, k: nat, cid: string, user: string)
    requires k < |ops| && !ClearsRow(ops[k], cid, user)
    ensures LastClear(Without(ops, k), cid, user) == LastClear(ops, cid, user)
    decreases |ops|
  {
    var n := |ops| - 1;
    if k == n {
      assert Without(ops, k) == ops[..n];
    } else {
      var rest := Without(ops, k);
      assert rest[..|rest| - 1] == Without(ops[..n], k) && rest[|rest| - 1] == ops[n];
      LastClearWithout(ops[..n], k, cid, user);
    }
  }

  lemma {:induction false} FirstDeletionWithout(ops: seq<Op>, k: nat, mid: string)
    requires k < |ops| && !(ops[k].SoftDelete? && ops[k].mid == mid)
    ensures FirstDeletion(Without(ops, k), mid) == FirstDeletion(ops, mid)
    decreases |ops|
  {
    var n := |ops| - 1;
    if k == n {
      assert Without(ops, k) == ops[..n];
    } else {
      var rest := Without(ops, k);
      assert rest[..|rest| - 1] == Without(ops[..n], k) && rest[|rest| - 1] == ops[n];
      FirstDeletionWithout(ops[..n], k, mid);
    }
  }

  lemma {:induction false} LastClearIs(ops: seq<Op>, k: nat, cid: string, user: string)
    requires k < |ops| && ClearsRow(ops[k], cid, user)
    ensures LastClear(ops, cid, user).Some?
  {
    if k < |ops| - 1 {
      LastClearIs(ops[..|ops| - 1], k, cid, user);
    }
  }

  lemma {:induction false} FirstDeletionIs(ops: seq<Op>, k: nat)
    requires k < |ops| && ops[k].SoftDelete?
    ensures FirstDeletion(ops, ops[k].mid).Some?
  {
    if k < |ops| - 1 {
      FirstDeletionIs(ops[..|ops| - 1], k);
    }
  }

  /** What becomes of one participant if a clear that waits executes now. */
  lemma ClearedParticipant(s: Store, ops: seq<Op>, k: nat, i: nat, q: nat)
    requires AllDated(ops) && k < |ops| && ops[k].MarkParticipant?
    requires i < |s.convs| && q < |s.convs[i].participants|
    ensures var t, u := Ahead(Write(s, ops[k]), Without(ops, k)), Ahead(s, ops);
      var c, op := s.convs[i], ops[k];
      && |t.convs| == |u.convs| == |s.convs|
      && |t.convs[i].participants| == |u.convs[i].participants| == |c.participants|
      && t.convs[i] == c.(participants := t.convs[i].participants)
      && u.convs[i] == c.(participants := u.convs[i].participants)
      && (t.convs[i].participants[q] == u.convs[i].participants[q] <==>
            (First(c.participants, q) && c.id == op.cid && c.participants[q].userId == op.user ==> InOrder(s, ops, k)))
  {
    var c, op, rest := s.convs[i], ops[k], Without(ops, k);
    var s1 := Write(s, op);
    WriteAlike(s, op);
    assert SameMembers(c, s1.convs[i]);
    SameFirst(c.participants, s1.convs[i].participants, q);
    AheadParticipant(s, ops, i, q);
    AheadParticipant(s1, rest, i, q);
    if c.id == op.cid {
      StampsOnly(c.participants, op.user, op.mark, q);
    }
    if ClearsRow(op, c.id, c.participants[q].userId) {
      LastClearIs(ops, k, c.id, op.user);
    } else {
      LastClearWithout(ops, k, c.id, c.participants[q].userId);
    }
  }

  lemma ClearLeavesMessages(s: Store, ops: seq<Op>, k: nat)
    requires k < |ops| && ops[k].MarkParticipant?
    ensures Ahead(Write(s, ops[k]), Without(ops, k)).msgs == Ahead(s, ops).msgs
  {
    var s1, rest := Write(s, ops[k]), Without(ops, k);
    AheadAlike(s, ops);
    AheadAlike(s1, rest);
    forall i | 0 <= i < |s.msgs|
      ensures Ahead(s1, rest).msgs[i] == Ahead(s, ops).msgs[i]
    {
      AheadMessage(s, ops, i);
      AheadMessage(s1, rest, i);
      FirstDeletionWithout(ops, k, s.msgs[i].id);
    }
  }

  lemma ClearInOrder(s: Store, ops: seq<Op>, k: nat)
    requires AllDated(ops) && k < |ops| && ops[k].MarkParticipant? && InOrder(s, ops, k)
    ensures Ahead(Write(s, ops[k]), Without(ops, k)) == Ahead(s, ops)
  {
    var t, u := Ahead(Write(s, ops[k]), Without(ops, k)), Ahead(s, ops);
    WriteAlike(s, ops[k]);
    AheadAlike(s, ops);
    AheadAlike(Write(s, ops[k]), Without(ops, k));
    ClearLeavesMessages(s, ops, k);
    forall i | 0 <= i < |s.convs|
      ensures t.convs[i] == u.convs[i]
    {
      SameConversation(s, ops, k, i);
    }
    assert t.convs == u.convs;
  }

  lemma SameConversation(s: Store, ops: seq<Op>, k: nat, i: nat)
    requires AllDated(ops) && k < |ops| && ops[k].MarkParticipant? && InOrder(s, ops, k) && i < |s.convs|
    ensures var t, u := Ahead(Write(s, ops[k]), Without(ops, k)), Ahead(s, ops);
      i < |t.convs| && i < |u.convs| && t.convs[i] == u.convs[i]
  {
    var t, u := Ahead(Write(s, ops[k]), Without(ops, k)), Ahead(s, ops);
    WriteAlike(s, ops[k]);
    AheadAlike(s, ops);
    AheadAlike(Write(s, ops[k]), Without(ops, k));
    AlikeTrans(s, Write(s, ops[k]), t);
    assert SameMembers(s.convs[i], t.convs[i]) && SameMembers(s.convs[i], u.convs[i]);
    assert |UserIds(t.convs[i].participants)| == |UserIds(u.convs[i].participants)|;
    forall q | 0 <= q < |s.convs[i].participants|
      ensures t.convs[i].participants[q] == u.convs[i].participants[q]
    {
      ClearedParticipant(s, ops, k, i, q);
    }
    assert |UserIds(s.convs[i].participants)| == |UserIds(t.convs[i].participants)|;
    assert t.convs[i].participants == u.convs[i].participants;
  }

  lemma {:induction false} FirstUpTo(ps: seq<Participant>, q: nat) returns (r: nat)
    requires q < |ps|
    ensures r <= q && ps[r].userId == ps[q].userId && First(ps, r)
  {
    if i :| 0 <= i < q && ps[i].userId == ps[q].userId {
      r := FirstUpTo(ps, i);
    } else {
      r := q;
    }
  }

  /** A clear that executes leaves what will be as it was, exactly if it is in order. */
  lemma ClearExactly(s: Store, ops: seq<Op>, k: nat)
    requires AllDated(ops) && k < |ops| && ops[k].MarkParticipant?
    requires exists i :: 0 <= i < |s.convs| && s.convs[i].id == ops[k].cid && IsParticipant(s.convs[i], ops[k].user)
    ensures Ahead(Write(s, ops[k]), Without(ops, k)) == Ahead(s, ops) <==> InOrder(s, ops, k)
  {
    if InOrder(s, ops, k) {
      ClearInOrder(s, ops, k);
    } else {
      var i :| 0 <= i < |s.convs| && s.convs[i].id == ops[k].cid && IsParticipant(s.convs[i], ops[k].user);
      var last :| 0 <= last < |s.convs[i].participants| && s.convs[i].participants[last].userId == ops[k].user;
      var q := FirstUpTo(s.convs[i].participants, last);
      ClearedParticipant(s, ops, k, i, q);
    }
  }

  /** What becomes of one message if a deletion that waits executes now. */
  lemma DeletedMessage(s: Store, ops: seq<Op>, k: nat, i: nat)
    requires AllDated(ops) && k < |ops| && ops[k].SoftDelete? && i < |s.msgs| && DistinctIds(s.msgs)
    ensures var t, u := Ahead(Write(s, ops[k]), Without(ops, k)), Ahead(s, ops);
      && |t.msgs| == |u.msgs| == |s.msgs|
      && (t.msgs[i] == u.msgs[i] <==> (s.msgs[i].id == ops[k].mid ==> InOrder(s, ops, k)))
  {
    var op, rest := ops[k], Without(ops, k);
    var s1 := Write(s, op);
    AheadMessage(s, ops, i);
    AheadMessage(s1, rest, i);
    FindByIdUnique(s.msgs, i);
    if s.msgs[i].id == op.mid {
      FirstDeletionIs(ops, k);
    } else {
      FirstDeletionWithout(ops, k, s.msgs[i].id);
    }
  }

  lemma DeletionLeavesConversations(s: Store, ops: seq<Op>, k: nat)
    requires AllDated(ops) && k < |ops| && ops[k].SoftDelete?
    ensures Ahead(Write(s, ops[k]), Without(ops, k)).convs == Ahead(s, ops).convs
  {
    var s1, rest := Write(s, ops[k]), Without(ops, k);
    var t, u := Ahead(s1, rest), Ahead(s, ops);
    AheadAlike(s, ops);
    AheadAlike(s1, rest);
    forall i | 0 <= i < |s.convs|
      ensures t.convs[i] == u.convs[i]
    {
      assert SameMembers(s.convs[i], t.convs[i]) && SameMembers(s.convs[i], u.convs[i]);
      assert |UserIds(t.convs[i].participants)| == |UserIds(s.convs[i].participants)|;
      assert |UserIds(u.convs[i].participants)| == |UserIds(s.convs[i].participants)|;
      forall q | 0 <= q < |s.convs[i].participants|
        ensures t.convs[i].participants[q] == u.convs[i].participants[q]
      {
        AheadParticipant(s, ops, i, q);
        AheadParticipant(s1, rest, i, q);
        LastClearWithout(ops, k, s.convs[i].id, s.convs[i].participants[q].userId);
      }
      assert t.convs[i].participants == u.convs[i].participants;
    }
  }

  lemma DeletionExactly(s: Store, ops: seq<Op>, k: nat)
    requires AllDated(ops) && k < |ops| && ops[k].SoftDelete?
    requires DistinctIds(s.msgs) && FindById(s.msgs, ops[k].mid).Some?
    ensures Ahead(Write(s, ops[k]), Without(ops, k)) == Ahead(s, ops) <==> InOrder(s, ops, k)
  {
    var t, u := Ahead(Write(s, ops[k]), Without(ops, k)), Ahead(s, ops);
    DeletionLeavesConversations(s, ops, k);
    AheadAlike(s, ops);
    AheadAlike(Write(s, ops[k]), Without(ops, k));
    if InOrder(s, ops, k) {
      forall i | 0 <= i < |s.msgs|
        ensures t.msgs[i] == u.msgs[i]
      {
        DeletedMessage(s, ops, k, i);
      }
      assert t.msgs == u.msgs;
    } else {
      var i :| 0 <= i < |s.msgs| && s.msgs[i] == FindById(s.msgs, ops[k].mid).value;
      DeletedMessage(s, ops, k, i);
    }
  }
}
