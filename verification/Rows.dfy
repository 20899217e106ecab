/** Regrouping joined conversation/participant rows into conversations (src/adapters/postgres/rows.ts:51-68). */
module Rows {
  import opened Domain

  datatype JoinRow = JoinRow(id: string, createdAt: int, userId: string, lastReadAt: Option<int>,
    clearedAt: Option<int>)

  function ToParticipant(row: JoinRow): Participant {
    Participant(row.userId, row.lastReadAt, row.clearedAt)
  }

  /** The conversation ids of the rows, in first-seen order. */
  function FirstSeen(rows: seq<JoinRow>): seq<string> {
    if rows == [] then []
    else
      var ids := FirstSeen(rows[..|rows| - 1]);
      if rows[|rows| - 1].id in ids then ids else ids + [rows[|rows| - 1].id]
  }

  /** The participants of conversation `id`, in row order. */
  function ParticipantsIn(rows: seq<JoinRow>, id: string): seq<Participant> {
    if rows == [] then []
    else
      var ps := ParticipantsIn(rows[..|rows| - 1], id);
      if rows[|rows| - 1].id == id then ps + [ToParticipant(rows[|rows| - 1])] else ps
  }

  /** The creation instant on the first row of conversation `id`. */
  function CreatedAtIn(rows: seq<JoinRow>, id: string): int {
    if rows == [] then 0
    else if id in FirstSeen(rows[..|rows| - 1]) then CreatedAtIn(rows[..|rows| - 1], id)
    else rows[|rows| - 1].createdAt
  }

  function Group(rows: seq<JoinRow>, id: string): Conversation {
    Conversation(id, ParticipantsIn(rows, id), CreatedAtIn(rows, id))
  }

  function Grouped(rows: seq<JoinRow>): (r: seq<Conversation>)
    ensures |r| == |FirstSeen(rows)|
    ensures forall k :: 0 <= k < |r| ==> r[k] == Group(rows, FirstSeen(rows)[k])
  {
    var ids := FirstSeen(rows);
    seq(|ids|, k requires 0 <= k < |ids| => Group(rows, ids[k]))
  }

  /** An insertion-ordered map from ids to conversations: `order` lists the keys of `byId` as they were set. */
  method RowsToConversations(rows: seq<JoinRow>) returns (r: seq<Conversation>)
    ensures r == Grouped(rows)
  {
    var order: seq<string> := [];
    var byId: map<string, Conversation> := map[];
    for i := 0 to |rows|
      invariant order == FirstSeen(rows[..i])
      invariant forall id :: id in byId <==> id in order
      invariant forall id :: id in byId ==> byId[id] == Group(rows[..i], id)
    {
      var row := rows[i];
      assert rows[..i + 1][..i] == rows[..i];
      if row.id !in byId {
        NoParticipants(rows[..i], row.id);
        byId := byId[row.id := Conversation(row.id, [], row.createdAt)];
        order := order + [row.id];
      }
      var conversation := byId[row.id];
      byId := byId[row.id := conversation.(participants := conversation.participants + [ToParticipant(row)])];
    }
    assert rows[..|rows|] == rows;
    r := seq(|order|, k requires 0 <= k < |order| => byId[order[k]]);
  }

  lemma {:induction false} NoParticipants(rows: seq<JoinRow>, id: string)
    ensures id !in FirstSeen(rows) <==> ParticipantsIn(rows, id) == []
    ensures id in FirstSeen(rows) <==> exists i :: 0 <= i < |rows| && rows[i].id == id
  {
    if rows != [] {
      NoParticipants(rows[..|rows| - 1], id);
      assert rows[|rows| - 1].id == id ==> id in FirstSeen(rows);
    }
  }

  lemma {:induction false} FirstSeenDistinct(rows: seq<JoinRow>)
    ensures forall i, j :: 0 <= i < j < |FirstSeen(rows)| ==> FirstSeen(rows)[i] != FirstSeen(rows)[j]
  {
    if rows != [] {
      FirstSeenDistinct(rows[..|rows| - 1]);
    }
  }

  // Joining, the inverse.

  function RowOf(c: Conversation, p: Participant): JoinRow {
    JoinRow(c.id, c.createdAt, p.userId, p.lastReadAt, p.clearedAt)
  }

  function RowsOf(c: Conversation): (r: seq<JoinRow>)
    ensures |r| == |c.participants|
    ensures forall i :: 0 <= i < |r| ==> r[i] == RowOf(c, c.participants[i])
  {
    seq(|c.participants|, i requires 0 <= i < |c.participants| => RowOf(c, c.participants[i]))
  }

  function Join(cs: seq<Conversation>): seq<JoinRow> {
    if cs == [] then [] else Join(cs[..|cs| - 1]) + RowsOf(cs[|cs| - 1])
  }

  ghost predicate DistinctConversations(cs: seq<Conversation>) {
    forall i, j :: 0 <= i < j < |cs| ==> cs[i].id != cs[j].id
  }

  lemma {:induction false} Append(a: seq<JoinRow>, b: seq<JoinRow>, id: string)
    ensures ParticipantsIn(a + b, id) == ParticipantsIn(a, id) + ParticipantsIn(b, id)
    ensures CreatedAtIn(a + b, id) == if id in FirstSeen(a) || b == [] then CreatedAtIn(a, id) else CreatedAtIn(b, id)
    ensures id in FirstSeen(a + b) <==> id in FirstSeen(a) || id in FirstSeen(b)
  {
    if b == [] {
      assert a + b == a;
    } else {
      var front, last := b[..|b| - 1], b[|b| - 1];
      assert (a + b)[..|a + b| - 1] == a + front;
      Append(a, front, id);
      if front == [] {
        assert a + front == a;
      }
    }
  }

  lemma {:induction false} OneConversation(rows: seq<JoinRow>, c: Conversation)
    requires forall i :: 0 <= i < |rows| ==> rows[i].id == c.id && rows[i].createdAt == c.createdAt
    ensures FirstSeen(rows) == if rows == [] then [] else [c.id]
    ensures rows != [] ==> CreatedAtIn(rows, c.id) == c.createdAt
    ensures |ParticipantsIn(rows, c.id)| == |rows|
    ensures forall i :: 0 <= i < |rows| ==> ParticipantsIn(rows, c.id)[i] == ToParticipant(rows[i])
  {
    if rows != [] {
      OneConversation(rows[..|rows| - 1], c);
    }
  }

  lemma {:induction false} AppendConversation(a: seq<JoinRow>, b: seq<JoinRow>, c: Conversation)
    requires forall i :: 0 <= i < |b| ==> b[i].id == c.id
    requires c.id !in FirstSeen(a)
    ensures FirstSeen(a + b) == if b == [] then FirstSeen(a) else FirstSeen(a) + [c.id]
  {
    if b == [] {
      assert a + b == a;
    } else {
      assert (a + b)[..|a + b| - 1] == a + b[..|b| - 1];
      AppendConversation(a, b[..|b| - 1], c);
    }
  }

  lemma GroupBefore(a: seq<JoinRow>, c: Conversation, id: string)
    requires id in FirstSeen(a) && id != c.id
    ensures Group(a + RowsOf(c), id) == Group(a, id)
  {
    Append(a, RowsOf(c), id);
    NoParticipants(RowsOf(c), id);
  }

  lemma GroupLast(a: seq<JoinRow>, c: Conversation)
    requires c.id !in FirstSeen(a) && c.participants != []
    ensures FirstSeen(a + RowsOf(c)) == FirstSeen(a) + [c.id]
    ensures Group(a + RowsOf(c), c.id) == c
  {
    AppendConversation(a, RowsOf(c), c);
    Append(a, RowsOf(c), c.id);
    NoParticipants(a, c.id);
    OneConversation(RowsOf(c), c);
    assert ParticipantsIn(RowsOf(c), c.id) == c.participants;
  }

  lemma GroupingStep(front: seq<Conversation>, last: Conversation)
    requires DistinctConversations(front + [last]) && last.participants != []
    requires Grouped(Join(front)) == front
    ensures Grouped(Join(front) + RowsOf(last)) == front + [last]
  {
    var a := Join(front);
    forall k | 0 <= k < |front|
      ensures FirstSeen(a)[k] == front[k].id && front[k].id != last.id
      ensures Group(a + RowsOf(last), front[k].id) == front[k]
    {
      assert Grouped(a)[k] == front[k];
      assert (front + [last])[k] == front[k] && (front + [last])[|front|] == last;
      GroupBefore(a, last, front[k].id);
    }
    GroupLast(a, last);
  }

  /** Grouping undoes joining, for conversations with distinct ids that have participants. */
  lemma {:induction false} GroupingUndoesJoin(cs: seq<Conversation>)
    requires DistinctConversations(cs) && forall c :: c in cs ==> c.participants != []
    ensures Grouped(Join(cs)) == cs
  {
    if cs != [] {
      var front, last := cs[..|cs| - 1], cs[|cs| - 1];
      GroupingUndoesJoin(front);
      assert cs == front + [last];
      GroupingStep(front, last);
    }
  }

  // Conservation: no row is lost or invented.

  ghost predicate IdDeterminesInstant(rows: seq<JoinRow>) {
    forall i, j :: 0 <= i < |rows| && 0 <= j < |rows| && rows[i].id == rows[j].id ==>
      rows[i].createdAt == rows[j].createdAt
  }

  lemma {:induction false} CreatedAtOfRow(rows: seq<JoinRow>, i: nat)
    requires IdDeterminesInstant(rows) && i < |rows|
    ensures CreatedAtIn(rows, rows[i].id) == rows[i].createdAt
    ensures rows[i].id in FirstSeen(rows)
  {
    var front := rows[..|rows| - 1];
    NoParticipants(rows, rows[i].id);
    NoParticipants(front, rows[i].id);
    if rows[i].id in FirstSeen(front) {
      var j :| 0 <= j < |front| && front[j].id == rows[i].id;
      CreatedAtOfRow(front, j);
    }
  }

  lemma {:induction false} JoinSplit(cs: seq<Conversation>, k: nat)
    requires k <= |cs|
    ensures Join(cs) == Join(cs[..k]) + Join(cs[k..])
  {
    if k == |cs| {
      assert cs[..k] == cs;
    } else {
      var front := cs[..|cs| - 1];
      JoinSplit(front, k);
      assert front[..k] == cs[..k] && cs[k..][..|cs[k..]| - 1] == front[k..];
    }
  }

  lemma JoinUpdate(cs: seq<Conversation>, k: nat, c: Conversation)
    requires k < |cs|
    ensures multiset(Join(cs[k := c])) + multiset(RowsOf(cs[k])) == multiset(Join(cs)) + multiset(RowsOf(c))
  {
    JoinSplit(cs, k);
    JoinSplit(cs[k := c], k);
    JoinSplit(cs[k..], 1);
    JoinSplit(cs[k := c][k..], 1);
    assert cs[k := c][..k] == cs[..k];
    assert cs[k := c][k..][1..] == cs[k..][1..];
    assert cs[k..][..1] == [cs[k]] && cs[k := c][k..][..1] == [c];
    assert [c][..0] == [] && [cs[k]][..0] == [];
  }

  lemma GroupAppend(front: seq<JoinRow>, row: JoinRow, id: string)
    requires id in FirstSeen(front)
    ensures Group(front + [row], id) ==
      if row.id == id then Group(front, id).(participants := ParticipantsIn(front, id) + [ToParticipant(row)])
      else Group(front, id)
  {
    assert (front + [row])[..|front|] == front;
  }

  /** One more row either extends one group or starts a new one. */
  lemma GroupedStep(front: seq<JoinRow>, row: JoinRow) returns (k: nat, g: Conversation)
    requires IdDeterminesInstant(front + [row])
    ensures var before, after := Grouped(front), Grouped(front + [row]);
      if row.id in FirstSeen(front) then
        k < |before| && after == before[k := g] && RowsOf(g) == RowsOf(before[k]) + [row]
      else after == before + [g] && RowsOf(g) == [row]
  {
    var rows := front + [row];
    assert rows[..|front|] == front;
    CreatedAtOfRow(rows, |front|);
    NoParticipants(front, row.id);
    g := Group(rows, row.id);
    forall id | id in FirstSeen(front)
      ensures id != row.id ==> Group(rows, id) == Group(front, id)
    {
      GroupAppend(front, row, id);
    }
    if row.id in FirstSeen(front) {
      GroupAppend(front, row, row.id);
      FirstSeenDistinct(front);
      k :| 0 <= k < |FirstSeen(front)| && FirstSeen(front)[k] == row.id;
    } else {
      k := 0;
    }
  }

  lemma JoinAppend(cs: seq<Conversation>, c: Conversation)
    ensures Join(cs + [c]) == Join(cs) + RowsOf(c)
  {
    assert (cs + [c])[..|cs|] == cs;
  }

  lemma Cancel(a: multiset<JoinRow>, b: multiset<JoinRow>, r: multiset<JoinRow>, x: multiset<JoinRow>)
    requires a + r == b + (r + x)
    ensures a == b + x
  {
    assert a == (a + r) - r;
    assert b + x == (b + (r + x)) - r;
  }

  lemma GroupedStepRows(front: seq<JoinRow>, row: JoinRow)
    requires IdDeterminesInstant(front + [row])
    ensures multiset(Join(Grouped(front + [row]))) == multiset(Join(Grouped(front))) + multiset{row}
  {
    var before := Grouped(front);
    var k, g := GroupedStep(front, row);
    if row.id in FirstSeen(front) {
      JoinUpdate(before, k, g);
      assert multiset(RowsOf(g)) == multiset(RowsOf(before[k])) + multiset{row};
      Cancel(multiset(Join(before[k := g])), multiset(Join(before)), multiset(RowsOf(before[k])), multiset{row});
    } else {
      JoinAppend(before, g);
    }
  }

  /** Grouping conserves rows: joining the groups again gives back every row, as often as it came. */
  lemma {:induction false} GroupingConservesRows(rows: seq<JoinRow>)
    requires IdDeterminesInstant(rows)
    ensures multiset(Join(Grouped(rows))) == multiset(rows)
  {
    if rows != [] {
      var front, last := rows[..|rows| - 1], rows[|rows| - 1];
      GroupingConservesRows(front);
      assert rows == front + [last];
      GroupedStepRows(front, last);
    }
  }

  // The order rows come in only affects order.

  ghost predicate Same(c: Conversation, d: Conversation) {
    c.id == d.id && c.createdAt == d.createdAt && multiset(c.participants) == multiset(d.participants)
  }

  lemma ParticipantsInsert(left: seq<JoinRow>, x: JoinRow, right: seq<JoinRow>, id: string)
    ensures multiset(ParticipantsIn(left + [x] + right, id)) ==
      multiset(ParticipantsIn(left + right, id)) + if x.id == id then multiset{ToParticipant(x)} else multiset{}
  {
    Append(left, right, id);
    Append(left, [x], id);
    Append(left + [x], right, id);
    assert [x][..0] == [];
  }

  /** The participants of a conversation depend on which rows come, not on their order. */
  lemma {:induction false} ParticipantsPermute(a: seq<JoinRow>, b: seq<JoinRow>, id: string)
    requires multiset(a) == multiset(b)
    ensures multiset(ParticipantsIn(a, id)) == multiset(ParticipantsIn(b, id))
    decreases |a|
  {
    if a == [] {
      assert |multiset(b)| == 0;
    } else {
      var last := a[|a| - 1];
      assert last in multiset(b);
      var front, none := SplitAt(a, |a| - 1);
      var i :| 0 <= i < |b| && b[i] == last;
      var left, right := SplitAt(b, i);
      RemoveAt(front, last, none);
      RemoveAt(left, last, right);
      ParticipantsInsert(front, last, none, id);
      ParticipantsInsert(left, last, right, id);
      ParticipantsPermute(front + none, left + right, id);
    }
  }

  lemma {:induction false} JoinMember(cs: seq<Conversation>, row: JoinRow)
    ensures row in Join(cs) <==> exists c, p :: c in cs && p in c.participants && row == RowOf(c, p)
  {
    if cs != [] {
      var front, last := cs[..|cs| - 1], cs[|cs| - 1];
      assert cs == front + [last];
      JoinMember(front, row);
      if row in RowsOf(last) {
        var i :| 0 <= i < |RowsOf(last)| && RowsOf(last)[i] == row;
        assert last in cs && last.participants[i] in last.participants;
      }
      forall c, p | c in cs && p in c.participants && row == RowOf(c, p)
        ensures row in Join(cs)
      {
        if c !in front {
          var i :| 0 <= i < |c.participants| && c.participants[i] == p;
          assert RowsOf(last)[i] == row;
        }
      }
    }
  }

  lemma SameId(cs: seq<Conversation>, c: Conversation, d: Conversation)
    requires DistinctConversations(cs) && c in cs && d in cs && c.id == d.id
    ensures c == d
  {
  }

  /** However the database orders the rows of a join, each group holds the same conversation up to the
      order of its participants, and exactly the joined conversations come out. */
  lemma GroupingAnyOrder(cs: seq<Conversation>, rows: seq<JoinRow>)
    requires DistinctConversations(cs) && forall c :: c in cs ==> c.participants != []
    requires multiset(rows) == multiset(Join(cs))
    ensures forall g :: g in Grouped(rows) ==> exists c :: c in cs && Same(g, c)
    ensures forall c :: c in cs ==> c.id in FirstSeen(rows)
  {
    GroupingUndoesJoin(cs);
    var joined := Join(cs);
    forall c | c in cs
      ensures Same(Group(rows, c.id), c) && c.id in FirstSeen(rows)
    {
      var k :| 0 <= k < |cs| && cs[k] == c;
      assert Grouped(joined)[k] == c;
      ParticipantsPermute(rows, joined, c.id);
      var row := RowOf(c, c.participants[0]);
      JoinMember(cs, row);
      assert row in multiset(rows);
      InstantsOfJoin(cs, rows);
      var i :| 0 <= i < |rows| && rows[i] == row;
      CreatedAtOfRow(rows, i);
    }
    forall g | g in Grouped(rows)
      ensures exists c :: c in cs && Same(g, c)
    {
      var k :| 0 <= k < |Grouped(rows)| && Grouped(rows)[k] == g;
      assert g.id in FirstSeen(rows);
      NoParticipants(rows, g.id);
      var i :| 0 <= i < |rows| && rows[i].id == g.id;
      assert rows[i] in multiset(joined);
      JoinMember(cs, rows[i]);
      var c, p :| c in cs && p in c.participants && rows[i] == RowOf(c, p);
      assert Same(g, c);
    }
  }

  lemma InstantsOfJoin(cs: seq<Conversation>, rows: seq<JoinRow>)
    requires DistinctConversations(cs) && multiset(rows) == multiset(Join(cs))
    ensures IdDeterminesInstant(rows)
  {
    forall i, j | 0 <= i < |rows| && 0 <= j < |rows| && rows[i].id == rows[j].id
      ensures rows[i].createdAt == rows[j].createdAt
    {
      assert rows[i] in multiset(Join(cs)) && rows[j] in multiset(Join(cs));
      JoinMember(cs, rows[i]);
      JoinMember(cs, rows[j]);
      var c, p :| c in cs && p in c.participants && rows[i] == RowOf(c, p);
      var d, q :| d in cs && q in d.participants && rows[j] == RowOf(d, q);
      SameId(cs, c, d);
    }
  }
}
