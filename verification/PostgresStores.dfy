/** The Postgres adapters over an explicit database: three tables, their keys, and one method per statement.
    Whatever order a statement leaves open stays open in that method's contract.
    src/adapters/postgres/conversation-store.ts, message-store.ts, schema.sql, 2026-08-25-deletes.sql */
module PostgresStores {
  import opened Domain
  import opened Query
  import opened Rows
  import opened Paging
  import opened Stores

  datatype ConversationRow = ConversationRow(id: string, createdAt: int)

  datatype ParticipantRow = ParticipantRow(conversationId: string, userId: string, lastReadAt: Option<int>,
    clearedAt: Option<int>)

  function AsParticipant(row: ParticipantRow): Participant {
    Participant(row.userId, row.lastReadAt, row.clearedAt)
  }

  /** The participants a conversation has in the table. */
  function ParticipantsOf(rows: seq<ParticipantRow>, cid: string): seq<Participant> {
    if rows == [] then []
    else
      var front := ParticipantsOf(rows[..|rows| - 1], cid);
      if rows[|rows| - 1].conversationId == cid then front + [AsParticipant(rows[|rows| - 1])] else front
  }

  function Assembled(row: ConversationRow, ps: seq<ParticipantRow>): Conversation {
    Conversation(row.id, ParticipantsOf(ps, row.id), row.createdAt)
  }

  /** What the two tables say together. */
  function Content(cs: seq<ConversationRow>, ps: seq<ParticipantRow>): (r: seq<Conversation>)
    ensures |r| == |cs| && forall i :: 0 <= i < |cs| ==> r[i] == Assembled(cs[i], ps)
  {
    seq(|cs|, i requires 0 <= i < |cs| => Assembled(cs[i], ps))
  }

  /** PRIMARY KEY (conversation_id, user_id) */
  ghost predicate ParticipantKey(ps: seq<ParticipantRow>) {
    forall i, j :: 0 <= i < j < |ps| ==> !(ps[i].conversationId == ps[j].conversationId && ps[i].userId == ps[j].userId)
  }

  ghost predicate HasRow(cs: seq<ConversationRow>, cid: string) {
    exists i :: 0 <= i < |cs| && cs[i].id == cid
  }

  function Update(row: ParticipantRow, cid: string, user: string, mark: Mark): ParticipantRow {
    if row.conversationId == cid && row.userId == user then
      match mark
      case Read(at) => row.(lastReadAt := Some(at))
      case Cleared(at) => row.(clearedAt := Some(at))
    else row
  }

  function Updated(ps: seq<ParticipantRow>, cid: string, user: string, mark: Mark): (r: seq<ParticipantRow>)
    ensures |r| == |ps| && forall i :: 0 <= i < |ps| ==> r[i] == Update(ps[i], cid, user, mark)
  {
    seq(|ps|, i requires 0 <= i < |ps| => Update(ps[i], cid, user, mark))
  }

  function RowsFor(cid: string, pids: seq<string>): (r: seq<ParticipantRow>)
    ensures |r| == |pids| && forall i :: 0 <= i < |pids| ==> r[i] == ParticipantRow(cid, pids[i], None, None)
  {
    seq(|pids|, i requires 0 <= i < |pids| => ParticipantRow(cid, pids[i], None, None))
  }

  /** The conversations with an id in `ids` that the join can see, which are those with participants. */
  function Joinable(cs: seq<Conversation>, ids: set<string>): seq<Conversation> {
    if cs == [] then []
    else
      var front, last := Joinable(cs[..|cs| - 1], ids), cs[|cs| - 1];
      if last.id in ids && last.participants != [] then front + [last] else front
  }

  class Database {
    var conversations: seq<ConversationRow>
    var participants: seq<ParticipantRow>
    var messages: seq<Message>

    /** The keys and foreign keys of the schema. */
    ghost predicate Valid()
      reads this
    {
      && (forall i, j :: 0 <= i < j < |conversations| ==> conversations[i].id != conversations[j].id)
      && ParticipantKey(participants)
      && (forall i :: 0 <= i < |participants| ==> HasRow(conversations, participants[i].conversationId))
      && DistinctIds(messages)
      && (forall i :: 0 <= i < |messages| ==> HasRow(conversations, messages[i].conversationId))
    }

    ghost function Conversations(): seq<Conversation>
      reads this
    {
      Content(conversations, participants)
    }

    constructor ()
      ensures Valid() && Conversations() == [] && messages == []
    {
      conversations := [];
      participants := [];
      messages := [];
    }

    /** INSERT INTO conversation_participants SELECT $1, unnest($2): all rows, or none on a duplicate key. */
    method InsertParticipants(cid: string, pids: seq<string>) returns (ok: bool)
      requires forall i :: 0 <= i < |participants| ==> participants[i].conversationId != cid
      modifies this`participants
      ensures ok <==> NoDuplicates(pids)
      ensures participants == if ok then old(participants) + RowsFor(cid, pids) else old(participants)
    {
      var rows: seq<ParticipantRow> := [];
      for i := 0 to |pids|
        invariant rows == RowsFor(cid, pids[..i])
        invariant NoDuplicates(pids[..i])
      {
        for j := 0 to i
          invariant forall k :: 0 <= k < j ==> pids[k] != pids[i]
        {
          if rows[j].userId == pids[i] {
            return false;
          }
        }
        rows := rows + [ParticipantRow(cid, pids[i], None, None)];
      }
      assert pids[..|pids|] == pids;
      participants := participants + rows;
      ok := true;
    }

    /** SELECT ... FROM conversations JOIN conversation_participants WHERE id is one of `ids`, in any order. */
    method SelectJoined(ids: set<string>) returns (rows: seq<JoinRow>)
      ensures multiset(rows) == multiset(Join(Joinable(Conversations(), ids)))
    {
      rows := [];
      ghost var content := Conversations();
      for i := 0 to |conversations|
        invariant rows == Join(Joinable(content[..i], ids))
      {
        var c := conversations[i];
        assert content[..i + 1][..i] == content[..i];
        if c.id in ids {
          var joined: seq<JoinRow> := [];
          for j := 0 to |participants|
            invariant joined == RowsOf(Conversation(c.id, ParticipantsOf(participants[..j], c.id), c.createdAt))
          {
            var p := participants[j];
            assert participants[..j + 1][..j] == participants[..j];
            if p.conversationId == c.id {
              joined := joined + [JoinRow(c.id, c.createdAt, p.userId, p.lastReadAt, p.clearedAt)];
            }
          }
          assert participants[..|participants|] == participants;
          assert joined == RowsOf(content[i]);
          if content[i].participants == [] {
            assert rows + joined == rows;
          } else {
            JoinAppend(Joinable(content[..i], ids), content[i]);
          }
          rows := rows + joined;
        }
      }
      assert content[..|conversations|] == content;
    }

    /** SELECT conversation_id FROM conversation_participants WHERE user_id = $1 */
    method SelectConversationIds(userId: string) returns (ids: set<string>)
      ensures forall cid :: cid in ids <==>
        exists i :: 0 <= i < |participants| && participants[i].conversationId == cid && participants[i].userId == userId
    {
      ids := {};
      for i := 0 to |participants|
        invariant forall cid :: cid in ids <==>
          exists j :: 0 <= j < i && participants[j].conversationId == cid && participants[j].userId == userId
      {
        if participants[i].userId == userId {
          ids := ids + {participants[i].conversationId};
        }
      }
    }

    /** UPDATE conversation_participants SET ... WHERE conversation_id = $2 AND user_id = $3 */
    method UpdateParticipants(cid: string, userId: string, mark: Mark)
      modifies this`participants
      ensures participants == Updated(old(participants), cid, userId, mark)
    {
      var rows: seq<ParticipantRow> := [];
      for i := 0 to |participants|
        invariant participants == old(participants)
        invariant rows == Updated(participants, cid, userId, mark)[..i]
      {
        rows := rows + [Update(participants[i], cid, userId, mark)];
      }
      participants := rows;
    }

    /** UPDATE messages SET body = '', deleted_at = $2 WHERE id = $1 AND deleted_at IS NULL RETURNING ... */
    method UpdateDeleted(id: string, at: int) returns (returned: seq<Message>)
      requires DistinctIds(messages)
      modifies this`messages
      ensures messages == Tombstoned(old(messages), id, at)
      ensures var m := Stores.FindById(old(messages), id);
        returned == if m.Some? && m.value.deletedAt.None? then [Tombstone(m.value, at)] else []
    {
      returned := [];
      var rows: seq<Message> := [];
      for i := 0 to |messages|
        invariant messages == old(messages)
        invariant rows == Tombstoned(messages, id, at)[..i]
        invariant (forall j :: 0 <= j < i ==> messages[j].id != id || messages[j].deletedAt.Some?) ==> returned == []
        invariant forall j :: 0 <= j < i && messages[j].id == id && messages[j].deletedAt.None? ==>
          returned == [Tombstone(messages[j], at)]
      {
        var m := messages[i];
        if m.id == id && m.deletedAt.None? {
          m := m.(body := "", deletedAt := Some(at));
          returned := returned + [m];
        }
        rows := rows + [m];
      }
      ghost var found := Stores.FindById(messages, id);
      if found.Some? {
        ghost var k :| 0 <= k < |messages| && messages[k] == found.value;
        assert forall j :: 0 <= j < |messages| && messages[j].id == id ==> j == k;
      }
      messages := rows;
    }

    /** SELECT ... FROM messages WHERE id = $1 */
    method SelectMessage(id: string) returns (rows: seq<Message>)
      requires DistinctIds(messages)
      ensures var m := Stores.FindById(messages, id); rows == if m.Some? then [m.value] else []
    {
      rows := [];
      for i := 0 to |messages|
        invariant (forall j :: 0 <= j < i ==> messages[j].id != id) ==> rows == []
        invariant forall j :: 0 <= j < i && messages[j].id == id ==> rows == [messages[j]]
      {
        if messages[i].id == id {
          rows := rows + [messages[i]];
        }
      }
      ghost var found := Stores.FindById(messages, id);
      if found.Some? {
        ghost var k :| 0 <= k < |messages| && messages[k] == found.value;
      }
    }

    /** SELECT ... FROM messages WHERE conversation_id = $1 [AND created_at < ...] [AND created_at > ...]
        ORDER BY created_at DESC LIMIT ...: the first rows of the matching ones, newest first, ties in any order. */
    method SelectNewest(where: Criteria, limit: nat) returns (rows: seq<Message>)
      ensures exists recent: seq<Message> ::
        multiset(recent) == multiset(Filter(messages, where)) && Descending(recent)
          && rows == recent[..Min(limit, |recent|)]
    {
      SortFacts(Filter(messages, where));
      var ascending := StableSort(Filter(messages, where));
      ReverseDescends(ascending);
      var recent := Reverse(ascending);
      assert multiset(recent) == multiset(Filter(messages, where));
      rows := recent[..Min(limit, |recent|)];
    }
  }

  /** ORDER BY created_at ASC over messages: ties in any order. */
  method OrderMessages(rows: seq<Message>) returns (r: seq<Message>)
    ensures multiset(r) == multiset(rows) && Ascending(r)
  {
    SortFacts(rows);
    r := StableSort(rows);
  }

  ghost predicate RowsAscend(rows: seq<JoinRow>) {
    forall i, j :: 0 <= i < j < |rows| ==> rows[i].createdAt <= rows[j].createdAt
  }

  lemma InsertedAscends(r: seq<JoinRow>, at: nat, row: JoinRow)
    requires RowsAscend(r) && at <= |r| && (at > 0 ==> r[at - 1].createdAt <= row.createdAt)
    requires forall j :: at <= j < |r| ==> r[j].createdAt > row.createdAt
    ensures RowsAscend(r[..at] + [row] + r[at..])
  {
    var out := r[..at] + [row] + r[at..];
    assert forall k :: 0 <= k < |out| ==> out[k] == if k < at then r[k] else if k == at then row else r[k - 1];
    forall i, j | 0 <= i < j < |out|
      ensures out[i].createdAt <= out[j].createdAt
    {
      if i < at == j {
        assert r[i].createdAt <= r[at - 1].createdAt;
      }
    }
  }

  lemma InsertedCounts(r: seq<JoinRow>, at: nat, row: JoinRow)
    requires at <= |r|
    ensures multiset(r[..at] + [row] + r[at..]) == multiset(r) + multiset{row}
  {
    assert r == r[..at] + r[at..];
  }

  /** ORDER BY c.created_at ASC over the join: ties, and rows of one conversation, in any order. */
  method OrderJoined(rows: seq<JoinRow>) returns (r: seq<JoinRow>)
    ensures multiset(r) == multiset(rows) && RowsAscend(r)
  {
    r := [];
    for i := 0 to |rows|
      invariant multiset(r) == multiset(rows[..i]) && RowsAscend(r)
    {
      var at := |r|;
      while at > 0 && r[at - 1].createdAt > rows[i].createdAt
        invariant 0 <= at <= |r|
        invariant forall j :: at <= j < |r| ==> r[j].createdAt > rows[i].createdAt
      {
        at := at - 1;
      }
      assert rows[..i + 1] == rows[..i] + [rows[i]];
      InsertedAscends(r, at, rows[i]);
      InsertedCounts(r, at, rows[i]);
      r := r[..at] + [rows[i]] + r[at..];
    }
    assert rows[..|rows|] == rows;
  }

  // What the statements mean for the conversations.

  lemma {:induction false} ParticipantsAppend(a: seq<ParticipantRow>, b: seq<ParticipantRow>, cid: string)
    ensures ParticipantsOf(a + b, cid) == ParticipantsOf(a, cid) + ParticipantsOf(b, cid)
  {
    if b == [] {
      assert a + b == a;
    } else {
      assert (a + b)[..|a + b| - 1] == a + b[..|b| - 1];
      ParticipantsAppend(a, b[..|b| - 1], cid);
    }
  }

  lemma {:induction false} ParticipantsOfRowsFor(cid: string, pids: seq<string>, id: string)
    ensures ParticipantsOf(RowsFor(cid, pids), id) == if id == cid then Fresh(pids) else []
  {
    if pids != [] {
      var front := pids[..|pids| - 1];
      assert RowsFor(cid, pids)[..|pids| - 1] == RowsFor(cid, front);
      ParticipantsOfRowsFor(cid, front, id);
    }
  }

  lemma {:induction false} NoRows(ps: seq<ParticipantRow>, cid: string)
    ensures ParticipantsOf(ps, cid) == [] <==> forall i :: 0 <= i < |ps| ==> ps[i].conversationId != cid
  {
    if ps != [] {
      NoRows(ps[..|ps| - 1], cid);
    }
  }

  lemma {:induction false} HasUser(ps: seq<ParticipantRow>, cid: string, user: string)
    ensures user in UserIds(ParticipantsOf(ps, cid)) <==>
      exists i :: 0 <= i < |ps| && ps[i].conversationId == cid && ps[i].userId == user
  {
    if ps != [] {
      var front, last := ps[..|ps| - 1], ps[|ps| - 1];
      HasUser(front, cid, user);
      if last.conversationId == cid {
        assert UserIds(ParticipantsOf(ps, cid)) == UserIds(ParticipantsOf(front, cid)) + [last.userId];
      }
    }
  }

  /** The primary key keeps participants of one conversation apart. */
  lemma {:induction false} KeyMeansNoDuplicates(ps: seq<ParticipantRow>, cid: string)
    requires ParticipantKey(ps)
    ensures NoDuplicates(UserIds(ParticipantsOf(ps, cid)))
  {
    if ps != [] {
      var front, last := ps[..|ps| - 1], ps[|ps| - 1];
      KeyMeansNoDuplicates(front, cid);
      HasUser(front, cid, last.userId);
      if last.conversationId == cid {
        assert UserIds(ParticipantsOf(ps, cid)) == UserIds(ParticipantsOf(front, cid)) + [last.userId];
      }
    }
  }

  /** An UPDATE of the rows of one user in one conversation is the in-memory stamp. */
  lemma {:induction false} UpdateIsStamp(ps: seq<ParticipantRow>, cid: string, user: string, mark: Mark, id: string)
    requires ParticipantKey(ps)
    ensures ParticipantsOf(Updated(ps, cid, user, mark), id) ==
      if id == cid then StampFirst(ParticipantsOf(ps, id), user, mark) else ParticipantsOf(ps, id)
  {
    if ps != [] {
      var front, last := ps[..|ps| - 1], ps[|ps| - 1];
      UpdateIsStamp(front, cid, user, mark, id);
      assert Updated(ps, cid, user, mark)[..|ps| - 1] == Updated(front, cid, user, mark);
      if id == cid && last.conversationId == cid {
        HasUser(front, cid, user);
        StampAppend(ParticipantsOf(front, cid), AsParticipant(last), user, mark);
      }
    }
  }

  lemma {:induction false} StampAppend(ps: seq<Participant>, p: Participant, user: string, mark: Mark)
    ensures StampFirst(ps + [p], user, mark) ==
      if user in UserIds(ps) then StampFirst(ps, user, mark) + [p]
      else ps + [if p.userId == user then Stamp(p, mark) else p]
    ensures user !in UserIds(ps) ==> StampFirst(ps, user, mark) == ps
  {
    if ps == [] {
      assert ps + [p] == [p];
    } else {
      var first, rest := ps[0], ps[1..];
      assert UserIds(ps) == [first.userId] + UserIds(rest);
      assert (ps + [p])[0] == first && (ps + [p])[1..] == rest + [p];
      if first.userId == user {
        var stamped := Stamp(first, mark);
        assert StampFirst(ps + [p], user, mark) == [stamped] + (rest + [p]);
        assert StampFirst(ps, user, mark) == [stamped] + rest;
        assert [stamped] + (rest + [p]) == [stamped] + rest + [p];
      } else {
        StampAppend(rest, p, user, mark);
        var stamped := StampFirst(rest, user, mark);
        assert [first] + (stamped + [p]) == [first] + stamped + [p];
        assert [first] + rest == ps;
      }
    }
  }

  lemma {:induction false} FindInContent(cs: seq<ConversationRow>, ps: seq<ParticipantRow>, cid: string)
    ensures Find(Content(cs, ps), cid).Some? <==> HasRow(cs, cid)
  {
    var content := Content(cs, ps);
    if Find(content, cid).Some? {
      var i :| 0 <= i < |content| && content[i] == Find(content, cid).value;
      assert cs[i].id == cid;
    }
    if HasRow(cs, cid) {
      var i :| 0 <= i < |cs| && cs[i].id == cid;
      assert content[i].id == cid;
    }
  }

  lemma {:induction false} JoinableIn(cs: seq<Conversation>, ids: set<string>, c: Conversation)
    ensures c in Joinable(cs, ids) <==> c in cs && c.id in ids && c.participants != []
    ensures DistinctConversations(cs) ==> DistinctConversations(Joinable(cs, ids))
  {
    if cs != [] {
      var front, last := cs[..|cs| - 1], cs[|cs| - 1];
      assert cs == front + [last];
      JoinableIn(front, ids, c);
      if DistinctConversations(cs) {
        var kept := Joinable(front, ids);
        forall i | 0 <= i < |kept|
          ensures kept[i].id != last.id
        {
          JoinableIn(front, ids, kept[i]);
          var j :| 0 <= j < |front| && front[j] == kept[i];
          assert cs[j].id != cs[|cs| - 1].id;
        }
      }
    }
  }

  lemma {:induction false} JoinableConcerning(cs: seq<Conversation>, ids: set<string>, user: string)
    requires forall c :: c in cs ==> (c.id in ids <==> IsParticipant(c, user))
    ensures Joinable(cs, ids) == Concerning(cs, user)
  {
    if cs != [] {
      var front, last := cs[..|cs| - 1], cs[|cs| - 1];
      assert last in cs;
      JoinableConcerning(front, ids, user);
    }
  }

  ghost predicate HasInstant(rows: seq<JoinRow>, at: int) {
    exists i :: 0 <= i < |rows| && rows[i].createdAt == at
  }

  /** Every group has the instant of one of its rows. */
  lemma {:induction false} GroupInstants(rows: seq<JoinRow>, k: nat)
    requires IdDeterminesInstant(rows) && k < |Grouped(rows)|
    ensures HasInstant(rows, Grouped(rows)[k].createdAt)
  {
    var front, last := rows[..|rows| - 1], rows[|rows| - 1];
    assert rows == front + [last];
    if k < |Grouped(front)| {
      GroupAppend(front, last, FirstSeen(front)[k]);
      GroupInstants(front, k);
      var i :| 0 <= i < |front| && front[i].createdAt == Grouped(front)[k].createdAt;
      assert rows[i] == front[i];
    } else {
      CreatedAtOfRow(rows, |rows| - 1);
      assert rows[|rows| - 1].createdAt == Grouped(rows)[k].createdAt;
    }
  }

  /** Grouping rows in creation order lists conversations in creation order. */
  lemma {:induction false} GroupsAscend(rows: seq<JoinRow>)
    requires RowsAscend(rows) && IdDeterminesInstant(rows)
    ensures OldestFirst(Grouped(rows))
  {
    if rows != [] {
      var n := |rows| - 1;
      var front, last := rows[..n], rows[n];
      GroupsAscend(front);
      assert rows == front + [last];
      var before, after := Grouped(front), Grouped(rows);
      CreatedAtOfRow(rows, n);
      forall k | 0 <= k < |before|
        ensures after[k].createdAt == before[k].createdAt <= last.createdAt
      {
        GroupAppend(front, last, FirstSeen(front)[k]);
        GroupInstants(front, k);
      }
    }
  }

  /** What grouping the rows of some conversations answers, whatever the order of the rows. */
  lemma AnswersSame(cs: seq<Conversation>, rows: seq<JoinRow>)
    requires DistinctConversations(cs) && forall c :: c in cs ==> c.participants != []
    requires multiset(rows) == multiset(Join(cs))
    ensures SameConversations(Grouped(rows), cs)
  {
    var list := Grouped(rows);
    GroupingAnyOrder(cs, rows);
    FirstSeenDistinct(rows);
    forall g | g in list
      ensures Find(cs, g.id).Some? && Same(g, Find(cs, g.id).value)
    {
      var c :| c in cs && Same(g, c);
      SameId(cs, c, Find(cs, g.id).value);
    }
    forall c | c in cs
      ensures Find(list, c.id).Some?
    {
      var k :| 0 <= k < |FirstSeen(rows)| && FirstSeen(rows)[k] == c.id;
      assert list[k].id == c.id;
    }
  }

  lemma ContentDistinct(db: Database)
    requires db.Valid()
    ensures DistinctConversations(db.Conversations())
    ensures forall i :: 0 <= i < |db.Conversations()| ==> NoDuplicates(UserIds(db.Conversations()[i].participants))
  {
    forall i | 0 <= i < |db.Conversations()|
      ensures NoDuplicates(UserIds(db.Conversations()[i].participants))
    {
      KeyMeansNoDuplicates(db.participants, db.conversations[i].id);
    }
  }

  class PostgresConversationStore {
    const db: Database

    constructor (db: Database)
      ensures this.db == db
    {
      this.db := db;
    }

    /** One transaction; a duplicated participant violates the primary key, and everything is rolled back. */
    method Create(participantIds: seq<string>, id: string, now: int) returns (r: Option<Conversation>)
      requires db.Valid() && Find(db.Conversations(), id).None?
      modifies db
      ensures db.Valid() && db.messages == old(db.messages)
      ensures r.None? ==> db.conversations == old(db.conversations) && db.participants == old(db.participants)
      ensures ConversationOp(Postgres, old(db.Conversations()), CreateConversation(participantIds),
        Env(id, now, true), db.Conversations(),
                             if r.Some? then Created(r.value) else Thrown(DuplicateParticipant))
    {
      ghost var before := db.Conversations();
      var conversations, participants := db.conversations, db.participants;
      FindInContent(conversations, participants, id);
      db.conversations := db.conversations + [ConversationRow(id, now)];
      var ok := true;
      if |participantIds| > 0 {
        ok := db.InsertParticipants(id, participantIds);
      } else {
        assert participants + RowsFor(id, participantIds) == participants;
      }
      if !ok {
        db.conversations, db.participants := conversations, participants;
        return None;
      }
      r := Some(Conversation(id, Fresh(participantIds), now));
      InsertKeepsKeys(conversations, participants, id, now, participantIds);
      Inserted(conversations, participants, id, now, participantIds);
      assert db.Conversations() == before + [r.value];
    }

    method FindById(id: string) returns (r: Option<Conversation>)
      requires db.Valid()
      ensures ConversationOp(Postgres, db.Conversations(), FindConversation(id), Env("", 0, true), db.Conversations(),
        FoundConversation(r))
    {
      var rows := db.SelectJoined({id});
      var list := RowsToConversations(rows);
      ghost var cs := Joinable(db.Conversations(), {id});
      ContentDistinct(db);
      OneJoinable(db.Conversations(), id);
      AnswersSame(cs, rows);
      r := if list == [] then None else Some(list[0]);
      if list != [] {
        assert list[0] in list;
      }
      assert cs != [] ==> cs[0] in cs;
    }

    method FindByParticipant(userId: string) returns (r: seq<Conversation>)
      requires db.Valid()
      ensures ConversationOp(Postgres, db.Conversations(), Op.FindByParticipant(userId), Env("", 0, true),
        db.Conversations(), FoundConversations(r))
    {
      var ids := db.SelectConversationIds(userId);
      var joined := db.SelectJoined(ids);
      var rows := OrderJoined(joined);
      r := RowsToConversations(rows);
      ghost var cs := db.Conversations();
      forall c | c in cs
        ensures c.id in ids <==> IsParticipant(c, userId)
      {
        var i :| 0 <= i < |cs| && cs[i] == c;
        HasUser(db.participants, c.id, userId);
      }
      JoinableConcerning(cs, ids, userId);
      ContentDistinct(db);
      forall c: Conversation
        ensures DistinctConversations(Joinable(cs, ids)) && (c in Joinable(cs, ids) ==> c.participants != [])
      {
        JoinableIn(cs, ids, c);
      }
      AnswersSame(Joinable(cs, ids), rows);
      InstantsOfJoin(Joinable(cs, ids), rows);
      GroupsAscend(rows);
    }

    method MarkRead(conversationId: string, userId: string, at: int)
      requires db.Valid()
      modifies db
      ensures db.Valid() && db.messages == old(db.messages)
      ensures db.Conversations() == Marked(old(db.Conversations()), conversationId, userId, Read(at))
    {
      Stamped(db.conversations, db.participants, conversationId, userId, Read(at));
      db.UpdateParticipants(conversationId, userId, Read(at));
    }

    method Clear(conversationId: string, userId: string, at: int)
      requires db.Valid()
      modifies db
      ensures db.Valid() && db.messages == old(db.messages)
      ensures db.Conversations() == Marked(old(db.Conversations()), conversationId, userId, Cleared(at))
    {
      Stamped(db.conversations, db.participants, conversationId, userId, Cleared(at));
      db.UpdateParticipants(conversationId, userId, Cleared(at));
    }
  }

  lemma HasRowAfter(cs: seq<ConversationRow>, row: ConversationRow, cid: string)
    requires HasRow(cs, cid) || cid == row.id
    ensures HasRow(cs + [row], cid)
  {
    if cid == row.id {
      assert (cs + [row])[|cs|].id == cid;
    } else {
      var i :| 0 <= i < |cs| && cs[i].id == cid;
      assert (cs + [row])[i].id == cid;
    }
  }

  lemma InsertKeepsKeys(cs: seq<ConversationRow>, ps: seq<ParticipantRow>, id: string, now: int, pids: seq<string>)
    requires ParticipantKey(ps) && !HasRow(cs, id) && NoDuplicates(pids)
    requires forall i :: 0 <= i < |ps| ==> HasRow(cs, ps[i].conversationId)
    ensures var cs', ps' := cs + [ConversationRow(id, now)], ps + RowsFor(id, pids);
      && ParticipantKey(ps')
      && (forall i :: 0 <= i < |ps'| ==> HasRow(cs', ps'[i].conversationId))
      && (forall cid :: HasRow(cs, cid) ==> HasRow(cs', cid))
  {
    var row, ps' := ConversationRow(id, now), ps + RowsFor(id, pids);
    forall cid | HasRow(cs, cid) || cid == id
      ensures HasRow(cs + [row], cid)
    {
      HasRowAfter(cs, row, cid);
    }
    forall i | 0 <= i < |ps'|
      ensures ps'[i].conversationId == id || HasRow(cs, ps'[i].conversationId)
    {
      assert i >= |ps| ==> ps'[i] == RowsFor(id, pids)[i - |ps|];
    }
  }

  lemma Inserted(cs: seq<ConversationRow>, ps: seq<ParticipantRow>, id: string, now: int, pids: seq<string>)
    requires !HasRow(cs, id) && forall i :: 0 <= i < |ps| ==> HasRow(cs, ps[i].conversationId)
    ensures Content(cs + [ConversationRow(id, now)], ps + RowsFor(id, pids)) ==
      Content(cs, ps) + [Conversation(id, Fresh(pids), now)]
  {
    var cs', ps' := cs + [ConversationRow(id, now)], ps + RowsFor(id, pids);
    forall i | 0 <= i < |cs'|
      ensures Assembled(cs'[i], ps') == (Content(cs, ps) + [Conversation(id, Fresh(pids), now)])[i]
    {
      ParticipantsAppend(ps, RowsFor(id, pids), cs'[i].id);
      ParticipantsOfRowsFor(id, pids, cs'[i].id);
      NoRows(ps, id);
    }
  }

  lemma Stamped(cs: seq<ConversationRow>, ps: seq<ParticipantRow>, cid: string, user: string, mark: Mark)
    requires ParticipantKey(ps)
    ensures Content(cs, Updated(ps, cid, user, mark)) == Marked(Content(cs, ps), cid, user, mark)
    ensures ParticipantKey(Updated(ps, cid, user, mark))
  {
    forall i | 0 <= i < |cs|
      ensures Assembled(cs[i], Updated(ps, cid, user, mark)) == Marked(Content(cs, ps), cid, user, mark)[i]
    {
      UpdateIsStamp(ps, cid, user, mark, cs[i].id);
    }
  }

  /** The join on one id sees at most one conversation: the stored one, if it has participants. */
  lemma OneJoinable(cs: seq<Conversation>, id: string)
    requires DistinctConversations(cs)
    ensures var c, j := Find(cs, id), Joinable(cs, {id});
      && DistinctConversations(j)
      && (forall d :: d in j ==> c == Some(d) && d.participants != [])
      && (c.Some? && c.value.participants != [] ==> c.value in j)
  {
    var c, j := Find(cs, id), Joinable(cs, {id});
    forall d: Conversation
      ensures DistinctConversations(j) && (d in j <==> d in cs && d.id == id && d.participants != [])
    {
      JoinableIn(cs, {id}, d);
    }
    forall d | d in j
      ensures c == Some(d) && d.participants != []
    {
      SameId(cs, d, c.value);
    }
  }

  class PostgresMessageStore {
    const db: Database

    constructor (db: Database)
      ensures this.db == db
    {
      this.db := db;
    }

    /** The foreign key refuses a message of an unknown conversation. */
    method Create(conversationId: string, senderId: string, body: string, id: string, now: int)
      returns (r: Option<Message>)
      requires db.Valid() && Stores.FindById(db.messages, id).None?
      modifies db`messages
      ensures db.Valid()
      ensures MessageOp(Postgres, db.Conversations(), old(db.messages), CreateMessage(conversationId, senderId, body),
        Env(id, now, true),
                        db.messages, if r.Some? then Stored(r.value) else Thrown(UnknownConversation))
    {
      FindInContent(db.conversations, db.participants, conversationId);
      var i := 0;
      while i < |db.conversations| && db.conversations[i].id != conversationId
        invariant 0 <= i <= |db.conversations|
        invariant forall j :: 0 <= j < i ==> db.conversations[j].id != conversationId
      {
        i := i + 1;
      }
      if i == |db.conversations| {
        return None;
      }
      var row := Message(id, conversationId, senderId, body, now, None);
      db.messages := db.messages + [row];
      r := Some(row);
    }

    method FindById(id: string) returns (r: Option<Message>)
      requires db.Valid()
      ensures r == Stores.FindById(db.messages, id)
    {
      var rows := db.SelectMessage(id);
      r := if rows == [] then None else Some(rows[0]);
    }

    /** The conditional UPDATE, then the SELECT that finds an existing tombstone; None if there is no row at all. */
    method SoftDelete(id: string, at: int) returns (r: Option<Message>)
      requires db.Valid()
      modifies db`messages
      ensures db.Valid()
      ensures db.messages == Tombstoned(old(db.messages), id, at)
      ensures r.None? <==> Stores.FindById(old(db.messages), id).None?
      ensures r.Some? ==> r.value == Tombstone(Stores.FindById(old(db.messages), id).value, at)
    {
      ghost var ms := db.messages;
      var updated := db.UpdateDeleted(id, at);
      if updated != [] {
        return Some(updated[0]);
      }
      var existing := db.SelectMessage(id);
      if Stores.FindById(ms, id).Some? {
        ghost var k :| 0 <= k < |ms| && ms[k] == Stores.FindById(ms, id).value;
        FindByIdUnique(db.messages, k);
      }
      r := if existing == [] then None else Some(existing[0]);
    }

    method ListByConversation(conversationId: string, options: ListOptions) returns (r: seq<Message>)
      requires db.Valid()
      ensures ListPostgres(db.messages, conversationId, options, r)
    {
      var where := Criteria(Some(conversationId), None, None);
      if options.before.Some? {
        where := where.(before := options.before);
      }
      if options.after.Some? {
        where := where.(after := options.after);
      }
      var limit := if options.limit.Some? then options.limit.value else DEFAULT_LIMIT;
      limit := if limit < 1 then 1 else limit;
      limit := if limit > MAX_LIMIT then MAX_LIMIT else limit;
      var newest := db.SelectNewest(where, limit);
      r := OrderMessages(newest);
    }
  }
}
