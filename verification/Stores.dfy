/** What the two pairs of stores may do, one operation at a time
    (src/ports/conversation-store.ts, src/ports/message-store.ts and the adapters behind them).
    A store holds conversations in creation order and messages in insertion order; for Postgres this is the
    content of the tables, and what its queries answer is only fixed up to the orders SQL leaves open. */
module Stores {
  import opened Domain
  import opened Query
  import opened Rows
  import opened Paging

  datatype Kind = InMemory | Postgres

  datatype Store = Store(kind: Kind, convs: seq<Conversation>, msgs: seq<Message>)

  /** What a participant row is stamped with. */
  datatype Mark = Read(at: int) | Cleared(at: int)

  /** One query for the last message of a conversation, sent after `after` if there is one. */
  datatype PreviewQuery = PreviewQuery(cid: string, after: Option<int>)

  datatype Op =
    | FindConversation(cid: string)
    | FindByParticipant(user: string)
    | CreateConversation(pids: seq<string>)
    | MarkParticipant(cid: string, user: string, mark: Mark)
    | FindMessage(mid: string)
    | CreateMessage(cid: string, sender: string, body: string)
    | SoftDelete(mid: string, at: int)
    | SelectDeleted(mid: string) // the second statement of the Postgres softDelete
    | ListMessages(cid: string, o: ListOptions)
    | QueryPreviews(queries: seq<Option<PreviewQuery>>) // all of them at once; the store executes them in any order
    | AskGate(requester: string, pids: seq<string>)

  datatype StoreError = DuplicateParticipant | UnknownConversation | MissingRow

  datatype Answer =
    | Thrown(error: StoreError)
    | FoundConversation(found: Option<Conversation>)
    | FoundConversations(list: seq<Conversation>)
    | Created(conversation: Conversation)
    | Acknowledged
    | FoundMessage(message: Option<Message>)
    | Stored(stored: Message)
    | NotUpdated(mid: string) // the first statement of the Postgres softDelete matched no row
    | FoundMessages(page: seq<Message>)
    | FoundPreview(i: nat, page: seq<Message>) // to the query at position i
    | GateSays(allowed: bool)

  /** What the outside supplies to one operation: a fresh id, the clock, and the host's answer at the gate. */
  datatype Env = Env(id: string, now: int, gate: bool)

  // Conversations.

  function Find(cs: seq<Conversation>, cid: string): (r: Option<Conversation>)
    ensures r.Some? ==> r.value in cs && r.value.id == cid
    ensures r.None? ==> forall i :: 0 <= i < |cs| ==> cs[i].id != cid
  {
    if cs == [] then None else if cs[0].id == cid then Some(cs[0]) else Find(cs[1..], cid)
  }

  function Concerning(cs: seq<Conversation>, user: string): seq<Conversation> {
    if cs == [] then []
    else
      var front := Concerning(cs[..|cs| - 1], user);
      if IsParticipant(cs[|cs| - 1], user) then front + [cs[|cs| - 1]] else front
  }

  function Fresh(pids: seq<string>): (ps: seq<Participant>)
    ensures |ps| == |pids| && forall i :: 0 <= i < |pids| ==> ps[i] == Participant(pids[i], None, None)
  {
    seq(|pids|, i requires 0 <= i < |pids| => Participant(pids[i], None, None))
  }

  function Stamp(p: Participant, mark: Mark): Participant {
    match mark
    case Read(at) => p.(lastReadAt := Some(at))
    case Cleared(at) => p.(clearedAt := Some(at))
  }

  /** Only the first participant with that user id is stamped. */
  function StampFirst(ps: seq<Participant>, user: string, mark: Mark): (r: seq<Participant>)
    ensures |r| == |ps| && forall i :: 0 <= i < |ps| ==>
      r[i] == ps[i] || (ps[i].userId == user && r[i] == Stamp(ps[i], mark))
  {
    if ps == [] then []
    else if ps[0].userId == user then [Stamp(ps[0], mark)] + ps[1..]
    else [ps[0]] + StampFirst(ps[1..], user, mark)
  }

  function Restamp(c: Conversation, cid: string, user: string, mark: Mark): Conversation {
    if c.id == cid then c.(participants := StampFirst(c.participants, user, mark)) else c
  }

  function Marked(cs: seq<Conversation>, cid: string, user: string, mark: Mark): (r: seq<Conversation>)
    ensures |r| == |cs| && forall i :: 0 <= i < |cs| ==> r[i] == Restamp(cs[i], cid, user, mark)
  {
    seq(|cs|, i requires 0 <= i < |cs| => Restamp(cs[i], cid, user, mark))
  }

  ghost predicate NoDuplicates(ids: seq<string>) {
    forall i, j :: 0 <= i < j < |ids| ==> ids[i] != ids[j]
  }

  ghost predicate OldestFirst(cs: seq<Conversation>) {
    forall i, j :: 0 <= i < j < |cs| ==> cs[i].createdAt <= cs[j].createdAt
  }

  /** The same conversations, each up to the order of its participants. */
  ghost predicate SameConversations(a: seq<Conversation>, b: seq<Conversation>) {
    && DistinctConversations(a)
    && (forall c :: c in a ==> Find(b, c.id).Some? && Same(c, Find(b, c.id).value))
    && (forall d :: d in b ==> Find(a, d.id).Some?)
  }

  /** An operation of a conversation store. A fresh id is one no stored conversation has. */
  ghost predicate ConversationOp(
    kind: Kind, cs: seq<Conversation>, op: Op, env: Env, cs': seq<Conversation>, ans: Answer)
  {
    match op
    case FindConversation(cid) =>
      && cs' == cs && ans.FoundConversation?
      && var c := Find(cs, cid);
         (match kind
          case InMemory => ans.found == c
          case Postgres =>
            if c.None? || c.value.participants == [] then ans.found == None
            else ans.found.Some? && Same(ans.found.value, c.value))
    case FindByParticipant(user) =>
      && cs' == cs && ans.FoundConversations?
      && (match kind
          case InMemory => ans.list == Concerning(cs, user)
          case Postgres => SameConversations(ans.list, Concerning(cs, user)) && OldestFirst(ans.list))
    case CreateConversation(pids) =>
      && Find(cs, env.id).None?
      && if kind.Postgres? && !NoDuplicates(pids) then cs' == cs && ans == Thrown(DuplicateParticipant)
         else
           var c := Conversation(env.id, Fresh(pids), env.now);
           cs' == cs + [c] && ans == Created(c)
    case MarkParticipant(cid, user, mark) => cs' == Marked(cs, cid, user, mark) && ans == Acknowledged
    case _ => false
  }

  // Messages.

  function FindById(ms: seq<Message>, mid: string): (r: Option<Message>)
    ensures r.Some? ==> r.value in ms && r.value.id == mid
    ensures r.None? ==> forall i :: 0 <= i < |ms| ==> ms[i].id != mid
  {
    if ms == [] then None else if ms[0].id == mid then Some(ms[0]) else FindById(ms[1..], mid)
  }

  lemma FindByIdUnique(ms: seq<Message>, i: nat)
    requires DistinctIds(ms) && i < |ms|
    ensures FindById(ms, ms[i].id) == Some(ms[i])
  {
    var r := FindById(ms, ms[i].id);
    var j :| 0 <= j < |ms| && ms[j] == r.value;
  }

  function Tombstone(m: Message, at: int): Message {
    if m.deletedAt.None? then m.(body := "", deletedAt := Some(at)) else m
  }

  function Tombstoned(ms: seq<Message>, mid: string, at: int): (r: seq<Message>)
    ensures |r| == |ms|
    ensures forall i :: 0 <= i < |ms| ==> r[i] == if ms[i].id == mid then Tombstone(ms[i], at) else ms[i]
  {
    seq(|ms|, i requires 0 <= i < |ms| => if ms[i].id == mid then Tombstone(ms[i], at) else ms[i])
  }

  function StoredRow(m: Option<Message>): Answer {
    if m.Some? then Stored(m.value) else Thrown(MissingRow)
  }

  /** `page` may be what a store with these messages lists. */
  ghost predicate Lists(kind: Kind, ms: seq<Message>, cid: string, o: ListOptions, page: seq<Message>) {
    match kind
    case InMemory => page == ListInMemory(ms, cid, o)
    case Postgres => ListPostgres(ms, cid, o, page)
  }

  lemma ListsStored(kind: Kind, ms: seq<Message>, cid: string, o: ListOptions, page: seq<Message>, m: Message)
    requires Lists(kind, ms, cid, o, page) && m in page
    ensures m in ms && Meets(m, Where(cid, o))
  {
    var found := Filter(ms, Where(cid, o));
    if kind.InMemory? {
      InMemoryIsPage(ms, cid, o);
      PageMember(found, SliceCount(o.limit, |found|), page, m);
    } else {
      PostgresIsPage(ms, cid, o, page);
      PageMember(found, Clamp(o.limit), page, m);
    }
    FilterIn(ms, Where(cid, o));
  }

  /** In memory a listing has one answer; in the database too, when instants are distinct and it keeps the limit. */
  lemma ListsOne(kind: Kind, ms: seq<Message>, cid: string, o: ListOptions, page: seq<Message>)
    requires Lists(kind, ms, cid, o, page)
    requires kind.InMemory? || (DistinctInstants(ms) && o.limit.Some? && 1 <= o.limit.value <= MAX_LIMIT)
    ensures page == ListInMemory(ms, cid, o)
  {
    if kind.Postgres? {
      FilterDistinct(ms, Where(cid, o));
      QueryEquivalence(ms, cid, o, page);
    }
  }

  function PreviewOptions(after: Option<int>): ListOptions {
    ListOptions(Some(1), None, after)
  }

  /** An operation of a message store. `cs` is what the foreign key of the messages table refers to. */
  ghost predicate MessageOp(
    kind: Kind, cs: seq<Conversation>, ms: seq<Message>, op: Op, env: Env, ms': seq<Message>, ans: Answer)
  {
    match op
    case FindMessage(mid) => ms' == ms && ans == FoundMessage(FindById(ms, mid))
    case CreateMessage(cid, sender, body) =>
      && FindById(ms, env.id).None?
      && if kind.Postgres? && Find(cs, cid).None? then ms' == ms && ans == Thrown(UnknownConversation)
         else
           var m := Message(env.id, cid, sender, body, env.now, None);
           ms' == ms + [m] && ans == Stored(m)
    case SoftDelete(mid, at) =>
      var m := FindById(ms, mid);
      if m.Some? && m.value.deletedAt.None? then ms' == Tombstoned(ms, mid, at) && ans == Stored(Tombstone(m.value, at))
      else
        && ms' == ms
        && ans == if kind.InMemory? then StoredRow(m) else NotUpdated(mid)
    case SelectDeleted(mid) => kind.Postgres? && ms' == ms && ans == StoredRow(FindById(ms, mid))
    case ListMessages(cid, o) =>
      ms' == ms && ans.FoundMessages? && Lists(kind, ms, cid, o, ans.page)
    case QueryPreviews(qs) =>
      && ms' == ms && ans.FoundPreview? && ans.i < |qs| && qs[ans.i].Some?
      && Lists(kind, ms, qs[ans.i].value.cid, PreviewOptions(qs[ans.i].value.after), ans.page)
    case _ => false
  }

  // Both together.

  ghost predicate Exec(s: Store, op: Op, env: Env, s': Store, ans: Answer) {
    && s'.kind == s.kind
    && match op
       case FindMessage(_) => s'.convs == s.convs && MessageOp(s.kind, s.convs, s.msgs, op, env, s'.msgs, ans)
       case CreateMessage(_, _, _) => s'.convs == s.convs && MessageOp(s.kind, s.convs, s.msgs, op, env, s'.msgs, ans)
       case SoftDelete(_, _) => s'.convs == s.convs && MessageOp(s.kind, s.convs, s.msgs, op, env, s'.msgs, ans)
       case SelectDeleted(_) => s'.convs == s.convs && MessageOp(s.kind, s.convs, s.msgs, op, env, s'.msgs, ans)
       case ListMessages(_, _) => s'.convs == s.convs && MessageOp(s.kind, s.convs, s.msgs, op, env, s'.msgs, ans)
       case QueryPreviews(_) => s'.convs == s.convs && MessageOp(s.kind, s.convs, s.msgs, op, env, s'.msgs, ans)
       case AskGate(_, _) => s' == s && ans == GateSays(env.gate)
       case _ => s'.msgs == s.msgs && ConversationOp(s.kind, s.convs, op, env, s'.convs, ans)
  }

  ghost predicate WellFormed(s: Store) {
    && DistinctConversations(s.convs)
    && DistinctIds(s.msgs)
    && (s.kind.Postgres? ==> forall i :: 0 <= i < |s.convs| ==> NoDuplicates(UserIds(s.convs[i].participants)))
  }

  /** Identity of a stored conversation: everything that stamps do not touch. */
  ghost predicate SameMembers(c: Conversation, d: Conversation) {
    c.id == d.id && c.createdAt == d.createdAt && UserIds(c.participants) == UserIds(d.participants)
  }

  /** Conversations are only added, and neither their identity nor their membership ever changes. */
  ghost predicate Keeps(a: seq<Conversation>, b: seq<Conversation>) {
    |a| <= |b| && forall i :: 0 <= i < |a| ==> SameMembers(a[i], b[i])
  }

  /** What becomes of a message: nothing, or its one deletion. */
  predicate Becomes(m: Message, now: Message) {
    Key(now) == Key(m) && (m.deletedAt.Some? ==> now == m) && (now.deletedAt.None? ==> now == m)
  }

  /** Messages are only added; identity never changes, a message changes at most by being deleted, and a tombstone
      never changes at all. */
  ghost predicate Appends(a: seq<Message>, b: seq<Message>) {
    |a| <= |b| && forall i :: 0 <= i < |a| ==> Becomes(a[i], b[i])
  }

  /** The order in which participants are answered changes neither who is one nor whose marks are found. */
  lemma SameFindsSame(c: Conversation, d: Conversation, user: string)
    requires Same(c, d) && NoDuplicates(UserIds(c.participants))
    ensures IsParticipant(c, user) == IsParticipant(d, user)
    ensures ParticipantOf(c, user) == ParticipantOf(d, user)
    ensures multiset(UserIds(c.participants)) == multiset(UserIds(d.participants))
  {
    var ps, qs := c.participants, d.participants;
    UserIdsPermute(ps, qs);
    assert user in UserIds(ps) <==> user in multiset(UserIds(qs));
    var p, q := ParticipantOf(c, user), ParticipantOf(d, user);
    if p.Some? {
      assert q.value in multiset(qs);
      assert q.value in ps;
      var i :| 0 <= i < |ps| && ps[i] == p.value;
      var j :| 0 <= j < |ps| && ps[j] == q.value;
      assert UserIds(ps)[i] == UserIds(ps)[j];
    }
  }

  lemma RestampKeeps(c: Conversation, cid: string, user: string, mark: Mark)
    ensures SameMembers(c, Restamp(c, cid, user, mark))
  {
    assert UserIds(c.participants) == UserIds(Restamp(c, cid, user, mark).participants);
  }

  lemma ConversationOpKeeps(kind: Kind, cs: seq<Conversation>, op: Op, env: Env, cs': seq<Conversation>, ans: Answer)
    requires DistinctConversations(cs) && ConversationOp(kind, cs, op, env, cs', ans)
    ensures DistinctConversations(cs') && Keeps(cs, cs')
    ensures forall i :: |cs| <= i < |cs'| && kind.Postgres? ==> NoDuplicates(UserIds(cs'[i].participants))
  {
    match op
    case CreateConversation(pids) =>
      assert UserIds(Fresh(pids)) == pids;
    case MarkParticipant(cid, user, mark) =>
      forall i | 0 <= i < |cs|
        ensures SameMembers(cs[i], cs'[i])
      {
        RestampKeeps(cs[i], cid, user, mark);
      }
    case _ =>
  }

  /** Every operation of either store keeps it well formed, keeps memberships and only appends to the log. */
  lemma ExecKeeps(s: Store, op: Op, env: Env, s': Store, ans: Answer)
    requires WellFormed(s) && Exec(s, op, env, s', ans)
    ensures WellFormed(s')
    ensures Keeps(s.convs, s'.convs)
    ensures Appends(s.msgs, s'.msgs)
  {
    if s'.msgs == s.msgs && !op.AskGate? && s'.convs != s.convs {
      ConversationOpKeeps(s.kind, s.convs, op, env, s'.convs, ans);
    }
  }
}
