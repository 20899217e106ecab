/** MessagingService as the class it is, over either pair of adapters: every method, run alone, is a run of the
    call the state machine splits at its awaits. src/core/messaging-service.ts:48-231 */
module Messaging {
  import opened Domain
  import opened Paging
  import opened Stores
  import opened Service
  import opened Machine
  import opened Sequential
  import opened Outcomes
  import opened InMemoryStores
  import opened PostgresStores

  // Following a call from one answer to the next.

  ghost predicate Runs(s: Store, t: Turn, env: Env, out: Outcome) {
    exists trace :: Performs(s, t, env, trace, out)
  }

  /** A call that started from store `start` and has come to `turn`. */
  datatype Progress = Progress(start: Store, call: Call, env: Env, turn: Turn)

  /** Whatever the call does from here is a run of it from its start, and is accounted for. */
  ghost predicate Reached(p: Progress, s: Store) {
    forall trace, out :: Performs(s, p.turn, p.env, trace, out) ==>
      Runs(p.start, Go(Start(p.call)), p.env, out) && Balanced(p.start, out.store, out.published, out.notified)
  }

  predicate Asks(p: Progress, op: Op) {
    p.turn.phase.Asking? && p.turn.phase.op == op
  }

  /** The call after the answer to what it asked. */
  function After(p: Progress, ans: Answer): Progress
    requires p.turn.phase.Asking?
  {
    var u := Resume(p.turn.phase.k, ans, p.env.now);
    p.(turn := Turn(u.phase, p.turn.published + u.published, p.turn.notified + u.notified))
  }

  lemma Advance(p: Progress, s: Store, s': Store, ans: Answer)
    requires Reached(p, s) && p.turn.phase.Asking? && Exec(s, p.turn.phase.op, p.env, s', ans)
    ensures Reached(After(p, ans), s')
  {
    var t := After(p, ans).turn;
    forall trace, out | Performs(s', t, p.env, trace, out)
      ensures Runs(p.start, Go(Start(p.call)), p.env, out) && Balanced(p.start, out.store, out.published, out.notified)
    {
      var longer := [Step(ans, s')] + trace;
      assert longer[1..] == trace;
      assert Performs(s, p.turn, p.env, longer, out);
    }
  }

  /** A soft deletion is one operation in memory; in the database it is an UPDATE, and a SELECT if that matched no
      row. Either way the call ends up where the row it answers takes it. */
  lemma AdvanceDeletion(p: Progress, s: Store, s': Store, mid: string, at: int, m: Option<Message>)
    requires Reached(p, s) && Asks(p, Op.SoftDelete(mid, at)) && p.turn.phase.k.TombstoneWritten?
    requires s' == s.(msgs := Tombstoned(s.msgs, mid, at))
    requires m == if FindById(s.msgs, mid).Some? then Some(Tombstone(FindById(s.msgs, mid).value, at)) else None
    requires DistinctIds(s.msgs)
    ensures Reached(After(p, StoredRow(m)), s')
  {
    var found := FindById(s.msgs, mid);
    if found.Some? && found.value.deletedAt.None? {
      Advance(p, s, s', StoredRow(m));
    } else {
      NothingToErase(s.msgs, mid, at);
      assert s' == s && StoredRow(found) == StoredRow(m);
      if s.kind.InMemory? {
        Advance(p, s, s, StoredRow(m));
      } else {
        Advance(p, s, s, NotUpdated(mid));
        var q := After(p, NotUpdated(mid));
        Advance(q, s, s, StoredRow(m));
        SecondStatement(p, mid, StoredRow(m));
      }
    }
  }

  lemma NothingToErase(ms: seq<Message>, mid: string, at: int)
    requires DistinctIds(ms) && (FindById(ms, mid).Some? ==> FindById(ms, mid).value.deletedAt.Some?)
    ensures Tombstoned(ms, mid, at) == ms
  {
    forall i | 0 <= i < |ms|
      ensures Tombstoned(ms, mid, at)[i] == ms[i]
    {
      FindByIdUnique(ms, i);
    }
  }

  lemma SecondStatement(p: Progress, mid: string, ans: Answer)
    requires p.turn.phase.Asking? && p.turn.phase.k.TombstoneWritten? && (ans.Stored? || ans.Thrown?)
    ensures After(p, NotUpdated(mid)).turn ==
      Turn(Asking(SelectDeleted(mid), TombstoneWritten), p.turn.published, p.turn.notified)
    ensures After(After(p, NotUpdated(mid)), ans) == After(p, ans)
  {
    assert p.turn.published + [] == p.turn.published && p.turn.notified + [] == p.turn.notified;
  }

  /** While a preview is pending the call waits for it, and goes on with its answer. */
  lemma PreviewAsked(begun: Progress, p: Progress, user: string, es: seq<Entry>, i: nat)
    requires p == begun.(turn := Go(AfterPreviews(user, es))) && i < |es| && es[i].last.Pending?
    ensures Asks(p, QueryPreviews(Queries(es)))
    ensures Queries(es)[i] == Some(PreviewQuery(es[i].conversation.id, es[i].clearedAt))
    ensures forall page ::
      After(p, FoundPreview(i, page)) == begun.(turn := Go(AfterPreviews(user, WithAnswer(es, i, page))))
  {
    assert !AllKnown(es);
    var none: seq<Message>, nobody: seq<Notice> := [], [];
    assert none + none == none && nobody + nobody == nobody;
  }

  lemma LookedUp(p: Progress, found: Option<Conversation>, cid: string, user: string)
    requires Asks(p, Op.FindConversation(cid)) && Looks(p.turn.phase.k, cid, user) && p.turn == Go(p.turn.phase)
    ensures After(p, FoundConversation(found)).turn == AfterLookup(p.turn.phase.k, found, p.env.now)
    ensures var denied := Denied(found, cid, user);
      denied.Some? ==> AfterLookup(p.turn.phase.k, found, p.env.now) == Refuse(denied.value)
  {
    var u := AfterLookup(p.turn.phase.k, found, p.env.now);
    assert [] + u.published == u.published && [] + u.notified == u.notified;
  }

  lemma SendLooksUp(c: Conversation, cid: string, user: string, body: string, now: int)
    requires Denied(Some(c), cid, user).None?
    ensures var pids := UserIds(c.participants);
      AfterLookup(LookupForSend(cid, user, body), Some(c), now) ==
        Go(Asking(Op.AskGate(user, pids), GateForSend(c.id, pids, user, body)))
  {
  }

  lemma Acknowledges(p: Progress, op: Op)
    requires p.turn == Go(Asking(op, MarkWritten))
    ensures After(p, Acknowledged) == p.(turn := Go(Finished(Nothing)))
  {
  }

  lemma Written(p: Progress, m: Message, pids: seq<string>, user: string)
    requires p.turn.phase.Asking? && p.turn == Go(p.turn.phase) && p.turn.phase.k == SendWritten(pids, user)
    ensures After(p, Stored(m)).turn == Turn(Finished(OneMessage(m)), [m], [Notice(m, Others(pids, user))])
  {
    var ms, ns := [m], [Notice(m, Others(pids, user))];
    assert [] + ms == ms && [] + ns == ns;
    assert Resume(SendWritten(pids, user), Stored(m), p.env.now) == Turn(Finished(OneMessage(m)), ms, ns);
  }

  lemma PreviewKnown(known: seq<Entry>, asked: seq<Entry>, i: nat, page: seq<Message>)
    requires i == |known| < |asked| && AllKnown(known)
    ensures var e := asked[i].(last := Known(FirstOf(page)));
      AllKnown(known + [e]) && known + [e] + asked[i + 1..] == WithAnswer(known + asked[i..], i, page)
  {
  }

  /** `call`, run alone from `s`, left `s'`, answered `r`, and made the logs grow from `posted` and `pushed`. */
  ghost predicate Serves(
    s: Store, call: Call, env: Env, s': Store, r: Reply, posted: seq<Message>, published: seq<Message>,
    pushed: seq<Notice>, notified: seq<Notice>)
  {
    && posted <= published && pushed <= notified
    && Runs(s, Go(Start(call)), env, Outcome(s', r, published[|posted|..], notified[|pushed|..]))
  }

  lemma DeletionServed(s: Store, cid: string, mid: string, user: string, env: Env, out: Outcome)
    requires WellFormed(s) && Member(s.convs, cid, user)
    requires Runs(s, Go(Start(Call.DeleteMessage(cid, mid, user))), env, out)
    ensures forall k :: HasMessage(s, cid, mid, k) ==> DeletedAs(s, k, user, env.now, out)
  {
    var trace :| Performs(s, Go(Start(Call.DeleteMessage(cid, mid, user))), env, trace, out);
    DeleteReplies(s, cid, mid, user, env, trace, out);
  }

  /** One push per stored message; one publication per stored message, and one more per deleted message. */
  predicate Settled(ms: seq<Message>, published: seq<Message>, notified: seq<Notice>) {
    |notified| == |ms| && |published| == |ms| + Deleted(ms)
  }

  lemma Ends(p: Progress, s: Store, posted: seq<Message>, published: seq<Message>, pushed: seq<Notice>,
        notified: seq<Notice>)
    requires Reached(p, s) && p.turn.phase.Finished?
    requires published == posted + p.turn.published && notified == pushed + p.turn.notified
    ensures Serves(p.start, p.call, p.env, s, p.turn.phase.reply, posted, published, pushed, notified)
    ensures Settled(p.start.msgs, posted, pushed) ==> Settled(s.msgs, published, notified)
  {
    var out := Outcome(s, p.turn.phase.reply, p.turn.published, p.turn.notified);
    assert Performs(s, p.turn, p.env, [], out);
    assert published[|posted|..] == p.turn.published && notified[|pushed|..] == p.turn.notified;
  }

  /** A conversation store and a message store that belong together. A store that throws answers None. Each method
      also moves the account of the call forward: `next` is the call after exactly the answer the method returned,
      and it is reached only if the stores may answer that and have become what they are. */
  datatype Adapters =
    | InMemoryAdapters(memoryConversations: InMemoryConversationStore, memoryMessages: InMemoryMessageStore)
    | PostgresAdapters(tableConversations: PostgresConversationStore, tableMessages: PostgresMessageStore)
  {
    ghost function Repr(): set<object> {
      if InMemoryAdapters? then {memoryConversations, memoryMessages} else {tableConversations.db}
    }

    ghost predicate Valid()
      reads Repr()
    {
      && (InMemoryAdapters? ==> memoryConversations.Valid() && memoryMessages.Valid())
      && (PostgresAdapters? ==> tableConversations.db.Valid() && tableMessages.db == tableConversations.db)
    }

    ghost function State(): Store
      reads Repr()
    {
      if InMemoryAdapters? then Store(InMemory, memoryConversations.conversations, memoryMessages.messages)
      else Store(Postgres, tableConversations.db.Conversations(), tableConversations.db.messages)
    }

    ghost method Begin(call: Call, env: Env) returns (p: Progress)
      requires Valid()
      ensures p == Progress(State(), call, env, Go(Start(call))) && Reached(p, State()) && WellFormed(State())
    {
      if PostgresAdapters? {
        ContentDistinct(tableConversations.db);
      }
      var s := State();
      p := Progress(s, call, env, Go(Start(call)));
      forall trace, out | Performs(s, p.turn, env, trace, out)
        ensures Runs(s, p.turn, env, out) && Balanced(s, out.store, out.published, out.notified)
      {
        CallAccounting(s, call, env, trace, out);
      }
    }

    method FindConversation(cid: string, ghost p: Progress) returns (found: Option<Conversation>, ghost next: Progress)
      requires Valid() && Reached(p, State()) && Asks(p, Op.FindConversation(cid))
      ensures next == After(p, FoundConversation(found)) && Reached(next, State())
      ensures Exec(State(), Op.FindConversation(cid), p.env, State(), FoundConversation(found))
    {
      if InMemoryAdapters? {
        found := memoryConversations.FindById(cid);
      } else {
        found := tableConversations.FindById(cid);
      }
      next := After(p, FoundConversation(found));
      Advance(p, State(), State(), FoundConversation(found));
    }

    method FindByParticipant(user: string, ghost p: Progress) returns (list: seq<Conversation>, ghost next: Progress)
      requires Valid() && Reached(p, State()) && Asks(p, Op.FindByParticipant(user))
      ensures next == After(p, FoundConversations(list)) && Reached(next, State())
    {
      if InMemoryAdapters? {
        list := memoryConversations.FindByParticipant(user);
      } else {
        list := tableConversations.FindByParticipant(user);
      }
      next := After(p, FoundConversations(list));
      Advance(p, State(), State(), FoundConversations(list));
    }

    method FindMessage(mid: string, ghost p: Progress) returns (m: Option<Message>, ghost next: Progress)
      requires Valid() && Reached(p, State()) && Asks(p, Op.FindMessage(mid))
      ensures next == After(p, FoundMessage(m)) && Reached(next, State())
    {
      if InMemoryAdapters? {
        m := memoryMessages.FindById(mid);
      } else {
        m := tableMessages.FindById(mid);
      }
      next := After(p, FoundMessage(m));
      Advance(p, State(), State(), FoundMessage(m));
    }

    method ListMessages(cid: string, o: ListOptions, ghost p: Progress)
      returns (page: seq<Message>, ghost next: Progress)
      requires Valid() && Reached(p, State()) && Asks(p, Op.ListMessages(cid, o))
      ensures next == After(p, FoundMessages(page)) && Reached(next, State())
    {
      if InMemoryAdapters? {
        page := memoryMessages.ListByConversation(cid, o);
      } else {
        page := tableMessages.ListByConversation(cid, o);
      }
      next := After(p, FoundMessages(page));
      Advance(p, State(), State(), FoundMessages(page));
    }

    /** The query at position i of those a call waits for. */
    method QueryPreview(ghost queries: seq<Option<PreviewQuery>>, ghost i: nat, cid: string, after: Option<int>,
        ghost p: Progress)
      returns (page: seq<Message>, ghost next: Progress)
      requires Valid() && Reached(p, State()) && Asks(p, QueryPreviews(queries))
      requires i < |queries| && queries[i] == Some(PreviewQuery(cid, after))
      ensures next == After(p, FoundPreview(i, page)) && Reached(next, State())
    {
      if InMemoryAdapters? {
        page := memoryMessages.ListByConversation(cid, PreviewOptions(after));
      } else {
        page := tableMessages.ListByConversation(cid, PreviewOptions(after));
      }
      next := After(p, FoundPreview(i, page));
      Advance(p, State(), State(), FoundPreview(i, page));
    }

    method CreateConversation(pids: seq<string>, env: Env, ghost p: Progress)
      returns (created: Option<Conversation>, ghost next: Progress)
      requires Valid() && Reached(p, State()) && Asks(p, Op.CreateConversation(pids)) && p.env == env
      requires Find(State().convs, env.id).None?
      modifies Repr()
      ensures Valid()
      ensures next == After(p, if created.Some? then Created(created.value) else Thrown(DuplicateParticipant))
      ensures Reached(next, State())
    {
      ghost var s := State();
      if InMemoryAdapters? {
        var c := memoryConversations.Create(pids, env.id, env.now);
        created := Some(c);
      } else {
        created := tableConversations.Create(pids, env.id, env.now);
      }
      next := After(p, if created.Some? then Created(created.value) else Thrown(DuplicateParticipant));
      Advance(p, s, State(), if created.Some? then Created(created.value) else Thrown(DuplicateParticipant));
    }

    method CreateMessage(cid: string, sender: string, body: string, env: Env, ghost p: Progress)
      returns (m: Option<Message>, ghost next: Progress)
      requires Valid() && Reached(p, State()) && Asks(p, Op.CreateMessage(cid, sender, body)) && p.env == env
      requires FindById(State().msgs, env.id).None?
      modifies Repr()
      ensures Valid() && next == After(p, if m.Some? then Stored(m.value) else Thrown(UnknownConversation))
      ensures Reached(next, State())
    {
      ghost var s := State();
      if InMemoryAdapters? {
        var stored := memoryMessages.Create(cid, sender, body, env.id, env.now);
        m := Some(stored);
      } else {
        m := tableMessages.Create(cid, sender, body, env.id, env.now);
      }
      next := After(p, if m.Some? then Stored(m.value) else Thrown(UnknownConversation));
      Advance(p, s, State(), if m.Some? then Stored(m.value) else Thrown(UnknownConversation));
    }

    method SoftDelete(mid: string, at: int, ghost p: Progress) returns (m: Option<Message>, ghost next: Progress)
      requires Valid() && Reached(p, State()) && Asks(p, Op.SoftDelete(mid, at)) && p.turn.phase.k.TombstoneWritten?
      modifies Repr()
      ensures Valid() && next == After(p, if m.Some? then Stored(m.value) else Thrown(MissingRow))
      ensures Reached(next, State())
    {
      ghost var s := State();
      if InMemoryAdapters? {
        m := memoryMessages.SoftDelete(mid, at);
      } else {
        m := tableMessages.SoftDelete(mid, at);
      }
      next := After(p, if m.Some? then Stored(m.value) else Thrown(MissingRow));
      AdvanceDeletion(p, s, State(), mid, at, m);
    }

    method MarkRead(cid: string, user: string, at: int, ghost p: Progress) returns (ghost next: Progress)
      requires Valid() && Reached(p, State()) && Asks(p, MarkParticipant(cid, user, Read(at)))
      modifies Repr()
      ensures Valid() && next == After(p, Acknowledged) && Reached(next, State())
    {
      ghost var s := State();
      if InMemoryAdapters? {
        memoryConversations.MarkRead(cid, user, at);
      } else {
        tableConversations.MarkRead(cid, user, at);
      }
      next := After(p, Acknowledged);
      Advance(p, s, State(), Acknowledged);
    }

    method Clear(cid: string, user: string, at: int, ghost p: Progress) returns (ghost next: Progress)
      requires Valid() && Reached(p, State()) && Asks(p, MarkParticipant(cid, user, Cleared(at)))
      modifies Repr()
      ensures Valid() && next == After(p, Acknowledged) && Reached(next, State())
    {
      ghost var s := State();
      if InMemoryAdapters? {
        memoryConversations.Clear(cid, user, at);
      } else {
        tableConversations.Clear(cid, user, at);
      }
      next := After(p, Acknowledged);
      Advance(p, s, State(), Acknowledged);
    }
  }

  datatype Result<+T> = Ok(value: T) | Err(error: ServiceError)

  /** A continuation that waits for `requireParticipant`. */
  predicate Looks(k: Cont, cid: string, user: string) {
    match k
    case LookupForGet(c, u) => c == cid && u == user
    case LookupForSend(c, u, _) => c == cid && u == user
    case LookupForList(c, u, _) => c == cid && u == user
    case LookupForDelete(c, _, u) => c == cid && u == user
    case LookupForClear(c, u) => c == cid && u == user
    case LookupForMarkRead(c, u, _) => c == cid && u == user
    case _ => false
  }

  class MessagingService {
    const adapters: Adapters
    /** Everything handed to the message bus, and everything handed to the notifier. */
    var published: seq<Message>
    var notified: seq<Notice>

    ghost predicate Valid()
      reads this, adapters.Repr()
    {
      && this !in adapters.Repr()
      && adapters.Valid()
      && Settled(adapters.State().msgs, published, notified)
    }

    constructor (adapters: Adapters)
      requires adapters.Valid() && adapters.State().msgs == []
      ensures Valid() && this.adapters == adapters
    {
      this.adapters := adapters;
      published, notified := [], [];
    }

    /** Every call but creation and listing starts here; it goes on with the conversation, or ends with the error. */
    method RequireParticipant(conversationId: string, userId: string, ghost call: Call, ghost env: Env)
      returns (r: Result<Conversation>, ghost p: Progress)
      requires Valid()
      requires Start(call).Asking? && Start(call).op == Op.FindConversation(conversationId)
      requires Looks(Start(call).k, conversationId, userId)
      ensures r.Err? ==>
        Serves(adapters.State(), call, env, adapters.State(), Refused(r.error), published, published, notified,
          notified)
      ensures var refusal := if Has(adapters.State(), conversationId) then NotAParticipant(conversationId, userId)
          else ConversationNotFound(conversationId);
        r.Err? ==> r.error == refusal
      ensures WellFormed(adapters.State())
      ensures r.Ok? <==> Member(adapters.State().convs, conversationId, userId)
      ensures r.Ok? ==> exists i :: 0 <= i < |adapters.State().convs| && Answers(adapters.State(), i, r.value)
      ensures r.Ok? ==> Reached(p, adapters.State()) && Denied(Some(r.value), conversationId, userId).None?
      ensures r.Ok? ==> p == Progress(adapters.State(), call, env, AfterLookup(Start(call).k, Some(r.value), env.now))
    {
      ghost var begun := adapters.Begin(call, env);
      var conversation;
      conversation, p := adapters.FindConversation(conversationId, begun);
      LookupMeans(adapters.State(), conversationId, userId, env, conversation);
      LookedUp(begun, conversation, conversationId, userId);
      if conversation.None? {
        Ends(p, adapters.State(), published, published, notified, notified);
        return Err(ConversationNotFound(conversationId)), p;
      }
      if !IsParticipant(conversation.value, userId) {
        Ends(p, adapters.State(), published, published, notified, notified);
        return Err(NotAParticipant(conversationId, userId)), p;
      }
      r := Ok(conversation.value);
    }

    method CreateConversation(requesterId: string, participantIds: seq<string>, env: Env) returns (r: Reply)
      requires Valid() && Find(adapters.State().convs, env.id).None?
      modifies this, adapters.Repr()
      ensures Valid()
      ensures Serves(old(adapters.State()), Create(requesterId, participantIds), env, adapters.State(), r,
                     old(published), published, old(notified), notified)
    {
      ghost var p := adapters.Begin(Create(requesterId, participantIds), env);
      p := AskGate(p);
      if !env.gate {
        Ends(p, adapters.State(), published, published, notified, notified);
        return Refused(ConversationNotAllowed(requesterId, participantIds));
      }
      r := CreateFor(participantIds, env, p);
    }

    method CreateFor(participantIds: seq<string>, env: Env, ghost p: Progress) returns (r: Reply)
      requires Valid() && Find(adapters.State().convs, env.id).None?
      requires Reached(p, adapters.State()) && p.start == adapters.State() && p.env == env
      requires p.turn == Go(Asking(Op.CreateConversation(participantIds), CreateWritten))
      modifies adapters.Repr()
      ensures Valid()
      ensures Serves(p.start, p.call, env, adapters.State(), r, published, published, notified, notified)
    {
      var created;
      ghost var q;
      created, q := adapters.CreateConversation(participantIds, env, p);
      Ends(q, adapters.State(), published, published, notified, notified);
      r := if created.Some? then OneConversation(created.value) else Refused(StoreThrew(DuplicateParticipant));
    }

    method GetConversation(conversationId: string, requesterId: string, ghost env: Env) returns (r: Reply)
      requires Valid()
      ensures Serves(adapters.State(), Get(conversationId, requesterId), env, adapters.State(), r,
                     published, published, notified, notified)
    {
      var required;
      ghost var p;
      required, p := RequireParticipant(conversationId, requesterId, Get(conversationId, requesterId), env);
      if required.Err? {
        return Refused(required.error);
      }
      Ends(p, adapters.State(), published, published, notified, notified);
      r := OneConversation(required.value);
    }

    /** The previews are read one after the other. */
    method ListConversations(userId: string, ghost env: Env) returns (r: Reply)
      requires Valid()
      ensures Serves(adapters.State(), Call.ListConversations(userId), env, adapters.State(), r,
                     published, published, notified, notified)
    {
      ghost var p := adapters.Begin(Call.ListConversations(userId), env);
      var conversations;
      conversations, p := adapters.FindByParticipant(userId, p);
      var withPreviews;
      withPreviews, p := ReadPreviews(userId, conversations, p);
      Ends(p, adapters.State(), published, published, notified, notified);
      r := Previews(ShownPreviews(withPreviews));
    }

    method ReadPreviews(userId: string, conversations: seq<Conversation>, ghost begun: Progress)
      returns (withPreviews: seq<Entry>, ghost p: Progress)
      requires Valid() && Reached(begun, adapters.State())
      requires begun.turn == Go(AfterPreviews(userId, Entries(userId, conversations)))
      ensures Reached(p, adapters.State()) && AllKnown(withPreviews)
      ensures p == begun.(turn := Go(AfterPreviews(userId, withPreviews)))
    {
      ghost var asked := Entries(userId, conversations);
      withPreviews, p := [], begun;
      assert [] + asked[0..] == asked;
      for i := 0 to |conversations|
        invariant |withPreviews| == i && AllKnown(withPreviews) && Reached(p, adapters.State())
        invariant p == begun.(turn := Go(AfterPreviews(userId, withPreviews + asked[i..])))
      {
        var conversation := conversations[i];
        var clearedAt := ClearedAt(conversation, userId);
        ghost var es := withPreviews + asked[i..];
        PreviewAsked(begun, p, userId, es, i);
        var page;
        page, p := adapters.QueryPreview(Queries(es), i, conversation.id, clearedAt, p);
        PreviewKnown(withPreviews, asked, i, page);
        withPreviews := withPreviews + [Entry(conversation, clearedAt, Known(FirstOf(page)))];
      }
      assert withPreviews + asked[|conversations|..] == withPreviews;
    }

    method SendMessage(conversationId: string, senderId: string, body: string, env: Env) returns (r: Reply)
      requires Valid() && FindById(adapters.State().msgs, env.id).None?
      modifies this, adapters.Repr()
      ensures Valid()
      ensures Serves(old(adapters.State()), Send(conversationId, senderId, body), env, adapters.State(), r,
                     old(published), published, old(notified), notified)
    {
      if |Trim(body)| == 0 {
        ghost var p := adapters.Begin(Send(conversationId, senderId, body), env);
        Ends(p, adapters.State(), published, published, notified, notified);
        return Refused(EmptyMessage);
      }
      var required;
      ghost var p;
      required, p := RequireParticipant(conversationId, senderId, Send(conversationId, senderId, body), env);
      if required.Err? {
        return Refused(required.error);
      }
      SendLooksUp(required.value, conversationId, senderId, body, env.now);
      r := SendTo(required.value, senderId, body, env, p);
    }

    /** The gate is asked again on every send. */
    method SendTo(conversation: Conversation, senderId: string, body: string, env: Env, ghost p: Progress)
      returns (r: Reply)
      requires Valid() && FindById(adapters.State().msgs, env.id).None?
      requires Reached(p, adapters.State()) && p.start == adapters.State() && p.env == env
      requires var pids := UserIds(conversation.participants);
        p.turn == Go(Asking(Op.AskGate(senderId, pids), GateForSend(conversation.id, pids, senderId, body)))
      modifies this, adapters.Repr()
      ensures Valid()
      ensures Serves(p.start, p.call, env, adapters.State(), r, old(published), published, old(notified), notified)
    {
      var participantIds := UserIds(conversation.participants);
      ghost var q := AskGate(p);
      if !env.gate {
        Ends(q, adapters.State(), published, published, notified, notified);
        return Refused(ConversationNotAllowed(senderId, participantIds));
      }
      r := StoreAndAnnounce(conversation.id, senderId, body, participantIds, env, q);
    }

    /** The durable write, then the two best-effort hand-overs. */
    method StoreAndAnnounce(conversationId: string, senderId: string, body: string, participantIds: seq<string>,
          env: Env, ghost p: Progress)
      returns (r: Reply)
      requires Valid() && FindById(adapters.State().msgs, env.id).None?
      requires Reached(p, adapters.State()) && p.start == adapters.State() && p.env == env
      requires p.turn ==
        Go(Asking(Op.CreateMessage(conversationId, senderId, body), SendWritten(participantIds, senderId)))
      modifies this, adapters.Repr()
      ensures Valid()
      ensures Serves(p.start, p.call, env, adapters.State(), r, old(published), published, old(notified), notified)
    {
      var message;
      ghost var q;
      message, q := adapters.CreateMessage(conversationId, senderId, body, env, p);
      if message.None? {
        Ends(q, adapters.State(), published, published, notified, notified);
        return Refused(StoreThrew(UnknownConversation));
      }
      Written(p, message.value, participantIds, senderId);
      published := published + [message.value];
      var recipientIds := Others(participantIds, senderId);
      notified := notified + [Notice(message.value, recipientIds)];
      Ends(q, adapters.State(), old(published), published, old(notified), notified);
      r := OneMessage(message.value);
    }

    method ListMessages(conversationId: string, requesterId: string, options: ListOptions, ghost env: Env)
      returns (r: Reply)
      requires Valid()
      ensures Serves(adapters.State(), List(conversationId, requesterId, options), env, adapters.State(), r,
                     published, published, notified, notified)
    {
      var required;
      ghost var p;
      required, p := RequireParticipant(conversationId, requesterId, List(conversationId, requesterId, options), env);
      if required.Err? {
        return Refused(required.error);
      }
      var clearedAt := ClearedAt(required.value, requesterId);
      r := ReadPage(conversationId, if clearedAt.Some? then options.(after := clearedAt) else options, p);
    }

    method ReadPage(conversationId: string, o: ListOptions, ghost p: Progress) returns (r: Reply)
      requires Valid() && Reached(p, adapters.State()) && p.start == adapters.State()
      requires p.turn == Go(Asking(Op.ListMessages(conversationId, o), ListRead))
      ensures Serves(p.start, p.call, p.env, adapters.State(), r, published, published, notified, notified)
    {
      var messages;
      ghost var q;
      messages, q := adapters.ListMessages(conversationId, o, p);
      Ends(q, adapters.State(), published, published, notified, notified);
      r := Messages(messages);
    }

    method DeleteMessage(conversationId: string, messageId: string, requesterId: string, env: Env) returns (r: Reply)
      requires Valid()
      modifies this, adapters.Repr()
      ensures Valid()
      ensures Serves(old(adapters.State()), Call.DeleteMessage(conversationId, messageId, requesterId), env,
        adapters.State(), r,
                     old(published), published, old(notified), notified)
      ensures Member(old(adapters.State()).convs, conversationId, requesterId) ==>
        forall k :: HasMessage(old(adapters.State()), conversationId, messageId, k) ==>
          DeletedAs(old(adapters.State()), k, requesterId, env.now,
            Outcome(adapters.State(), r, published[|old(published)|..], notified[|old(notified)|..]))
    {
      ghost var s := adapters.State();
      var required;
      ghost var p;
      required, p :=
        RequireParticipant(conversationId, requesterId, Call.DeleteMessage(conversationId, messageId, requesterId),
          env);
      if required.Err? {
        return Refused(required.error);
      }
      r := DeleteFrom(conversationId, messageId, requesterId, env, p);
      DeletionServed(s, conversationId, messageId, requesterId, env,
        Outcome(adapters.State(), r, published[|old(published)|..], notified[|old(notified)|..]));
    }

    method DeleteFrom(conversationId: string, messageId: string, requesterId: string, env: Env, ghost p: Progress)
      returns (r: Reply)
      requires Valid() && Reached(p, adapters.State()) && p.start == adapters.State() && p.env == env
      requires p.turn == Go(Asking(Op.FindMessage(messageId), MessageForDelete(conversationId, messageId, requesterId)))
      modifies this, adapters.Repr()
      ensures Valid()
      ensures Serves(p.start, p.call, env, adapters.State(), r, old(published), published, old(notified), notified)
    {
      var message;
      ghost var q;
      message, q := adapters.FindMessage(messageId, p);
      if message.None? || message.value.conversationId != conversationId {
        r := Refused(MessageNotFound(messageId));
      } else if message.value.senderId != requesterId {
        r := Refused(NotMessageAuthor(messageId, requesterId));
      } else if message.value.deletedAt.Some? {
        r := OneMessage(message.value);
      } else {
        r := Retract(messageId, env, q);
        return;
      }
      Ends(q, adapters.State(), published, published, notified, notified);
    }

    /** The tombstone, then its publication; the notifier is not called. */
    method Retract(messageId: string, env: Env, ghost p: Progress) returns (r: Reply)
      requires Valid()
      requires Reached(p, adapters.State()) && p.start == adapters.State() && p.env == env
      requires p.turn == Go(Asking(Op.SoftDelete(messageId, env.now), TombstoneWritten))
      modifies this, adapters.Repr()
      ensures Valid()
      ensures Serves(p.start, p.call, env, adapters.State(), r, old(published), published, old(notified), notified)
    {
      var deleted;
      ghost var q;
      deleted, q := adapters.SoftDelete(messageId, env.now, p);
      if deleted.None? {
        Ends(q, adapters.State(), published, published, notified, notified);
        return Refused(StoreThrew(MissingRow));
      }
      published := published + [deleted.value];
      Ends(q, adapters.State(), old(published), published, old(notified), notified);
      r := OneMessage(deleted.value);
    }

    method DeleteConversation(conversationId: string, requesterId: string, env: Env) returns (r: Reply)
      requires Valid()
      modifies this, adapters.Repr()
      ensures Valid()
      ensures Serves(old(adapters.State()), Call.DeleteConversation(conversationId, requesterId), env,
        adapters.State(), r,
                     old(published), published, old(notified), notified)
    {
      var required;
      ghost var p;
      required, p :=
        RequireParticipant(conversationId, requesterId, Call.DeleteConversation(conversationId, requesterId), env);
      if required.Err? {
        return Refused(required.error);
      }
      r := ClearFor(conversationId, requesterId, env.now, p);
    }

    method ClearFor(conversationId: string, requesterId: string, at: int, ghost p: Progress) returns (r: Reply)
      requires Valid() && Reached(p, adapters.State()) && p.start == adapters.State()
      requires p.turn == Go(Asking(MarkParticipant(conversationId, requesterId, Cleared(at)), MarkWritten))
      modifies adapters.Repr()
      ensures Valid()
      ensures Serves(p.start, p.call, p.env, adapters.State(), r, published, published, notified, notified)
    {
      Acknowledges(p, p.turn.phase.op);
      ghost var q := adapters.Clear(conversationId, requesterId, at, p);
      Ends(q, adapters.State(), published, published, notified, notified);
      r := Nothing;
    }

    method MarkRead(conversationId: string, userId: string, at: int, ghost env: Env) returns (r: Reply)
      requires Valid()
      modifies this, adapters.Repr()
      ensures Valid()
      ensures Serves(old(adapters.State()), Call.MarkRead(conversationId, userId, at), env, adapters.State(), r,
                     old(published), published, old(notified), notified)
    {
      var required;
      ghost var p;
      required, p := RequireParticipant(conversationId, userId, Call.MarkRead(conversationId, userId, at), env);
      if required.Err? {
        return Refused(required.error);
      }
      r := ReadFor(conversationId, userId, at, p);
    }

    method ReadFor(conversationId: string, userId: string, at: int, ghost p: Progress) returns (r: Reply)
      requires Valid() && Reached(p, adapters.State()) && p.start == adapters.State()
      requires p.turn == Go(Asking(MarkParticipant(conversationId, userId, Read(at)), MarkWritten))
      modifies adapters.Repr()
      ensures Valid()
      ensures Serves(p.start, p.call, p.env, adapters.State(), r, published, published, notified, notified)
    {
      Acknowledges(p, p.turn.phase.op);
      ghost var q := adapters.MarkRead(conversationId, userId, at, p);
      Ends(q, adapters.State(), published, published, notified, notified);
      r := Nothing;
    }

    /** The host's answer is part of what the outside supplies to the call. */
    ghost method AskGate(p: Progress) returns (next: Progress)
      requires Reached(p, adapters.State()) && p.turn.phase.Asking? && p.turn.phase.op.AskGate?
      ensures next == After(p, GateSays(p.env.gate)) && Reached(next, adapters.State())
    {
      next := After(p, GateSays(p.env.gate));
      Advance(p, adapters.State(), adapters.State(), GateSays(p.env.gate));
    }
  }
}
