/** MessagingService as a coroutine over its ports: what each call asks first, and what it does with each answer.
    Everything between two awaits is one step; `now` is the clock such a step reads with `new Date()`.
    src/core/messaging-service.ts:48-231 */
module Service {
  import opened Domain
  import opened Stores

  datatype Call =
    | Create(requester: string, pids: seq<string>)
    | Get(cid: string, user: string)
    | ListConversations(user: string)
    | Send(cid: string, user: string, body: string)
    | List(cid: string, user: string, o: ListOptions)
    | DeleteMessage(cid: string, mid: string, user: string)
    | DeleteConversation(cid: string, user: string)
    | MarkRead(cid: string, user: string, at: int)

  datatype ServiceError =
    | ConversationNotFound(cid: string)
    | NotAParticipant(cid: string, user: string)
    | EmptyMessage
    | ConversationNotAllowed(requester: string, pids: seq<string>)
    | MessageNotFound(mid: string)
    | NotMessageAuthor(mid: string, user: string)
    | StoreThrew(error: StoreError)
    | ProtocolError // an answer of the wrong shape; no call ever ends this way

  datatype Preview = Preview(conversation: Conversation, lastMessage: Option<Message>)

  /** What a preview query has said so far. */
  datatype LastKnown = Pending | Known(message: Option<Message>)

  /** A conversation whose preview has been asked for, and the requester's clearedAt at that moment. */
  datatype Entry = Entry(conversation: Conversation, clearedAt: Option<int>, last: LastKnown)

  datatype Reply =
    | Refused(error: ServiceError)
    | OneConversation(conversation: Conversation)
    | Previews(previews: seq<Preview>)
    | OneMessage(message: Message)
    | Messages(messages: seq<Message>)
    | Nothing

  /** A push to the host's notifier. */
  datatype Notice = Notice(message: Message, recipients: seq<string>)

  /** Where a call is: what it does with the answer it is waiting for. */
  datatype Cont =
    | GateForCreate(requester: string, pids: seq<string>)
    | CreateWritten
    | LookupForGet(cid: string, user: string)
    | LookupForSend(cid: string, user: string, body: string)
    | GateForSend(cid: string, pids: seq<string>, user: string, body: string)
    | SendWritten(pids: seq<string>, user: string)
    | LookupForList(cid: string, user: string, o: ListOptions)
    | ListRead
    | LookupForDelete(cid: string, mid: string, user: string)
    | MessageForDelete(cid: string, mid: string, user: string)
    | TombstoneWritten
    | LookupForClear(cid: string, user: string)
    | LookupForMarkRead(cid: string, user: string, at: int)
    | MarkWritten
    | AllForPreviews(user: string)
    | PreviewsRead(user: string, entries: seq<Entry>)

  datatype Phase = Asking(op: Op, k: Cont) | Finished(reply: Reply)

  /** The outcome of one step: the next phase, and what the step handed to the bus and to the notifier. */
  datatype Turn = Turn(phase: Phase, published: seq<Message>, notified: seq<Notice>)

  function Go(phase: Phase): Turn {
    Turn(phase, [], [])
  }

  function Refuse(error: ServiceError): Turn {
    Go(Finished(Refused(error)))
  }

  function Start(call: Call): Phase {
    match call
    case Create(requester, pids) => Asking(AskGate(requester, pids), GateForCreate(requester, pids))
    case Get(cid, user) => Asking(FindConversation(cid), LookupForGet(cid, user))
    case ListConversations(user) => Asking(FindByParticipant(user), AllForPreviews(user))
    case Send(cid, user, body) =>
      if |Trim(body)| == 0 then Finished(Refused(EmptyMessage))
      else Asking(FindConversation(cid), LookupForSend(cid, user, body))
    case List(cid, user, o) => Asking(FindConversation(cid), LookupForList(cid, user, o))
    case DeleteMessage(cid, mid, user) => Asking(FindConversation(cid), LookupForDelete(cid, mid, user))
    case DeleteConversation(cid, user) => Asking(FindConversation(cid), LookupForClear(cid, user))
    case MarkRead(cid, user, at) => Asking(FindConversation(cid), LookupForMarkRead(cid, user, at))
  }

  /** `requireParticipant` */
  function Denied(found: Option<Conversation>, cid: string, user: string): Option<ServiceError> {
    if found.None? then Some(ConversationNotFound(cid))
    else if !IsParticipant(found.value, user) then Some(NotAParticipant(cid, user))
    else None
  }

  function ClearedAt(c: Conversation, user: string): Option<int> {
    var p := ParticipantOf(c, user);
    if p.Some? then p.value.clearedAt else None
  }

  /** The requester's own clearedAt wins over an `after` the caller asked for. */
  function Bounded(o: ListOptions, clearedAt: Option<int>): ListOptions {
    if clearedAt.Some? then o.(after := clearedAt) else o
  }

  function Entries(user: string, list: seq<Conversation>): seq<Entry> {
    seq(|list|, i requires 0 <= i < |list| => Entry(list[i], ClearedAt(list[i], user), Pending))
  }

  /** The queries that have not been answered, each at its position. */
  function Queries(es: seq<Entry>): seq<Option<PreviewQuery>> {
    seq(|es|, i requires 0 <= i < |es| =>
      if es[i].last.Pending? then Some(PreviewQuery(es[i].conversation.id, es[i].clearedAt)) else None)
  }

  function FirstOf(page: seq<Message>): Option<Message> {
    if page == [] then None else Some(page[0])
  }

  function WithAnswer(es: seq<Entry>, i: nat, page: seq<Message>): seq<Entry>
    requires i < |es|
  {
    es[i := es[i].(last := Known(FirstOf(page)))]
  }

  predicate AllKnown(es: seq<Entry>) {
    forall i :: 0 <= i < |es| ==> es[i].last.Known?
  }

  /** A conversation the user cleared shows up only if something was sent since. */
  predicate ToShow(e: Entry) {
    e.last.Known? && (e.clearedAt.None? || e.last.message.Some?)
  }

  function ShownPreviews(es: seq<Entry>): seq<Preview> {
    if es == [] then []
    else
      var front, e := ShownPreviews(es[..|es| - 1]), es[|es| - 1];
      if ToShow(e) then front + [Preview(e.conversation, e.last.message)] else front
  }

  /** `listConversations` waits for all its previews before it looks at any. */
  function AfterPreviews(user: string, es: seq<Entry>): Phase {
    if AllKnown(es) then Finished(Previews(ShownPreviews(es)))
    else Asking(QueryPreviews(Queries(es)), PreviewsRead(user, es))
  }

  function AfterLookup(k: Cont, found: Option<Conversation>, now: int): Turn {
    match k
    case LookupForGet(cid, user) =>
      var denied := Denied(found, cid, user);
      if denied.Some? then Refuse(denied.value) else Go(Finished(OneConversation(found.value)))
    case LookupForSend(cid, user, body) =>
      var denied := Denied(found, cid, user);
      if denied.Some? then Refuse(denied.value)
      else
        var pids := UserIds(found.value.participants);
        Go(Asking(AskGate(user, pids), GateForSend(found.value.id, pids, user, body)))
    case LookupForList(cid, user, o) =>
      var denied := Denied(found, cid, user);
      if denied.Some? then Refuse(denied.value)
      else Go(Asking(ListMessages(cid, Bounded(o, ClearedAt(found.value, user))), ListRead))
    case LookupForDelete(cid, mid, user) =>
      var denied := Denied(found, cid, user);
      if denied.Some? then Refuse(denied.value)
      else Go(Asking(FindMessage(mid), MessageForDelete(cid, mid, user)))
    case LookupForClear(cid, user) =>
      var denied := Denied(found, cid, user);
      if denied.Some? then Refuse(denied.value)
      else Go(Asking(MarkParticipant(cid, user, Cleared(now)), MarkWritten))
    case LookupForMarkRead(cid, user, at) =>
      var denied := Denied(found, cid, user);
      if denied.Some? then Refuse(denied.value)
      else Go(Asking(MarkParticipant(cid, user, Read(at)), MarkWritten))
    case _ => Refuse(ProtocolError)
  }

  function AfterMessage(cid: string, mid: string, user: string, m: Option<Message>, now: int): Turn {
    if m.None? || m.value.conversationId != cid then Refuse(MessageNotFound(mid))
    else if m.value.senderId != user then Refuse(NotMessageAuthor(mid, user))
    else if m.value.deletedAt.Some? then Go(Finished(OneMessage(m.value)))
    else Go(Asking(SoftDelete(mid, now), TombstoneWritten))
  }

  /** What a call does when the answer it waits for arrives. A store that throws fails the call; a port never
      answers an operation with an answer of another shape. */
  function Resume(k: Cont, ans: Answer, now: int): Turn {
    match ans
    case Thrown(error) => Refuse(StoreThrew(error))
    case FoundConversation(found) => AfterLookup(k, found, now)
    case GateSays(allowed) =>
      (match k
       case GateForCreate(requester, pids) =>
         if allowed then Go(Asking(CreateConversation(pids), CreateWritten))
         else Refuse(ConversationNotAllowed(requester, pids))
       case GateForSend(cid, pids, user, body) =>
         if allowed then Go(Asking(CreateMessage(cid, user, body), SendWritten(pids, user)))
         else Refuse(ConversationNotAllowed(user, pids))
       case _ => Refuse(ProtocolError))
    case Created(c) => Go(Finished(OneConversation(c)))
    case Acknowledged => Go(Finished(Nothing))
    case FoundMessage(m) =>
      if k.MessageForDelete? then AfterMessage(k.cid, k.mid, k.user, m, now) else Refuse(ProtocolError)
    case Stored(m) =>
      if k.SendWritten? then Turn(Finished(OneMessage(m)), [m], [Notice(m, Others(k.pids, k.user))])
      else Turn(Finished(OneMessage(m)), [m], [])
    case NotUpdated(mid) =>
      if k.TombstoneWritten? then Go(Asking(SelectDeleted(mid), TombstoneWritten)) else Refuse(ProtocolError)
    case FoundMessages(page) =>
      Go(Finished(Messages(page)))
    case FoundPreview(i, page) =>
      if k.PreviewsRead? && i < |k.entries| then Go(AfterPreviews(k.user, WithAnswer(k.entries, i, page)))
      else Refuse(ProtocolError)
    case FoundConversations(list) =>
      if k.AllForPreviews? then Go(AfterPreviews(k.user, Entries(k.user, list))) else Refuse(ProtocolError)
  }

  // A call that runs alone: its operations execute one after the other, with nothing in between.

  datatype Step = Step(ans: Answer, after: Store)

  /** The store a call leaves, its reply, and what it handed to the bus and to the notifier. */
  datatype Outcome = Outcome(store: Store, reply: Reply, published: seq<Message>, notified: seq<Notice>)

  ghost predicate Performs(s: Store, t: Turn, env: Env, trace: seq<Step>, out: Outcome)
    decreases |trace|
  {
    match t.phase
    case Finished(r) => trace == [] && out == Outcome(s, r, t.published, t.notified)
    case Asking(op, k) =>
      && trace != []
      && Exec(s, op, env, trace[0].after, trace[0].ans)
      && var u := Resume(k, trace[0].ans, env.now);
         Performs(trace[0].after, Turn(u.phase, t.published + u.published, t.notified + u.notified), env, trace[1..],
           out)
  }
}
