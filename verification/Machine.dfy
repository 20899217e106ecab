/** Any number of service calls in flight over one store, split at their awaits: a call waits for an operation,
    the store executes it, the call later continues with the answer. Steps of different calls interleave freely.
    src/core/messaging-service.ts:57-230 */
module Machine {
  import opened Domain
  import opened Stores
  import opened Service

  datatype Thread =
    | Waiting(call: Call, op: Op, k: Cont)
    | Holding(call: Call, ans: Answer, k: Cont)
    | Ended(call: Call, reply: Reply)

  /** What a thread handed to the bus, and to the host's notifier. */
  datatype Post = Post(tid: nat, message: Message)

  datatype Push = Push(tid: nat, notice: Notice)

  /** The last two fields are history: which thread wrote each message, and which threads the gate let through. */
  datatype Sys = Sys(
    store: Store, threads: map<nat, Thread>, clock: int, published: seq<Post>, notified: seq<Push>,
    authors: seq<nat>, grants: set<nat>)

  datatype Label =
    | Begin(tid: nat, call: Call)
    | Execute(tid: nat, id: string, gate: bool)
    | Continue(tid: nat)
    | Tick(to: int)

  function AsThread(call: Call, phase: Phase): Thread {
    match phase
    case Asking(op, k) => Waiting(call, op, k)
    case Finished(reply) => Ended(call, reply)
  }

  function CurrentConversation(s: Store, c: Conversation): Conversation {
    var now := Find(s.convs, c.id);
    if now.Some? then now.value else c
  }

  function CurrentMessage(s: Store, m: Message): Message {
    var now := FindById(s.msgs, m.id);
    if now.Some? then now.value else m
  }

  function CurrentPage(s: Store, page: seq<Message>): seq<Message> {
    seq(|page|, i requires 0 <= i < |page| => CurrentMessage(s, page[i]))
  }

  /** The in-memory stores hand out the objects they hold, so a call continues with their present fields;
      a Postgres answer is a copy. */
  function Refresh(s: Store, ans: Answer): Answer {
    if s.kind.Postgres? then ans
    else
      match ans
      case FoundConversation(Some(c)) => FoundConversation(Some(CurrentConversation(s, c)))
      case FoundConversations(list) =>
        FoundConversations(seq(|list|, i requires 0 <= i < |list| => CurrentConversation(s, list[i])))
      case Created(c) => Created(CurrentConversation(s, c))
      case FoundMessage(Some(m)) => FoundMessage(Some(CurrentMessage(s, m)))
      case Stored(m) => Stored(CurrentMessage(s, m))
      case FoundMessages(page) => FoundMessages(CurrentPage(s, page))
      case FoundPreview(i, page) => FoundPreview(i, CurrentPage(s, page))
      case _ => ans
  }

  function CurrentEntry(s: Store, e: Entry): Entry {
    var last := if e.last == Pending || e.last == Known(None) then e.last
      else Known(Some(CurrentMessage(s, e.last.message.value)));
    e.(conversation := CurrentConversation(s, e.conversation), last := last)
  }

  /** So does what a call has kept of earlier answers. What it computed from them stays: ids, and the clearedAt a
      preview was asked with. */
  function RefreshKept(s: Store, k: Cont): Cont {
    if s.kind.InMemory? && k.PreviewsRead? then
      k.(entries := seq(|k.entries|, i requires 0 <= i < |k.entries| => CurrentEntry(s, k.entries[i])))
    else k
  }

  function Posts(tid: nat, ms: seq<Message>): seq<Post> {
    seq(|ms|, i requires 0 <= i < |ms| => Post(tid, ms[i]))
  }

  function Pushes(tid: nat, ns: seq<Notice>): seq<Push> {
    seq(|ns|, i requires 0 <= i < |ns| => Push(tid, ns[i]))
  }

  /** The store answers the operation thread `tid` waits for. */
  function Executed(s: Sys, tid: nat, store: Store, ans: Answer): Sys
    requires tid in s.threads && s.threads[tid].Waiting?
  {
    var th := s.threads[tid];
    s.(store := store,
       threads := s.threads[tid := Holding(th.call, ans, th.k)],
       authors := if th.op.CreateMessage? && ans.Stored? then s.authors + [tid] else s.authors,
       grants := if ans == GateSays(true) then s.grants + {tid} else s.grants)
  }

  /** Thread `tid` continues with its answer. */
  function Continued(s: Sys, tid: nat): Sys
    requires tid in s.threads && s.threads[tid].Holding?
  {
    var th := s.threads[tid];
    var u := Resume(RefreshKept(s.store, th.k), Refresh(s.store, th.ans), s.clock);
    s.(threads := s.threads[tid := AsThread(th.call, u.phase)],
       published := s.published + Posts(tid, u.published),
       notified := s.notified + Pushes(tid, u.notified))
  }

  ghost predicate Next(s: Sys, l: Label, s': Sys) {
    match l
    case Begin(tid, call) =>
      tid !in s.threads && s' == s.(threads := s.threads[tid := AsThread(call, Start(call))])
    case Execute(tid, id, gate) =>
      && tid in s.threads && s.threads[tid].Waiting?
      && exists ans ::
           && Exec(s.store, s.threads[tid].op, Env(id, s.clock, gate), s'.store, ans)
           && s' == Executed(s, tid, s'.store, ans)
    case Continue(tid) =>
      tid in s.threads && s.threads[tid].Holding? && s' == Continued(s, tid)
    case Tick(to) =>
      to >= s.clock && s' == s.(clock := to)
  }

  function Initial(kind: Kind, clock: int): Sys {
    Sys(Store(kind, [], []), map[], clock, [], [], [], {})
  }

  /** Step i leads from state i to state i + 1. */
  ghost predicate Moves(ss: seq<Sys>, ls: seq<Label>, i: nat)
    requires i < |ls| < |ss|
  {
    Next(ss[i], ls[i], ss[i + 1])
  }

  ghost predicate Run(ss: seq<Sys>, ls: seq<Label>) {
    && |ss| == |ls| + 1
    && ss[0] == Initial(ss[0].store.kind, ss[0].clock)
    && forall i :: 0 <= i < |ls| ==> Moves(ss, ls, i)
  }

  // What every reachable state keeps.

  ghost predicate MembersAre(cs: seq<Conversation>, cid: string, pids: seq<string>) {
    exists i :: 0 <= i < |cs| && cs[i].id == cid && multiset(UserIds(cs[i].participants)) == multiset(pids)
  }

  ghost predicate Member(cs: seq<Conversation>, cid: string, user: string) {
    exists i :: 0 <= i < |cs| && cs[i].id == cid && user in UserIds(cs[i].participants)
  }

  /** `m` is a copy of a logged message; a tombstone is the logged tombstone itself. */
  ghost predicate Logged(ms: seq<Message>, m: Message) {
    exists i :: 0 <= i < |ms| && Becomes(m, ms[i])
  }

  ghost predicate Owns(ms: seq<Message>, cid: string, mid: string, user: string) {
    exists i :: 0 <= i < |ms| && ms[i].id == mid && ms[i].conversationId == cid && ms[i].senderId == user
  }

  ghost predicate Erased(ms: seq<Message>, mid: string) {
    exists i :: 0 <= i < |ms| && ms[i].id == mid && ms[i].deletedAt.Some?
  }

  ghost predicate ConversationOk(s: Store, c: Conversation) {
    MembersAre(s.convs, c.id, UserIds(c.participants))
  }

  /** What a call keeps for its previews are copies of what is stored. */
  ghost predicate EntryOk(s: Store, e: Entry) {
    ConversationOk(s, e.conversation)
    && (e.last.Known? && e.last.message.Some? ==> Logged(s.msgs, e.last.message.value))
  }

  ghost predicate EntriesOk(s: Store, es: seq<Entry>) {
    forall i :: 0 <= i < |es| ==> EntryOk(s, es[i])
  }

  /** What thread `tid` may wait for, and what it has established by then. */
  ghost predicate WaitingOk(s: Store, grants: set<nat>, tid: nat, call: Call, op: Op, k: Cont) {
    match k
    case GateForCreate(requester, pids) => call == Create(requester, pids) && op == AskGate(requester, pids)
    case CreateWritten => call.Create? && op == CreateConversation(call.pids) && tid in grants
    case LookupForGet(cid, user) => call == Get(cid, user) && op == FindConversation(cid)
    case LookupForSend(cid, user, body) =>
      call == Send(cid, user, body) && op == FindConversation(cid) && Trim(body) != []
    case GateForSend(cid, pids, user, body) =>
      && call == Send(cid, user, body) && op == AskGate(user, pids) && Trim(body) != []
      && MembersAre(s.convs, cid, pids) && user in pids
    case SendWritten(pids, user) =>
      && call.Send? && call.user == user && op == CreateMessage(call.cid, user, call.body) && Trim(call.body) != []
      && MembersAre(s.convs, call.cid, pids) && user in pids && tid in grants
    case LookupForList(cid, user, o) => call == List(cid, user, o) && op == FindConversation(cid)
    case ListRead =>
      && call.List? && op.ListMessages? && op.cid == call.cid && op.o == call.o.(after := op.o.after)
      && Member(s.convs, call.cid, call.user)
    case LookupForDelete(cid, mid, user) => call == DeleteMessage(cid, mid, user) && op == FindConversation(cid)
    case MessageForDelete(cid, mid, user) =>
      call == DeleteMessage(cid, mid, user) && op == FindMessage(mid) && Member(s.convs, cid, user)
    case TombstoneWritten =>
      && call.DeleteMessage? && Owns(s.msgs, call.cid, call.mid, call.user) && Member(s.convs, call.cid, call.user)
      && ((op.SoftDelete? && op.mid == call.mid) || (op == SelectDeleted(call.mid) && Erased(s.msgs, call.mid)))
    case LookupForClear(cid, user) => call == DeleteConversation(cid, user) && op == FindConversation(cid)
    case LookupForMarkRead(cid, user, at) => call == MarkRead(cid, user, at) && op == FindConversation(cid)
    case MarkWritten =>
      && op.MarkParticipant? && (call.DeleteConversation? || call.MarkRead?) && op.cid == call.cid
        && op.user == call.user
      && (if call.MarkRead? then op.mark == Read(call.at) else op.mark.Cleared?)
      && Member(s.convs, call.cid, call.user)
    case AllForPreviews(user) => call == ListConversations(user) && op == FindByParticipant(user)
    case PreviewsRead(user, entries) =>
      call == ListConversations(user) && op == QueryPreviews(Queries(entries)) && EntriesOk(s, entries)
  }

  ghost predicate HoldingOk(s: Store, grants: set<nat>, tid: nat, call: Call, ans: Answer, k: Cont) {
    match k
    case GateForCreate(requester, pids) =>
      call == Create(requester, pids) && ans.GateSays? && (ans.allowed ==> tid in grants)
    case CreateWritten =>
      && call.Create? && (ans.Created? || ans == Thrown(DuplicateParticipant))
      && (ans.Created? ==> ConversationOk(s, ans.conversation))
    case GateForSend(cid, pids, user, body) =>
      && call == Send(cid, user, body) && ans.GateSays? && Trim(body) != []
      && MembersAre(s.convs, cid, pids) && user in pids && (ans.allowed ==> tid in grants)
    case SendWritten(pids, user) =>
      && call.Send? && call.user == user && ans.Stored?
      && Logged(s.msgs, ans.stored) && MembersAre(s.convs, call.cid, pids)
      && ans.stored.conversationId == call.cid && ans.stored.senderId == user
    case ListRead =>
      call.List? && ans.FoundMessages? && forall i :: 0 <= i < |ans.page| ==> Logged(s.msgs, ans.page[i])
    case MessageForDelete(cid, mid, user) =>
      && call == DeleteMessage(cid, mid, user) && ans.FoundMessage? && Member(s.convs, cid, user)
      && (ans.message.Some? ==> ans.message.value.id == mid && Logged(s.msgs, ans.message.value))
    case TombstoneWritten =>
      && call.DeleteMessage?
      && if ans.NotUpdated? then
           && ans.mid == call.mid && Erased(s.msgs, call.mid)
           && Owns(s.msgs, call.cid, call.mid, call.user) && Member(s.convs, call.cid, call.user)
         else
           && ans.Stored? && ans.stored.id == call.mid && ans.stored.conversationId == call.cid
           && ans.stored.senderId == call.user && ans.stored.deletedAt.Some? && Logged(s.msgs, ans.stored)
    case MarkWritten => (call.DeleteConversation? || call.MarkRead?) && ans == Acknowledged
    case AllForPreviews(user) =>
      && call == ListConversations(user) && ans.FoundConversations?
      && forall i :: 0 <= i < |ans.list| ==> ConversationOk(s, ans.list[i])
    case PreviewsRead(user, entries) =>
      && call == ListConversations(user) && ans.FoundPreview? && ans.i < |entries| && EntriesOk(s, entries)
      && forall i :: 0 <= i < |ans.page| ==> Logged(s.msgs, ans.page[i])
    case _ =>
      && ans.FoundConversation?
      && (ans.found.Some? ==>
            ans.found.value.id == k.cid && MembersAre(s.convs, k.cid, UserIds(ans.found.value.participants)))
      && match k
         case LookupForGet(cid, user) => call == Get(cid, user)
         case LookupForSend(cid, user, body) => call == Send(cid, user, body) && Trim(body) != []
         case LookupForList(cid, user, o) => call == List(cid, user, o)
         case LookupForDelete(cid, mid, user) => call == DeleteMessage(cid, mid, user)
         case LookupForClear(cid, user) => call == DeleteConversation(cid, user)
         case LookupForMarkRead(cid, user, at) => call == MarkRead(cid, user, at)
         case _ => false
  }

  ghost predicate EndedOk(s: Store, call: Call, reply: Reply) {
    match reply
    case Refused(StoreThrew(error)) => call.Create? && error == DuplicateParticipant
    case Refused(ProtocolError) => false
    case OneMessage(m) =>
      && Logged(s.msgs, m)
      && (call.Send? || call.DeleteMessage?) && m.conversationId == call.cid && m.senderId == call.user
      && (call.DeleteMessage? ==> m.id == call.mid && m.deletedAt.Some?)
    case _ => true
  }

  ghost predicate ThreadOk(s: Store, grants: set<nat>, tid: nat, th: Thread) {
    match th
    case Waiting(call, op, k) => WaitingOk(s, grants, tid, call, op, k)
    case Holding(call, ans, k) => HoldingOk(s, grants, tid, call, ans, k)
    case Ended(call, reply) => EndedOk(s, call, reply)
  }

  /** The send thread has had its message stored. */
  predicate Wrote(th: Thread) {
    th.call.Send? && ((th.Holding? && th.ans.Stored?) || (th.Ended? && th.reply.OneMessage?))
  }

  /** Message `m` was written by thread `tid`, for a send the gate approved, into a conversation its sender is in. */
  ghost predicate AuthoredBy(s: Sys, m: Message, tid: nat) {
    && tid in s.threads && tid in s.grants && Wrote(s.threads[tid])
    && var call := s.threads[tid].call;
       && m.conversationId == call.cid && m.senderId == call.user
       && Member(s.store.convs, call.cid, call.user)
       && (if m.deletedAt.None? then m.body == call.body && Trim(call.body) != [] else m.body == "")
  }

  ghost predicate LogOk(s: Sys) {
    && |s.authors| == |s.store.msgs|
    && (forall i :: 0 <= i < |s.authors| ==> AuthoredBy(s, s.store.msgs[i], s.authors[i]))
    && (forall i, j :: 0 <= i < j < |s.authors| ==> s.authors[i] != s.authors[j])
  }

  ghost predicate PostOk(s: Sys, p: Post) {
    p.tid in s.threads && s.threads[p.tid].Ended? && s.threads[p.tid].reply == OneMessage(p.message)
      && Logged(s.store.msgs, p.message)
  }

  /** Thread `tid` is a send that succeeded. */
  predicate Sent(s: Sys, tid: nat) {
    tid in s.threads && s.threads[tid].Ended? && s.threads[tid].call.Send? && s.threads[tid].reply.OneMessage?
  }

  ghost predicate PushOk(s: Sys, p: Push) {
    && Sent(s, p.tid)
    && p.notice.message == s.threads[p.tid].reply.message
    && var call := s.threads[p.tid].call;
       exists pids :: MembersAre(s.store.convs, call.cid, pids) && p.notice.recipients == Others(pids, call.user)
  }

  ghost predicate PostsOk(s: Sys) {
    && (forall p :: p in s.published ==> PostOk(s, p))
    && (forall i, j :: 0 <= i < j < |s.published| ==> s.published[i].tid != s.published[j].tid)
  }

  ghost predicate PushesOk(s: Sys) {
    && (forall p :: p in s.notified ==> PushOk(s, p))
    && (forall i, j :: 0 <= i < j < |s.notified| ==> s.notified[i].tid != s.notified[j].tid)
  }

  /** Every successful send posted and pushed, and no thread did so twice. */
  ghost predicate OutboxOk(s: Sys) {
    PostsOk(s) && PushesOk(s) && forall tid :: Sent(s, tid) ==> Posted(s, tid) && Pushed(s, tid)
  }

  ghost predicate Posted(s: Sys, tid: nat) {
    exists p :: p in s.published && p.tid == tid
  }

  ghost predicate Pushed(s: Sys, tid: nat) {
    exists p :: p in s.notified && p.tid == tid
  }

  ghost predicate Inv(s: Sys) {
    && WellFormed(s.store)
    && (forall tid :: tid in s.threads ==> ThreadOk(s.store, s.grants, tid, s.threads[tid]))
    && LogOk(s)
    && OutboxOk(s)
  }

  // Facts about one store state persist.

  lemma MembersKeep(a: seq<Conversation>, b: seq<Conversation>, cid: string, pids: seq<string>, user: string)
    requires Keeps(a, b)
    ensures MembersAre(a, cid, pids) ==> MembersAre(b, cid, pids)
    ensures Member(a, cid, user) ==> Member(b, cid, user)
  {
    if MembersAre(a, cid, pids) {
      var i :| 0 <= i < |a| && a[i].id == cid && multiset(UserIds(a[i].participants)) == multiset(pids);
      assert SameMembers(a[i], b[i]);
    }
    if Member(a, cid, user) {
      var i :| 0 <= i < |a| && a[i].id == cid && user in UserIds(a[i].participants);
      assert SameMembers(a[i], b[i]);
    }
  }

  lemma LoggedKeep(a: seq<Message>, b: seq<Message>, m: Message)
    requires Appends(a, b) && Logged(a, m)
    ensures Logged(b, m)
  {
    var i :| 0 <= i < |a| && Becomes(m, a[i]);
    assert Becomes(m, b[i]);
  }

  lemma OwnsKeep(a: seq<Message>, b: seq<Message>, cid: string, mid: string, user: string)
    requires Appends(a, b) && Owns(a, cid, mid, user)
    ensures Owns(b, cid, mid, user)
  {
    var i :| 0 <= i < |a| && a[i].id == mid && a[i].conversationId == cid && a[i].senderId == user;
    assert Key(b[i]) == Key(a[i]);
  }

  lemma ErasedKeep(a: seq<Message>, b: seq<Message>, mid: string)
    requires Appends(a, b) && Erased(a, mid)
    ensures Erased(b, mid)
  {
    var i :| 0 <= i < |a| && a[i].id == mid && a[i].deletedAt.Some?;
    assert Key(b[i]) == Key(a[i]) && b[i] == a[i];
  }

  lemma MemberOfMembers(cs: seq<Conversation>, cid: string, pids: seq<string>, user: string)
    requires MembersAre(cs, cid, pids) && user in pids
    ensures Member(cs, cid, user)
  {
    var i :| 0 <= i < |cs| && cs[i].id == cid && multiset(UserIds(cs[i].participants)) == multiset(pids);
    assert user in multiset(UserIds(cs[i].participants));
  }

  lemma DeletionKeeps(s: Store, s': Store, th: Thread)
    requires Appends(s.msgs, s'.msgs) && th.call.DeleteMessage?
    ensures Owns(s.msgs, th.call.cid, th.call.mid, th.call.user) ==>
      Owns(s'.msgs, th.call.cid, th.call.mid, th.call.user)
    ensures Erased(s.msgs, th.call.mid) ==> Erased(s'.msgs, th.call.mid)
  {
    if Owns(s.msgs, th.call.cid, th.call.mid, th.call.user) {
      OwnsKeep(s.msgs, s'.msgs, th.call.cid, th.call.mid, th.call.user);
    }
    if Erased(s.msgs, th.call.mid) {
      ErasedKeep(s.msgs, s'.msgs, th.call.mid);
    }
  }

  /** What a thread has established stays established while other threads run. */
  lemma ThreadKeeps(s: Store, s': Store, grants: set<nat>, grants': set<nat>, tid: nat, th: Thread)
    requires Keeps(s.convs, s'.convs) && Appends(s.msgs, s'.msgs) && grants <= grants'
    requires ThreadOk(s, grants, tid, th)
    ensures ThreadOk(s', grants', tid, th)
  {
    forall cid, pids, user
      ensures MembersAre(s.convs, cid, pids) ==> MembersAre(s'.convs, cid, pids)
      ensures Member(s.convs, cid, user) ==> Member(s'.convs, cid, user)
    {
      MembersKeep(s.convs, s'.convs, cid, pids, user);
    }
    forall m | Logged(s.msgs, m)
      ensures Logged(s'.msgs, m)
    {
      LoggedKeep(s.msgs, s'.msgs, m);
    }
    if !th.Ended? && th.k.TombstoneWritten? {
      DeletionKeeps(s, s', th);
    }
  }
}
