/** How a run over the in-memory stores keeps step with a run over Postgres. In memory an operation executes when it is
    asked for, so a deletion, which carries the instant it was asked at, executes there ahead of the database; anything
    else is asked for there only when the database executes it. */
module Coupling {
  import opened Domain
  import opened Query
  import opened Stores
  import opened Dated
  import opened Service
  import opened Sequential
  import opened Machine
  import opened Simulation
  import opened Agreement

  // Deletions that wait.

  predicate Deleting(th: Thread) {
    th.Waiting? && IsDated(th.op)
  }

  ghost predicate EachOnce(s: seq<nat>) {
    forall i, j :: 0 <= i < j < |s| ==> s[i] != s[j]
  }

  /** The deletions that wait for the database, in the order they were asked for. */
  ghost predicate WaitsAre(b: Sys, waits: seq<nat>) {
    EachOnce(waits) && forall tid :: tid in waits <==> tid in b.threads && Deleting(b.threads[tid])
  }

  function OpOf(b: Sys, tid: nat): Op {
    if tid in b.threads && b.threads[tid].Waiting? then b.threads[tid].op else AskGate("", [])
  }

  function Ops(b: Sys, waits: seq<nat>): seq<Op> {
    seq(|waits|, i requires 0 <= i < |waits| => OpOf(b, waits[i]))
  }

  /** The database with all of them applied. */
  function AheadOf(b: Sys, waits: seq<nat>): Store {
    Ahead(b.store, Ops(b, waits))
  }

  function Removed(waits: seq<nat>, tid: nat): seq<nat> {
    if waits == [] then []
    else if waits[0] == tid then waits[1..]
    else [waits[0]] + Removed(waits[1..], tid)
  }

  function WaitsAfter(b: Sys, waits: seq<nat>, l: Label, b': Sys): seq<nat> {
    if l.Execute? && l.tid in b.threads && Deleting(b.threads[l.tid]) then Removed(waits, l.tid)
    else if l.Continue? && l.tid in b'.threads && Deleting(b'.threads[l.tid]) then waits + [l.tid]
    else waits
  }

  // The same call in both.

  predicate SameConversationIds(a: seq<Conversation>, b: seq<Conversation>) {
    |a| == |b| && forall i :: 0 <= i < |a| ==> a[i].id == b[i].id
  }

  predicate SameMessageIds(a: seq<Message>, b: seq<Message>) {
    |a| == |b| && forall i :: 0 <= i < |a| ==> a[i].id == b[i].id
  }

  /** An answer of the in-memory stores names the objects that one of the database has copied. */
  predicate AnswerAlike(a: Answer, b: Answer) {
    match b
    case FoundConversation(Some(d)) => a.FoundConversation? && a.found.Some? && a.found.value.id == d.id
    case FoundConversations(list) => a.FoundConversations? && SameConversationIds(a.list, list)
    case Created(d) => a.Created? && a.conversation.id == d.id
    case FoundMessage(Some(m)) => a.FoundMessage? && a.message.Some? && a.message.value.id == m.id
    case Stored(m) => a.Stored? && a.stored.id == m.id
    case FoundMessages(page) => a.FoundMessages? && SameMessageIds(a.page, page)
    case _ => a == b
  }

  predicate FoundIs(ans: Answer, cid: string) {
    ans.FoundConversation? && ans.found.Some? && ans.found.value.id == cid
  }

  /** The first operation of a call that is not for the host. */
  predicate Opens(op: Op) {
    op.FindConversation? || op.FindByParticipant?
  }

  /** Over Postgres the call waits for something which in memory it has yet to ask for. */
  ghost predicate Postponed(x: Thread, call: Call, k: Cont)
    requires x.Holding?
  {
    match call
    case Create(requester, pids) => x.ans == GateSays(true) && x.k == GateForCreate(requester, pids)
    case Send(cid, user, body) =>
      && x.ans == GateSays(true) && x.k.GateForSend? && x.k == GateForSend(cid, x.k.pids, user, body)
      && k.SendWritten? && IdsSim(x.k.pids, k.pids)
    case List(cid, user, o) => FoundIs(x.ans, cid) && x.k == LookupForList(cid, user, o)
    case DeleteMessage(cid, mid, user) => FoundIs(x.ans, cid) && x.k == LookupForDelete(cid, mid, user)
    case MarkRead(cid, user, at) => FoundIs(x.ans, cid) && x.k == LookupForMarkRead(cid, user, at)
    case _ => false
  }

  /** A list in memory has been told of its conversations and reads everything else when the other replies. */
  predicate Unread(x: Thread, user: string, es: seq<Entry>) {
    && x.Holding? && x.k == AllForPreviews(user) && x.ans.FoundConversations? && |x.ans.list| == |es|
    && forall i :: 0 <= i < |es| ==> x.ans.list[i].id == es[i].conversation.id
  }

  /** A deletion has executed in memory. */
  predicate ExecutedAhead(x: Thread, k: Cont, op: Op) {
    && x.Holding? && x.k == k
    && if op.MarkParticipant? then x.ans == Acknowledged
       else (op.SoftDelete? || op.SelectDeleted?) && x.ans.Stored? && x.ans.stored.id == op.mid
  }

  ghost predicate ThreadAlike(x: Thread, y: Thread) {
    x.call == y.call
    && match y
       case Waiting(call, op, k) =>
         if op.AskGate? then x.Waiting? && OpSim(x.op, op) && ContSim(x.k, k)
         else if IsDated(op) || op.SelectDeleted? then ExecutedAhead(x, k, op)
         else if op.QueryPreviews? then k.PreviewsRead? && Unread(x, k.user, k.entries)
         else !Opens(op) && x.Holding? && Postponed(x, call, k)
       case Holding(call, ans, k) =>
         if ans.NotUpdated? then ExecutedAhead(x, k, SelectDeleted(ans.mid))
         else if ans.FoundPreview? then k.PreviewsRead? && Unread(x, k.user, k.entries)
         else x.Holding? && ContSim(x.k, k) && AnswerAlike(x.ans, ans)
       case Ended(_, reply) => x.Ended? && ReplySim(x.reply, reply)
  }

  predicate NotYet(y: Thread) {
    y.Waiting? && Opens(y.op)
  }

  ghost predicate ThreadCoupled(a: Sys, b: Sys, tid: nat)
    requires tid in b.threads
  {
    GoodCall(b.threads[tid].call)
    && if NotYet(b.threads[tid]) then tid !in a.threads
       else tid in a.threads && ThreadAlike(a.threads[tid], b.threads[tid])
  }

  /** Nobody can tell the two systems apart: the same has been replied, published and notified. */
  ghost predicate OutsideAlike(a: Sys, b: Sys) {
    a.clock == b.clock && a.published == b.published && PushesSim(a.notified, b.notified)
  }

  ghost predicate Coupled(a: Sys, b: Sys, waits: seq<nat>) {
    && b.store.kind.Postgres? && WaitsAre(b, waits)
    && a.store == InMemoryOf(AheadOf(b, waits)) && OutsideAlike(a, b)
    && a.threads.Keys <= b.threads.Keys
    && forall tid :: tid in b.threads ==> ThreadCoupled(a, b, tid)
  }

  // The steps in memory that go with one over Postgres.

  datatype Result = Result(store: Store, ans: Answer)

  /** What the in-memory stores do with an operation. The last two cases do not occur there. */
  function InMemoryExec(s: Store, op: Op, env: Env): Result {
    match op
    case FindConversation(cid) => Result(s, FoundConversation(Find(s.convs, cid)))
    case FindByParticipant(user) => Result(s, FoundConversations(Concerning(s.convs, user)))
    case CreateConversation(pids) =>
      var c := Conversation(env.id, Fresh(pids), env.now);
      Result(s.(convs := s.convs + [c]), Created(c))
    case MarkParticipant(cid, user, mark) => Result(Write(s, op), Acknowledged)
    case FindMessage(mid) => Result(s, FoundMessage(FindById(s.msgs, mid)))
    case CreateMessage(cid, sender, body) =>
      var m := Message(env.id, cid, sender, body, env.now, None);
      Result(s.(msgs := s.msgs + [m]), Stored(m))
    case SoftDelete(mid, at) =>
      var m := FindById(s.msgs, mid);
      if m.Some? && m.value.deletedAt.None? then Result(Write(s, op), Stored(Tombstone(m.value, at)))
      else Result(s, StoredRow(m))
    case ListMessages(cid, o) => Result(s, FoundMessages(ListInMemory(s.msgs, cid, o)))
    case AskGate(_, _) => Result(s, GateSays(env.gate))
    case QueryPreviews(_) => Result(s, Acknowledged)
    case SelectDeleted(_) => Result(s, Acknowledged)
  }

  /** What thread `tid` has asked for executes. */
  function ExecutedNow(s: Sys, tid: nat, id: string, gate: bool): Sys {
    if tid in s.threads && s.threads[tid].Waiting? then
      var r := InMemoryExec(s.store, s.threads[tid].op, Env(id, s.clock, gate));
      Executed(s, tid, r.store, r.ans)
    else s
  }

  function ContinuedNow(s: Sys, tid: nat): Sys {
    if tid in s.threads && s.threads[tid].Holding? then Continued(s, tid) else s
  }

  function Begun(s: Sys, tid: nat, call: Call): Sys {
    s.(threads := s.threads[tid := AsThread(call, Start(call))])
  }

  /** A list asks for its previews, is answered, and replies. */
  function ListedNow(s: Sys, tid: nat): Sys {
    if tid in s.threads && s.threads[tid].Holding? && s.threads[tid].ans.FoundConversations?
       && s.threads[tid].k.AllForPreviews? then
      var th := s.threads[tid];
      var previews := PreviewsOf(s.store, th.k.user, Refresh(s.store, th.ans).list);
      s.(threads := s.threads[tid := Ended(th.call, Previews(previews))])
    else s
  }

  /** Where the call of thread `tid` over Postgres goes next. */
  function PhaseAfter(b: Sys, tid: nat): Phase
    requires tid in b.threads && b.threads[tid].Holding?
  {
    Resume(b.threads[tid].k, b.threads[tid].ans, b.clock).phase
  }

  function ExecuteStep(a: Sys, b: Sys, tid: nat, id: string, gate: bool): Sys
    requires tid in b.threads && b.threads[tid].Waiting?
  {
    var op := b.threads[tid].op;
    if op.AskGate? then ExecutedNow(a, tid, id, gate)
    else if Opens(op) then ExecutedNow(Begun(a, tid, b.threads[tid].call), tid, id, gate)
    else if IsDated(op) || op.SelectDeleted? || op.QueryPreviews? then a
    else ExecutedNow(ContinuedNow(a, tid), tid, id, gate)
  }

  function ContinueStep(a: Sys, b: Sys, tid: nat): Sys
    requires tid in b.threads && b.threads[tid].Holding?
  {
    var p := PhaseAfter(b, tid);
    if Postpones(p) then a
    else if p.Asking? && IsDated(p.op) then ExecutedNow(ContinuedNow(a, tid), tid, "", true)
    else if b.threads[tid].ans.FoundPreview? then ListedNow(a, tid)
    else ContinuedNow(a, tid)
  }

  /** The in-memory system after step l of the other. */
  function MemoryStep(a: Sys, b: Sys, l: Label): Sys {
    match l
    case Begin(tid, call) => if Start(call).Asking? && Opens(Start(call).op) then a else Begun(a, tid, call)
    case Execute(tid, id, gate) =>
      if tid in b.threads && b.threads[tid].Waiting? then ExecuteStep(a, b, tid, id, gate) else a
    case Continue(tid) => if tid in b.threads && b.threads[tid].Holding? then ContinueStep(a, b, tid) else a
    case Tick(to) => a.(clock := to)
  }

  // Exactly when the two systems stay coupled.

  /** The query that waits lists what it would list if it were asked for now. */
  ghost predicate ListsAsAsked(s: Store, call: Call, op: Op)
    requires op.ListMessages?
  {
    call.List? && Find(s.convs, call.cid).Some? ==>
      var now := Bounded(call.o, ClearedAt(Find(s.convs, call.cid).value, call.user));
      ListInMemory(s.msgs, op.cid, op.o) == ListInMemory(s.msgs, op.cid, now)
  }

  /** Step l over Postgres: a deletion that executes does so in the order they were asked for, a query that executes
      would be asked for the same now, and a call that continues uses only what is still so, with all deletions that
      wait applied. */
  ghost predicate Fits(b: Sys, waits: seq<nat>, l: Label) {
    match l
    case Begin(_, _) => true
    case Execute(tid, _, _) =>
      tid in b.threads && b.threads[tid].Waiting? && WaitsAre(b, waits) ==>
        var th := b.threads[tid];
        if IsDated(th.op) then forall k :: 0 <= k < |waits| && waits[k] == tid ==> InOrder(b.store, Ops(b, waits), k)
        else th.op.ListMessages? ==> ListsAsAsked(AheadOf(b, waits), th.call, th.op)
    case Continue(tid) =>
      tid in b.threads && b.threads[tid].Holding? ==> Stands(AheadOf(b, waits), b.threads[tid].k, b.threads[tid].ans)
    case Tick(_) => true
  }
}
