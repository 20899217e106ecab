/** What is the same over the Postgres stores and over the in-memory ones, participants compared without order: what
    calls ask and reply, and one operation of either pair of stores against the other. */
module Simulation {
  import opened Domain
  import opened Query
  import opened Rows
  import opened Stores
  import opened Service
  import opened Machine

  // Equal up to the order of participants.

  /** `c` is the in-memory one; no user is twice in it. */
  ghost predicate ConvSim(c: Conversation, d: Conversation) {
    Same(c, d) && NoDuplicates(UserIds(c.participants))
  }

  ghost predicate ConvsSim(a: seq<Conversation>, b: seq<Conversation>) {
    |a| == |b| && forall i :: 0 <= i < |a| ==> ConvSim(a[i], b[i])
  }

  ghost predicate PreviewSim(p: Preview, q: Preview) {
    Same(p.conversation, q.conversation) && p.lastMessage == q.lastMessage
  }

  ghost predicate PreviewsSim(a: seq<Preview>, b: seq<Preview>) {
    |a| == |b| && forall i :: 0 <= i < |a| ==> PreviewSim(a[i], b[i])
  }

  ghost predicate IdsSim(a: seq<string>, b: seq<string>) {
    multiset(a) == multiset(b)
  }

  ghost predicate OpSim(a: Op, b: Op) {
    && (if a.AskGate? then b.AskGate? && a.requester == b.requester && IdsSim(a.pids, b.pids) else a == b)
    && (a.ListMessages? ==> a.o.limit.Some? && 1 <= a.o.limit.value <= MAX_LIMIT)
  }

  ghost predicate ContSim(a: Cont, b: Cont) {
    match a
    case GateForSend(cid, pids, user, body) =>
      b.GateForSend? && b == GateForSend(cid, b.pids, user, body) && IdsSim(pids, b.pids)
    case SendWritten(pids, user) => b.SendWritten? && b.user == user && IdsSim(pids, b.pids)
    case LookupForList(cid, user, o) => a == b && o.limit.Some? && 1 <= o.limit.value <= MAX_LIMIT
    case _ => a == b
  }

  ghost predicate AnswerSim(a: Answer, b: Answer) {
    match a
    case FoundConversation(Some(c)) => b.FoundConversation? && b.found.Some? && ConvSim(c, b.found.value)
    case FoundConversations(list) => b.FoundConversations? && ConvsSim(list, b.list)
    case _ => a == b
  }

  ghost predicate ReplySim(a: Reply, b: Reply) {
    match a
    case OneConversation(c) => b.OneConversation? && Same(c, b.conversation)
    case Previews(ps) => b.Previews? && PreviewsSim(ps, b.previews)
    case Refused(ConversationNotAllowed(user, pids)) =>
      b.Refused? && b.error.ConversationNotAllowed? && b.error.requester == user && IdsSim(pids, b.error.pids)
    case _ => a == b
  }

  ghost predicate PhaseSim(a: Phase, b: Phase) {
    match a
    case Asking(op, k) => b.Asking? && OpSim(op, b.op) && ContSim(k, b.k)
    case Finished(reply) => b.Finished? && ReplySim(reply, b.reply)
  }

  ghost predicate NoticeSim(a: Notice, b: Notice) {
    a.message == b.message && IdsSim(a.recipients, b.recipients)
  }

  // The operation.

  ghost predicate DistinctCreation(cs: seq<Conversation>) {
    forall i, j :: 0 <= i < j < |cs| ==> cs[i].createdAt != cs[j].createdAt
  }

  /** What the callers owe for the stores to agree: participants in every conversation, no two conversations and
      no two messages created at the same instant. Conversations are stored in creation order. */
  ghost predicate Agreeable(s: Store) {
    && WellFormed(s)
    && (forall c :: c in s.convs ==> c.participants != [] && NoDuplicates(UserIds(c.participants)))
    && OldestFirst(s.convs) && DistinctCreation(s.convs)
    && DistinctInstants(s.msgs)
  }

  ghost predicate StoreSim(a: Store, b: Store) {
    a.kind.InMemory? && b.kind.Postgres? && a.convs == b.convs && a.msgs == b.msgs
  }

  lemma {:induction false} ConcerningAre(cs: seq<Conversation>, user: string)
    ensures forall c :: c in Concerning(cs, user) <==> c in cs && IsParticipant(c, user)
  {
    if cs != [] {
      var front, last := cs[..|cs| - 1], cs[|cs| - 1];
      assert cs == front + [last];
      ConcerningAre(front, user);
    }
  }

  /** They are in the order they are stored in. */
  lemma {:induction false} ConcerningPair(cs: seq<Conversation>, user: string, i: nat, j: nat) returns (x: nat, y: nat)
    requires i < j < |Concerning(cs, user)|
    ensures x < y < |cs| && Concerning(cs, user)[i] == cs[x] && Concerning(cs, user)[j] == cs[y]
  {
    var n := |cs| - 1;
    var front := cs[..n];
    var kept := Concerning(front, user);
    if j < |kept| {
      x, y := ConcerningPair(front, user, i, j);
    } else {
      ConcerningAre(front, user);
      assert kept[i] in kept;
      x :| 0 <= x < n && front[x] == kept[i];
      y := n;
    }
  }

  lemma ConcerningFacts(cs: seq<Conversation>, user: string)
    ensures forall c :: c in Concerning(cs, user) <==> c in cs && IsParticipant(c, user)
    ensures OldestFirst(cs) ==> OldestFirst(Concerning(cs, user))
    ensures OldestFirst(cs) && DistinctCreation(cs) ==> DistinctCreation(Concerning(cs, user))
    ensures DistinctConversations(cs) ==> DistinctConversations(Concerning(cs, user))
  {
    ConcerningAre(cs, user);
    var kept := Concerning(cs, user);
    forall i, j | 0 <= i < j < |kept|
      ensures OldestFirst(cs) ==> kept[i].createdAt <= kept[j].createdAt
      ensures DistinctCreation(cs) ==> kept[i].createdAt != kept[j].createdAt
      ensures DistinctConversations(cs) ==> kept[i].id != kept[j].id
    {
      var x, y := ConcerningPair(cs, user, i, j);
    }
  }

  lemma {:induction false} FindAppend(a: seq<Conversation>, x: Conversation, id: string)
    ensures Find(a + [x], id) == if Find(a, id).Some? then Find(a, id) else if x.id == id then Some(x) else None
  {
    if a == [] {
      assert a + [x] == [x];
    } else {
      assert (a + [x])[1..] == a[1..] + [x];
      FindAppend(a[1..], x, id);
    }
  }

  lemma FindUnique(cs: seq<Conversation>, c: Conversation)
    requires DistinctConversations(cs) && c in cs
    ensures Find(cs, c.id) == Some(c)
  {
    SameId(cs, c, Find(cs, c.id).value);
  }

  lemma DropBoth(a: seq<Conversation>, x: Conversation, b: seq<Conversation>, y: Conversation)
    requires DistinctConversations(a + [x]) && SameConversations(b + [y], a + [x]) && y.id == x.id
    ensures SameConversations(b, a)
  {
    assert (b + [y])[|b|] == y && (a + [x])[|a|] == x;
    forall c | c in b
      ensures Find(a, c.id).Some? && Same(c, Find(a, c.id).value)
    {
      var i :| 0 <= i < |b| && b[i] == c;
      assert (b + [y])[i] == c && c in b + [y];
      FindAppend(a, x, c.id);
    }
    forall d | d in a
      ensures Find(b, d.id).Some?
    {
      var i :| 0 <= i < |a| && a[i] == d;
      assert (a + [x])[i] == d && d in a + [x];
      FindAppend(b, y, d.id);
    }
    assert forall i :: 0 <= i < |b| ==> (b + [y])[i] == b[i];
  }

  lemma LastsAreSame(a: seq<Conversation>, b: seq<Conversation>)
    requires OldestFirst(a) && DistinctCreation(a) && DistinctConversations(a)
    requires OldestFirst(b) && SameConversations(b, a) && a != []
    ensures b != [] && Same(b[|b| - 1], a[|a| - 1])
  {
    var x := a[|a| - 1];
    assert x in a;
    var y0 := Find(b, x.id).value;
    FindUnique(a, x);
    var y := b[|b| - 1];
    assert y in b;
    LastOldest(a, b, Find(a, y.id).value, y0);
  }

  lemma FrontOrdered(a: seq<Conversation>)
    requires a != [] && OldestFirst(a)
    ensures OldestFirst(a[..|a| - 1])
    ensures DistinctCreation(a) ==> DistinctCreation(a[..|a| - 1])
    ensures DistinctConversations(a) ==> DistinctConversations(a[..|a| - 1])
  {
  }

  /** `b` answers the strictly ordered conversations `a`, in their order. */
  ghost predicate AnswersInOrder(a: seq<Conversation>, b: seq<Conversation>) {
    && OldestFirst(a) && DistinctCreation(a) && DistinctConversations(a)
    && OldestFirst(b) && SameConversations(b, a)
  }

  lemma LastSplit<T>(s: seq<T>)
    requires s != []
    ensures s == s[..|s| - 1] + [s[|s| - 1]]
  {
  }

  lemma PeelBoth(a: seq<Conversation>, x: Conversation, b: seq<Conversation>, y: Conversation)
    requires AnswersInOrder(a + [x], b + [y]) && y.id == x.id
    ensures AnswersInOrder(a, b)
  {
    assert (a + [x])[..|a|] == a && (b + [y])[..|b|] == b;
    FrontOrdered(a + [x]);
    FrontOrdered(b + [y]);
    DropBoth(a, x, b, y);
  }

  lemma PeelLast(a: seq<Conversation>, b: seq<Conversation>)
    requires AnswersInOrder(a, b) && a != []
    ensures b != [] && Same(b[|b| - 1], a[|a| - 1]) && AnswersInOrder(a[..|a| - 1], b[..|b| - 1])
  {
    LastsAreSame(a, b);
    LastSplit(a);
    LastSplit(b);
    PeelBoth(a[..|a| - 1], a[|a| - 1], b[..|b| - 1], b[|b| - 1]);
  }

  /** Two strictly ordered lists of the same conversations are the same list. */
  lemma {:induction false} OrderedUnique(a: seq<Conversation>, b: seq<Conversation>)
    requires AnswersInOrder(a, b)
    ensures |a| == |b| && forall i :: 0 <= i < |a| ==> Same(a[i], b[i])
    decreases |a|
  {
    if a == [] {
      NoneLeft(b);
    } else {
      PeelLast(a, b);
      var c, d := a[..|a| - 1], b[..|b| - 1];
      OrderedUnique(c, d);
      forall i | 0 <= i < |c|
        ensures Same(a[i], b[i])
      {
        assert Same(c[i], d[i]);
      }
    }
  }

  lemma NoneLeft(b: seq<Conversation>)
    requires SameConversations(b, [])
    ensures b == []
  {
    if b != [] {
      var none := Find([], b[0].id);
    }
  }

  lemma LastOldest(a: seq<Conversation>, b: seq<Conversation>, x0: Conversation, y0: Conversation)
    requires OldestFirst(a) && DistinctCreation(a) && OldestFirst(b) && a != [] && b != []
    requires x0 in a && y0 in b && Same(y0, a[|a| - 1]) && Same(b[|b| - 1], x0)
    ensures x0 == a[|a| - 1]
  {
    var i :| 0 <= i < |a| && a[i] == x0;
    var j :| 0 <= j < |b| && b[j] == y0;
  }

  /** Whatever the Postgres stores do with an operation, the in-memory ones do the same to the same content and
      answer the same; the foreign key and the primary key of the tables are not in the way. */
  lemma ExecSim(a: Store, b: Store, op: Op, op': Op, env: Env, b': Store, ans': Answer) returns (a': Store, ans: Answer)
    requires StoreSim(a, b) && Agreeable(b) && OpSim(op, op') && Exec(b, op', env, b', ans')
    requires !op.SelectDeleted? && !ans'.NotUpdated?
    requires op.CreateConversation? ==> NoDuplicates(op.pids)
    requires op.CreateMessage? ==> Find(b.convs, op.cid).Some?
    ensures Exec(a, op, env, a', ans) && StoreSim(a', b') && AnswerSim(ans, ans')
    ensures ans == GateSays(true) <==> ans' == GateSays(true)
    ensures ans.Stored? <==> ans'.Stored?
  {
    a', ans := Store(InMemory, b'.convs, b'.msgs), ans';
    match op
    case FindConversation(cid) =>
      ans := FoundConversation(Find(a.convs, cid));
    case FindByParticipant(user) =>
      var list := Concerning(a.convs, user);
      ConcerningFacts(a.convs, user);
      OrderedUnique(list, ans'.list);
      forall i | 0 <= i < |list|
        ensures ConvSim(list[i], ans'.list[i])
      {
        assert list[i] in list;
      }
      ans := FoundConversations(list);
    case ListMessages(cid, o) => ListsOne(Postgres, b.msgs, cid, o, ans'.page);
    case QueryPreviews(qs) =>
      var q := qs[ans'.i].value;
      ListsOne(Postgres, b.msgs, q.cid, PreviewOptions(q.after), ans'.page);
    case _ =>
  }

  // Calls in flight.

  /** Create with participants, none twice; list with a limit the database does not clamp. */
  ghost predicate GoodCall(call: Call) {
    match call
    case Create(_, pids) => pids != [] && NoDuplicates(pids)
    case List(_, _, o) => o.limit.Some? && 1 <= o.limit.value <= MAX_LIMIT
    case _ => true
  }

  ghost predicate GoodLabels(ls: seq<Label>) {
    forall i :: 0 <= i < |ls| && ls[i].Begin? ==> GoodCall(ls[i].call)
  }

  ghost predicate PushesSim(a: seq<Push>, b: seq<Push>) {
    |a| == |b| && forall i :: 0 <= i < |a| ==> a[i].tid == b[i].tid && NoticeSim(a[i].notice, b[i].notice)
  }
}
