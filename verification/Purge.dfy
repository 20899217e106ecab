/** Deleting a conversation is invisible to everyone else: take every deleteConversation of user u out of any
    run over either store, in any interleaving, and nobody but u can tell. What they could tell by is the replies after
    the projection of the HTTP layer, the messages handed to the bus, and the notifications.
    src/core/messaging-service.ts:209-212, src/http/conversations-router.ts:31-36 */
module Purge {
  import opened Domain
  import opened Query
  import opened Rows
  import opened Stores
  import opened Service
  import opened Machine
  import opened Concurrency
  import opened Safety

  // The projection every conversation goes through before it leaves the service.

  datatype PublicParticipant = PublicParticipant(userId: string, lastReadAt: Option<int>)

  datatype PublicConversation = PublicConversation(id: string, participants: seq<PublicParticipant>, createdAt: int)

  datatype PublicReply =
    | PublicRefusal(error: ServiceError)
    | PublicOne(conversation: PublicConversation)
    | PublicList(list: seq<(PublicConversation, Option<Message>)>)
    | PublicMessage(message: Message)
    | PublicMessages(messages: seq<Message>)
    | PublicNothing

  function ToConversationResponse(c: Conversation): PublicConversation {
    PublicConversation(
      c.id,
      seq(|c.participants|, i requires 0 <= i < |c.participants| =>
        PublicParticipant(c.participants[i].userId, c.participants[i].lastReadAt)),
      c.createdAt)
  }

  function ToResponse(r: Reply): PublicReply {
    match r
    case Refused(error) => PublicRefusal(error)
    case OneConversation(c) => PublicOne(ToConversationResponse(c))
    case Previews(ps) =>
      PublicList(seq(|ps|, i requires 0 <= i < |ps| => (ToConversationResponse(ps[i].conversation), ps[i].lastMessage)))
    case OneMessage(m) => PublicMessage(m)
    case Messages(ms) => PublicMessages(ms)
    case Nothing => PublicNothing
  }

  /** What a client sees of a conversation: all of it, each participant in place with user id and read mark. */
  lemma ProjectionShows(c: Conversation)
    ensures var r := ToConversationResponse(c);
      && r.id == c.id && r.createdAt == c.createdAt && |r.participants| == |c.participants|
      && forall i :: 0 <= i < |c.participants| ==>
           r.participants[i].userId == c.participants[i].userId
           && r.participants[i].lastReadAt == c.participants[i].lastReadAt
  {
  }

  /** The same but for instants of clearing, whose ever they are. */
  predicate UpToClears(c: Conversation, d: Conversation) {
    && c.id == d.id && c.createdAt == d.createdAt && |c.participants| == |d.participants|
    && forall i :: 0 <= i < |c.participants| ==>
         d.participants[i] == c.participants[i].(clearedAt := d.participants[i].clearedAt)
  }

  /** The projection hides the instants of clearing, and nothing else. */
  lemma ProjectionHidesClearsOnly(c: Conversation, d: Conversation)
    ensures ToConversationResponse(c) == ToConversationResponse(d) <==> UpToClears(c, d)
  {
    var a, b := ToConversationResponse(c).participants, ToConversationResponse(d).participants;
    if a == b {
      forall i | 0 <= i < |c.participants|
        ensures d.participants[i] == c.participants[i].(clearedAt := d.participants[i].clearedAt)
      {
        assert a[i] == b[i];
      }
    }
  }

  predicate RepliesUpToClears(a: Reply, b: Reply) {
    match a
    case OneConversation(c) => b.OneConversation? && UpToClears(c, b.conversation)
    case Previews(ps) =>
      && b.Previews? && |b.previews| == |ps|
      && forall i :: 0 <= i < |ps| ==>
           UpToClears(ps[i].conversation, b.previews[i].conversation) && ps[i].lastMessage == b.previews[i].lastMessage
    case _ => a == b
  }

  /** Neither do the responses of the HTTP layer: two replies look the same if and only if they are the same but for
      instants of clearing. */
  lemma ResponsesHideClearsOnly(a: Reply, b: Reply)
    ensures ToResponse(a) == ToResponse(b) <==> RepliesUpToClears(a, b)
  {
    if a.OneConversation? && b.OneConversation? {
      ProjectionHidesClearsOnly(a.conversation, b.conversation);
    } else if a.Previews? && b.Previews? {
      var r, t := ToResponse(a).list, ToResponse(b).list;
      forall i | 0 <= i < |r| == |t|
        ensures r[i] == t[i] <==> (
          && UpToClears(a.previews[i].conversation, b.previews[i].conversation)
          && a.previews[i].lastMessage == b.previews[i].lastMessage)
      {
        ProjectionHidesClearsOnly(a.previews[i].conversation, b.previews[i].conversation);
      }
      assert RepliesUpToClears(a, b) ==> r == t;
    }
  }

  // Equal but for when user u cleared what.

  ghost predicate PartLow(p: Participant, q: Participant, u: string) {
    p == q || (p.userId == u && q == p.(clearedAt := q.clearedAt))
  }

  ghost predicate PartsLow(ps: seq<Participant>, qs: seq<Participant>, u: string) {
    |ps| == |qs| && forall i :: 0 <= i < |ps| ==> PartLow(ps[i], qs[i], u)
  }

  ghost predicate ConvLow(c: Conversation, d: Conversation, u: string) {
    c.id == d.id && c.createdAt == d.createdAt && PartsLow(c.participants, d.participants, u)
  }

  ghost predicate ConvsLow(a: seq<Conversation>, b: seq<Conversation>, u: string) {
    |a| == |b| && forall i :: 0 <= i < |a| ==> ConvLow(a[i], b[i], u)
  }

  ghost predicate PreviewsLow(a: seq<Preview>, b: seq<Preview>, u: string) {
    |a| == |b| && forall i :: 0 <= i < |a| ==>
      ConvLow(a[i].conversation, b[i].conversation, u) && a[i].lastMessage == b[i].lastMessage
  }

  /** Previews that differ in u's marks, and in what u's clears hide if u asked for them. */
  ghost predicate EntryLow(e: Entry, f: Entry, u: string, loose: bool) {
    && ConvLow(e.conversation, f.conversation, u) && (e.last.Pending? <==> f.last.Pending?)
    && (loose || (e.clearedAt == f.clearedAt && e.last == f.last))
  }

  ghost predicate EntriesLow(es: seq<Entry>, fs: seq<Entry>, u: string, loose: bool) {
    |es| == |fs| && forall i :: 0 <= i < |es| ==> EntryLow(es[i], fs[i], u, loose)
  }

  /** The same queries but for where they start. */
  ghost predicate QueriesLow(a: seq<Option<PreviewQuery>>, b: seq<Option<PreviewQuery>>) {
    && |a| == |b|
    && forall i :: 0 <= i < |a| ==> (a[i].Some? <==> b[i].Some?) && (a[i].Some? ==> a[i].value.cid == b[i].value.cid)
  }

  /** In a loose thread, one in which u lists, what is listed may differ. */
  ghost predicate OpLow(a: Op, b: Op, loose: bool) {
    || a == b
    || (loose && a.ListMessages? && b.ListMessages? && a.cid == b.cid)
    || (loose && a.QueryPreviews? && b.QueryPreviews? && QueriesLow(a.queries, b.queries))
  }

  ghost predicate ContLow(a: Cont, b: Cont, u: string, loose: bool) {
    match a
    case PreviewsRead(user, entries) =>
      b.PreviewsRead? && b.user == user && EntriesLow(entries, b.entries, u, loose) && loose == (user == u)
    case LookupForList(_, user, _) => a == b && loose == (user == u)
    case AllForPreviews(user) => a == b && loose == (user == u)
    case _ => a == b
  }

  ghost predicate AnswerLow(a: Answer, b: Answer, u: string, loose: bool) {
    match a
    case FoundConversation(Some(c)) => b.FoundConversation? && b.found.Some? && ConvLow(c, b.found.value, u)
    case FoundConversations(list) => b.FoundConversations? && ConvsLow(list, b.list, u)
    case Created(c) => b.Created? && ConvLow(c, b.conversation, u)
    case FoundMessages(_) => b.FoundMessages? && (loose || a == b)
    case FoundPreview(i, _) => b.FoundPreview? && b.i == i && (loose || a == b)
    case _ => a == b
  }

  ghost predicate ReplyLow(a: Reply, b: Reply, u: string, loose: bool) {
    match a
    case OneConversation(c) => b.OneConversation? && ConvLow(c, b.conversation, u)
    case Previews(ps) => b.Previews? && (loose || PreviewsLow(ps, b.previews, u))
    case Messages(_) => b.Messages? && (loose || a == b)
    case _ => a == b
  }

  ghost predicate PhaseLow(a: Phase, b: Phase, u: string, loose: bool) {
    match a
    case Asking(op, k) => b.Asking? && OpLow(op, b.op, loose) && ContLow(k, b.k, u, loose)
    case Finished(reply) => b.Finished? && ReplyLow(reply, b.reply, u, loose)
  }

  predicate Loose(call: Call, u: string) {
    (call.List? || call.ListConversations?) && call.user == u
  }

  predicate IsClear(call: Call, u: string) {
    call.DeleteConversation? && call.user == u
  }

  ghost predicate ThreadLow(x: Thread, y: Thread, u: string) {
    && x.call == y.call
    && var loose := Loose(x.call, u);
       match x
       case Waiting(_, op, k) => y.Waiting? && OpLow(op, y.op, loose) && ContLow(k, y.k, u, loose)
       case Holding(_, ans, k) => y.Holding? && AnswerLow(ans, y.ans, u, loose) && ContLow(k, y.k, u, loose)
       case Ended(_, reply) => y.Ended? && ReplyLow(reply, y.reply, u, loose)
  }

  ghost predicate StoreLow(a: Store, b: Store, u: string) {
    a.kind == b.kind && ConvsLow(a.convs, b.convs, u) && a.msgs == b.msgs
  }

  /** `p` is `s` without u's deleteConversation calls and their marks. */
  ghost predicate SysLow(s: Sys, p: Sys, u: string) {
    && StoreLow(s.store, p.store, u)
    && s.clock == p.clock && s.published == p.published && s.notified == p.notified
    && (forall tid :: tid in p.threads <==> tid in s.threads && !IsClear(s.threads[tid].call, u))
    && (forall tid :: tid in p.threads ==> ThreadLow(s.threads[tid], p.threads[tid], u))
  }

  // Reads.

  lemma LowIds(ps: seq<Participant>, qs: seq<Participant>, u: string)
    requires PartsLow(ps, qs, u)
    ensures UserIds(ps) == UserIds(qs)
  {
  }

  lemma {:induction false} LowParticipant(ps: seq<Participant>, qs: seq<Participant>, u: string, v: string)
    requires PartsLow(ps, qs, u) && v != u
    ensures FindParticipant(ps, v) == FindParticipant(qs, v)
  {
    if ps != [] {
      assert PartLow(ps[0], qs[0], u);
      assert PartsLow(ps[1..], qs[1..], u);
      LowParticipant(ps[1..], qs[1..], u, v);
    }
  }

  lemma {:induction false} LowFind(a: seq<Conversation>, b: seq<Conversation>, cid: string, u: string)
    requires ConvsLow(a, b, u)
    ensures Find(a, cid).Some? <==> Find(b, cid).Some?
    ensures Find(a, cid).Some? ==> ConvLow(Find(a, cid).value, Find(b, cid).value, u)
  {
    if a != [] {
      assert ConvLow(a[0], b[0], u);
      assert ConvsLow(a[1..], b[1..], u);
      LowFind(a[1..], b[1..], cid, u);
    }
  }

  lemma {:induction false} LowConcerning(a: seq<Conversation>, b: seq<Conversation>, v: string, u: string)
    requires ConvsLow(a, b, u)
    ensures ConvsLow(Concerning(a, v), Concerning(b, v), u)
  {
    if a != [] {
      var n := |a| - 1;
      assert ConvLow(a[n], b[n], u);
      LowIds(a[n].participants, b[n].participants, u);
      LowConcerning(a[..n], b[..n], v, u);
    }
  }

  // Writes.

  lemma {:induction false} LowStamp(ps: seq<Participant>, qs: seq<Participant>, v: string, mark: Mark, u: string)
    requires PartsLow(ps, qs, u)
    ensures PartsLow(StampFirst(ps, v, mark), StampFirst(qs, v, mark), u)
  {
    if ps != [] {
      assert PartLow(ps[0], qs[0], u);
      assert PartsLow(ps[1..], qs[1..], u);
      LowStamp(ps[1..], qs[1..], v, mark, u);
    }
  }

  lemma LowMarked(a: seq<Conversation>, b: seq<Conversation>, cid: string, v: string, mark: Mark, u: string)
    requires ConvsLow(a, b, u)
    ensures ConvsLow(Marked(a, cid, v, mark), Marked(b, cid, v, mark), u)
  {
    forall i | 0 <= i < |a|
      ensures ConvLow(Marked(a, cid, v, mark)[i], Marked(b, cid, v, mark)[i], u)
    {
      assert ConvLow(a[i], b[i], u);
      LowStamp(a[i].participants, b[i].participants, v, mark, u);
    }
  }

  lemma ClearIsLow(a: seq<Conversation>, b: seq<Conversation>, cid: string, at: int, u: string)
    requires ConvsLow(a, b, u)
    ensures ConvsLow(Marked(a, cid, u, Cleared(at)), b, u)
  {
    forall i | 0 <= i < |a|
      ensures ConvLow(Marked(a, cid, u, Cleared(at))[i], b[i], u)
    {
      assert ConvLow(a[i], b[i], u);
      var ps, qs := a[i].participants, b[i].participants;
      assert forall j :: 0 <= j < |ps| ==> PartLow(ps[j], qs[j], u);
      assert PartsLow(StampFirst(ps, u, Cleared(at)), qs, u);
    }
  }

  // Answers. What the database answers in one order for the one run, it may answer in that order for the other.

  function Without<T>(s: seq<T>, i: nat): seq<T>
    requires i < |s|
  {
    s[..i] + s[i + 1..]
  }

  lemma WithoutCounts<T>(s: seq<T>, i: nat)
    requires i < |s|
    ensures multiset(Without(s, i)) == multiset(s) - multiset{s[i]}
    ensures multiset(s) == multiset(Without(s, i)) + multiset{s[i]}
  {
    assert s == s[..i] + [s[i]] + s[i + 1..];
  }

  lemma PartsWithout(ps: seq<Participant>, qs: seq<Participant>, i: nat, u: string)
    requires PartsLow(ps, qs, u) && i < |ps|
    ensures PartsLow(Without(ps, i), Without(qs, i), u) && PartLow(ps[i], qs[i], u)
  {
    forall j | 0 <= j < |ps| - 1
      ensures PartLow(Without(ps, i)[j], Without(qs, i)[j], u)
    {
      var k := if j < i then j else j + 1;
      assert Without(ps, i)[j] == ps[k] && Without(qs, i)[j] == qs[k];
    }
  }

  lemma PlaceOfLast(ps: seq<Participant>, order: seq<Participant>) returns (i: nat)
    requires multiset(order) == multiset(ps) && order != []
    ensures i < |ps| && ps[i] == order[|order| - 1]
    ensures multiset(order[..|order| - 1]) == multiset(Without(ps, i))
  {
    var n := |order| - 1;
    assert order[n] in multiset(ps);
    i :| 0 <= i < |ps| && ps[i] == order[n];
    assert Without(order, n) == order[..n];
    WithoutCounts(order, n);
    WithoutCounts(ps, i);
  }

  lemma PartsAppend(ps: seq<Participant>, qs: seq<Participant>, p: Participant, q: Participant, u: string)
    requires PartsLow(ps, qs, u) && PartLow(p, q, u)
    ensures PartsLow(ps + [p], qs + [q], u)
    ensures multiset(qs + [q]) == multiset(qs) + multiset{q}
  {
  }

  lemma {:induction false} PermuteLow(ps: seq<Participant>, qs: seq<Participant>, order: seq<Participant>, u: string)
    returns (order': seq<Participant>)
    requires PartsLow(ps, qs, u) && multiset(order) == multiset(ps)
    ensures multiset(order') == multiset(qs) && PartsLow(order, order', u)
    decreases |order|
  {
    if order == [] {
      assert |multiset(ps)| == 0;
      order' := [];
    } else {
      var front, last := order[..|order| - 1], order[|order| - 1];
      assert front + [last] == order;
      var i := PlaceOfLast(ps, order);
      PartsWithout(ps, qs, i, u);
      var ps', qs', q := Without(ps, i), Without(qs, i), qs[i];
      WithoutCounts(qs, i);
      var rest := PermuteLow(ps', qs', front, u);
      PartsAppend(front, rest, last, q, u);
      order' := rest + [q];
    }
  }

  lemma ReorderLow(c: Conversation, d: Conversation, answer: Conversation, u: string) returns (answer': Conversation)
    requires ConvLow(c, d, u) && Same(answer, c)
    ensures Same(answer', d) && ConvLow(answer, answer', u)
  {
    var ps := PermuteLow(c.participants, d.participants, answer.participants, u);
    answer' := d.(participants := ps);
  }

  lemma {:induction false} ReorderAllLow(cs: seq<Conversation>, ds: seq<Conversation>, list: seq<Conversation>,
        u: string)
    returns (list': seq<Conversation>)
    requires ConvsLow(cs, ds, u)
    requires forall c :: c in list ==> Find(cs, c.id).Some? && Same(c, Find(cs, c.id).value)
    ensures ConvsLow(list, list', u)
    ensures forall d :: d in list' ==> Find(ds, d.id).Some? && Same(d, Find(ds, d.id).value)
  {
    if list == [] {
      list' := [];
    } else {
      var front, last := list[..|list| - 1], list[|list| - 1];
      var front' := ReorderAllLow(cs, ds, front, u);
      LowFind(cs, ds, last.id, u);
      var last' := ReorderLow(Find(cs, last.id).value, Find(ds, last.id).value, last, u);
      list' := front' + [last'];
    }
  }

  lemma FoundLow(a: seq<Conversation>, b: seq<Conversation>, u: string, list: seq<Conversation>)
    returns (list': seq<Conversation>)
    requires ConvsLow(a, b, u) && SameConversations(list, a) && OldestFirst(list)
    ensures SameConversations(list', b) && OldestFirst(list') && ConvsLow(list, list', u)
  {
    list' := ReorderAllLow(a, b, list, u);
    assert forall i :: 0 <= i < |list| ==> ConvLow(list[i], list'[i], u);
    forall d | d in b
      ensures Find(list', d.id).Some?
    {
      var i :| 0 <= i < |b| && b[i] == d;
      assert ConvLow(a[i], b[i], u) && a[i] in a;
      LowFind(list, list', d.id, u);
    }
  }

  lemma ReadLow(a: Store, b: Store, op: Op, op': Op, env: Env, ans: Answer, u: string, loose: bool)
    returns (ans': Answer)
    requires StoreLow(a, b, u) && OpLow(op, op', loose) && Exec(a, op, env, a, ans)
    requires op.FindConversation? || op.FindByParticipant? || op.ListMessages? || op.QueryPreviews?
    ensures Exec(b, op', env, b, ans') && AnswerLow(ans, ans', u, loose)
  {
    match op
    case FindConversation(cid) =>
      LowFind(a.convs, b.convs, cid, u);
      if a.kind.InMemory? {
        ans' := FoundConversation(Find(b.convs, cid));
      } else if ans.found.Some? {
        var answer' := ReorderLow(Find(a.convs, cid).value, Find(b.convs, cid).value, ans.found.value, u);
        ans' := FoundConversation(Some(answer'));
      } else {
        ans' := ans;
      }
    case FindByParticipant(user) =>
      LowConcerning(a.convs, b.convs, user, u);
      if a.kind.InMemory? {
        ans' := FoundConversations(Concerning(b.convs, user));
      } else {
        var list' := FoundLow(Concerning(a.convs, user), Concerning(b.convs, user), u, ans.list);
        ans' := FoundConversations(list');
      }
    case ListMessages(cid, _) =>
      if a.kind.InMemory? {
        ans' := FoundMessages(ListInMemory(b.msgs, cid, op'.o));
      } else if loose {
        var page := SomePage(b.msgs, cid, op'.o);
        ans' := FoundMessages(page);
      } else {
        ans' := ans;
      }
    case QueryPreviews(qs) => ans' := PreviewLow(a, b, qs, op'.queries, env, ans, loose);
  }

  lemma PreviewLow(a: Store, b: Store, qs: seq<Option<PreviewQuery>>, qs': seq<Option<PreviewQuery>>, env: Env,
        ans: Answer, loose: bool)
    returns (ans': Answer)
    requires a.kind == b.kind && a.msgs == b.msgs && OpLow(QueryPreviews(qs), QueryPreviews(qs'), loose)
    requires Exec(a, QueryPreviews(qs), env, a, ans)
    ensures Exec(b, QueryPreviews(qs'), env, b, ans') && ans'.FoundPreview? && ans'.i == ans.i && (loose || ans' == ans)
  {
    var q := qs'[ans.i].value;
    if qs == qs' {
      ans' := ans;
    } else if a.kind.InMemory? {
      ans' := FoundPreview(ans.i, ListInMemory(b.msgs, q.cid, PreviewOptions(q.after)));
    } else {
      var page := SomePage(b.msgs, q.cid, PreviewOptions(q.after));
      ans' := FoundPreview(ans.i, page);
    }
  }

  lemma CreateLow(a: Store, b: Store, pids: seq<string>, env: Env, a': Store, ans: Answer, u: string)
    returns (b': Store)
    requires StoreLow(a, b, u) && Exec(a, CreateConversation(pids), env, a', ans)
    ensures Exec(b, CreateConversation(pids), env, b', ans) && StoreLow(a', b', u)
  {
    LowFind(a.convs, b.convs, env.id, u);
    b' := if ans.Created? then b.(convs := b.convs + [ans.conversation]) else b;
  }

  /** The other run can execute the same operation, with the same visible outcome. */
  lemma ExecLow(a: Store, b: Store, op: Op, op': Op, env: Env, a': Store, ans: Answer, u: string, loose: bool)
    returns (b': Store, ans': Answer)
    requires StoreLow(a, b, u) && OpLow(op, op', loose) && Exec(a, op, env, a', ans)
    ensures Exec(b, op', env, b', ans') && StoreLow(a', b', u) && AnswerLow(ans, ans', u, loose)
    ensures op.CreateMessage? <==> op'.CreateMessage?
    ensures ans.Stored? <==> ans'.Stored?
    ensures ans == GateSays(true) <==> ans' == GateSays(true)
  {
    b', ans' := b.(msgs := a'.msgs), ans;
    match op
    case CreateConversation(pids) => b' := CreateLow(a, b, pids, env, a', ans, u);
    case MarkParticipant(cid, user, mark) =>
      LowMarked(a.convs, b.convs, cid, user, mark, u);
      b' := b.(convs := Marked(b.convs, cid, user, mark));
    case CreateMessage(cid, _, _) => LowFind(a.convs, b.convs, cid, u);
    case FindMessage(_) =>
    case SoftDelete(_, _) =>
    case SelectDeleted(_) =>
    case AskGate(_, _) =>
    case _ =>
      assert a' == a;
      ans' := ReadLow(a, b, op, op', env, ans, u, loose);
  }

  // Continuations.

  lemma RefreshLow(a: Store, b: Store, ans: Answer, ans': Answer, u: string, loose: bool)
    requires StoreLow(a, b, u) && AnswerLow(ans, ans', u, loose)
    ensures AnswerLow(Refresh(a, ans), Refresh(b, ans'), u, loose)
    ensures Refresh(a, ans).Stored? <==> Refresh(b, ans').Stored?
  {
    if a.kind.Postgres? {
      return;
    }
    match ans
    case FoundConversation(Some(c)) => LowFind(a.convs, b.convs, c.id, u);
    case Created(c) => LowFind(a.convs, b.convs, c.id, u);
    case FoundConversations(list) =>
      forall i | 0 <= i < |list|
        ensures ConvLow(CurrentConversation(a, list[i]), CurrentConversation(b, ans'.list[i]), u)
      {
        assert ConvLow(list[i], ans'.list[i], u);
        LowFind(a.convs, b.convs, list[i].id, u);
      }
    case FoundMessages(page) =>
      if !loose {
        SamePage(a, b, page);
      }
    case FoundPreview(_, page) =>
      if !loose {
        SamePage(a, b, page);
      }
    case _ =>
  }

  lemma SamePage(a: Store, b: Store, page: seq<Message>)
    requires a.msgs == b.msgs
    ensures CurrentPage(a, page) == CurrentPage(b, page)
  {
    assert forall i :: 0 <= i < |page| ==> CurrentMessage(a, page[i]) == CurrentMessage(b, page[i]);
  }

  lemma RefreshKeptLow(a: Store, b: Store, k: Cont, k': Cont, u: string, loose: bool)
    requires StoreLow(a, b, u) && ContLow(k, k', u, loose)
    ensures ContLow(RefreshKept(a, k), RefreshKept(b, k'), u, loose)
  {
    if a.kind.InMemory? && k.PreviewsRead? {
      forall i | 0 <= i < |k.entries|
        ensures EntryLow(CurrentEntry(a, k.entries[i]), CurrentEntry(b, k'.entries[i]), u, loose)
      {
        assert EntryLow(k.entries[i], k'.entries[i], u, loose);
        LowFind(a.convs, b.convs, k.entries[i].conversation.id, u);
      }
    }
  }

  lemma QueriesAreLow(es: seq<Entry>, fs: seq<Entry>, u: string, loose: bool)
    requires EntriesLow(es, fs, u, loose)
    ensures OpLow(QueryPreviews(Queries(es)), QueryPreviews(Queries(fs)), loose)
    ensures AllKnown(es) <==> AllKnown(fs)
  {
    assert forall i :: 0 <= i < |es| ==> EntryLow(es[i], fs[i], u, loose);
    if !loose {
      assert Queries(es) == Queries(fs);
    }
  }

  lemma {:induction false} ShownLow(es: seq<Entry>, fs: seq<Entry>, u: string)
    requires EntriesLow(es, fs, u, false)
    ensures PreviewsLow(ShownPreviews(es), ShownPreviews(fs), u)
  {
    if es != [] {
      var n := |es| - 1;
      assert EntryLow(es[n], fs[n], u, false);
      ShownLow(es[..n], fs[..n], u);
    }
  }

  lemma AfterPreviewsLow(user: string, es: seq<Entry>, fs: seq<Entry>, u: string)
    requires EntriesLow(es, fs, u, user == u)
    ensures PhaseLow(AfterPreviews(user, es), AfterPreviews(user, fs), u, user == u)
  {
    QueriesAreLow(es, fs, u, user == u);
    if user != u {
      ShownLow(es, fs, u);
    }
  }

  lemma EntriesAreLow(user: string, a: seq<Conversation>, b: seq<Conversation>, u: string)
    requires ConvsLow(a, b, u)
    ensures EntriesLow(Entries(user, a), Entries(user, b), u, user == u)
  {
    forall i | 0 <= i < |a|
      ensures EntryLow(Entries(user, a)[i], Entries(user, b)[i], u, user == u)
    {
      assert ConvLow(a[i], b[i], u);
      if user != u {
        LowParticipant(a[i].participants, b[i].participants, u, user);
      }
    }
  }

  lemma WithAnswerLow(es: seq<Entry>, fs: seq<Entry>, i: nat, page: seq<Message>, page': seq<Message>, u: string,
        loose: bool)
    requires EntriesLow(es, fs, u, loose) && i < |es| && (loose || page == page')
    ensures EntriesLow(WithAnswer(es, i, page), WithAnswer(fs, i, page'), u, loose)
  {
    assert EntryLow(es[i], fs[i], u, loose);
  }

  lemma LookupLow(k: Cont, k': Cont, c: Conversation, d: Conversation, now: int, u: string, loose: bool)
    requires ContLow(k, k', u, loose) && ConvLow(c, d, u)
    ensures PhaseLow(AfterLookup(k, Some(c), now).phase, AfterLookup(k', Some(d), now).phase, u, loose)
    ensures AfterLookup(k, Some(c), now).published == [] == AfterLookup(k', Some(d), now).published
    ensures AfterLookup(k, Some(c), now).notified == [] == AfterLookup(k', Some(d), now).notified
  {
    LowIds(c.participants, d.participants, u);
    if k.LookupForList? && k.user != u {
      LowParticipant(c.participants, d.participants, u, k.user);
    }
  }

  /** Continuing from answers that differ only in u's marks leads to phases and effects that do. */
  lemma ResumeLow(k: Cont, k': Cont, ans: Answer, ans': Answer, now: int, u: string, loose: bool)
    requires ContLow(k, k', u, loose) && AnswerLow(ans, ans', u, loose)
    ensures var v, v' := Resume(k, ans, now), Resume(k', ans', now);
      PhaseLow(v.phase, v'.phase, u, loose) && v.published == v'.published && v.notified == v'.notified
  {
    if ans.FoundConversation? && ans.found.Some? {
      LookupLow(k, k', ans.found.value, ans'.found.value, now, u, loose);
    } else if ans.FoundConversations? && k.AllForPreviews? {
      EntriesAreLow(k.user, ans.list, ans'.list, u);
      AfterPreviewsLow(k.user, Entries(k.user, ans.list), Entries(k.user, ans'.list), u);
    } else if ans.FoundPreview? && k.PreviewsRead? && ans.i < |k.entries| {
      WithAnswerLow(k.entries, k'.entries, ans.i, ans.page, ans'.page, u, loose);
      AfterPreviewsLow(k.user, WithAnswer(k.entries, ans.i, ans.page), WithAnswer(k'.entries, ans.i, ans'.page), u);
    } else {
      RestLow(k, k', ans, ans', now, u, loose);
    }
  }

  /** What does not come from a conversation goes on the same, or not at all. */
  lemma RestLow(k: Cont, k': Cont, ans: Answer, ans': Answer, now: int, u: string, loose: bool)
    requires ContLow(k, k', u, loose) && AnswerLow(ans, ans', u, loose)
    requires !(ans.FoundConversation? && ans.found.Some?) && !(ans.FoundConversations? && k.AllForPreviews?)
    requires !(ans.FoundPreview? && k.PreviewsRead? && ans.i < |k.entries|)
    ensures var v, v' := Resume(k, ans, now), Resume(k', ans', now);
      PhaseLow(v.phase, v'.phase, u, loose) && v.published == v'.published && v.notified == v'.notified
  {
    if ans.FoundMessage? || ans.GateSays? {
      assert ans == ans';
      assert k.PreviewsRead? || k == k';
    }
  }

  // Runs.

  function Owner(l: Label): Option<nat> {
    if l.Tick? then None else Some(l.tid)
  }

  /** The threads in which u deletes a conversation. */
  function ClearTids(ls: seq<Label>, u: string): set<nat> {
    if ls == [] then {}
    else
      var front, last := ClearTids(ls[..|ls| - 1], u), ls[|ls| - 1];
      if last.Begin? && IsClear(last.call, u) then front + {last.tid} else front
  }

  /** The run without those calls. */
  function Purged(ls: seq<Label>, u: string): seq<Label> {
    if ls == [] then []
    else
      var front, last := Purged(ls[..|ls| - 1], u), ls[|ls| - 1];
      if Owner(last).Some? && Owner(last).value in ClearTids(ls, u) then front else front + [last]
  }

  /** The label is a step of one of those calls. */
  predicate OfClear(s: Sys, l: Label, u: string) {
    match l
    case Begin(_, call) => IsClear(call, u)
    case Execute(tid, _, _) => tid in s.threads && IsClear(s.threads[tid].call, u)
    case Continue(tid) => tid in s.threads && IsClear(s.threads[tid].call, u)
    case Tick(_) => false
  }

  lemma ClearStep(s: Sys, l: Label, s': Sys, p: Sys, u: string)
    requires Inv(s) && SysLow(s, p, u) && Next(s, l, s')
    requires OfClear(s, l, u)
    ensures SysLow(s', p, u)
  {
    if l.Execute? {
      ClearExecutes(s, l.tid, l.id, l.gate, s', p, u);
    } else if l.Continue? {
      ClearIsQuiet(s, l.tid);
    }
  }

  lemma ClearExecutes(s: Sys, tid: nat, id: string, gate: bool, s': Sys, p: Sys, u: string)
    requires Inv(s) && StoreLow(s.store, p.store, u) && Next(s, Execute(tid, id, gate), s')
    requires IsClear(s.threads[tid].call, u)
    ensures StoreLow(s'.store, p.store, u)
  {
    var th := s.threads[tid];
    assert ThreadOk(s.store, s.grants, tid, th);
    var ans :| Exec(s.store, th.op, Env(id, s.clock, gate), s'.store, ans) && s' == Executed(s, tid, s'.store, ans);
    if th.op.MarkParticipant? {
      ClearIsLow(s.store.convs, p.store.convs, th.op.cid, th.op.mark.at, u);
    }
  }

  lemma ClearIsQuiet(s: Sys, tid: nat)
    requires Inv(s) && tid in s.threads && s.threads[tid].Holding? && s.threads[tid].call.DeleteConversation?
    ensures Continued(s, tid) == s.(threads := Continued(s, tid).threads)
  {
    var th := s.threads[tid];
    assert ThreadOk(s.store, s.grants, tid, th);
    BothOk(s.store, s.grants, tid, th.call, th.ans, th.k);
    ResumeEffects(s.store, s.grants, tid, th.call, Refresh(s.store, th.ans), RefreshKept(s.store, th.k), s.clock);
    assert s.published + Posts(tid, []) == s.published && s.notified + Pushes(tid, []) == s.notified;
  }

  lemma ExecuteLow(s: Sys, tid: nat, id: string, gate: bool, s': Sys, p: Sys, u: string) returns (p': Sys)
    requires SysLow(s, p, u) && Next(s, Execute(tid, id, gate), s') && !IsClear(s.threads[tid].call, u)
    ensures Next(p, Execute(tid, id, gate), p') && SysLow(s', p', u)
  {
    var x, y := s.threads[tid], p.threads[tid];
    assert ThreadLow(x, y, u);
    var env := Env(id, s.clock, gate);
    var ans :| Exec(s.store, x.op, env, s'.store, ans) && s' == Executed(s, tid, s'.store, ans);
    var store, ans' := ExecLow(s.store, p.store, x.op, y.op, env, s'.store, ans, u, Loose(x.call, u));
    p' := Executed(p, tid, store, ans');
  }

  lemma ContinueLow(s: Sys, tid: nat, s': Sys, p: Sys, u: string) returns (p': Sys)
    requires SysLow(s, p, u) && Next(s, Continue(tid), s') && !IsClear(s.threads[tid].call, u)
    ensures Next(p, Continue(tid), p') && SysLow(s', p', u)
  {
    var x, y := s.threads[tid], p.threads[tid];
    assert ThreadLow(x, y, u);
    RefreshLow(s.store, p.store, x.ans, y.ans, u, Loose(x.call, u));
    RefreshKeptLow(s.store, p.store, x.k, y.k, u, Loose(x.call, u));
    ResumeLow(RefreshKept(s.store, x.k), RefreshKept(p.store, y.k), Refresh(s.store, x.ans),
      Refresh(p.store, y.ans), s.clock, u, Loose(x.call, u));
    p' := Continued(p, tid);
  }

  lemma StepLow(s: Sys, l: Label, s': Sys, p: Sys, u: string) returns (p': Sys)
    requires SysLow(s, p, u) && Next(s, l, s')
    requires !OfClear(s, l, u)
    ensures Next(p, l, p') && SysLow(s', p', u)
  {
    match l
    case Begin(tid, call) => p' := p.(threads := p.threads[tid := AsThread(call, Start(call))]);
    case Execute(tid, id, gate) => p' := ExecuteLow(s, tid, id, gate, s', p, u);
    case Continue(tid) => p' := ContinueLow(s, tid, s', p, u);
    case Tick(to) => p' := p.(clock := to);
  }

  /** The labels say which threads of s are deletions by u. */
  ghost predicate Tracked(s: Sys, ls: seq<Label>, u: string) {
    forall tid :: tid in ClearTids(ls, u) <==> tid in s.threads && IsClear(s.threads[tid].call, u)
  }

  lemma ClearTidsStep(s: Sys, l: Label, s': Sys, ls: seq<Label>, u: string)
    requires Next(s, l, s')
    requires Tracked(s, ls, u)
    ensures Tracked(s', ls + [l], u)
    ensures OfClear(s, l, u) <==> Owner(l).Some? && Owner(l).value in ClearTids(ls + [l], u)
  {
    assert (ls + [l])[..|ls|] == ls;
  }

  lemma PurgeStep(ss: seq<Sys>, ls: seq<Label>, u: string, n: nat)
    requires Run(ss, ls) && n < |ls|
    requires Tracked(ss[n], ls[..n], u)
    ensures ls[..n + 1] == ls[..n] + [ls[n]] && ls[..n + 1][..n] == ls[..n] && Next(ss[n], ls[n], ss[n + 1])
    ensures Inv(ss[n])
    ensures Tracked(ss[n + 1], ls[..n + 1], u)
    ensures OfClear(ss[n], ls[n], u) <==> Owner(ls[n]).Some? && Owner(ls[n]).value in ClearTids(ls[..n + 1], u)
  {
    RunInv(ss, ls, n);
    assert Moves(ss, ls, n);
    assert ls[..n + 1] == ls[..n] + [ls[n]];
    ClearTidsStep(ss[n], ls[n], ss[n + 1], ls[..n], u);
  }

  /** State i of a run, and the state of the purged run it corresponds to. */
  ghost predicate Corresponds(ss: seq<Sys>, ps: seq<Sys>, at: seq<nat>, u: string, i: nat) {
    i < |ss| && i < |at| && at[i] < |ps| && SysLow(ss[i], ps[at[i]], u) && (i > 0 ==> at[i - 1] <= at[i])
  }

  lemma PurgedLabels(ls: seq<Label>, u: string, n: nat)
    requires n < |ls|
    ensures var clear := Owner(ls[n]).Some? && Owner(ls[n]).value in ClearTids(ls[..n + 1], u);
      Purged(ls[..n + 1], u) == if clear then Purged(ls[..n], u) else Purged(ls[..n], u) + [ls[n]]
  {
    assert ls[..n + 1][..n] == ls[..n] && ls[..n + 1][n] == ls[n];
  }

  lemma {:induction false} PurgedRun(ss: seq<Sys>, ls: seq<Label>, u: string, n: nat)
    returns (ps: seq<Sys>, at: seq<nat>)
    requires Run(ss, ls) && n < |ss|
    ensures Run(ps, Purged(ls[..n], u)) && ps[0] == ss[0]
    ensures |at| == n + 1 && at[n] == |ps| - 1 && forall i :: 0 <= i <= n ==> Corresponds(ss, ps, at, u, i)
    ensures Tracked(ss[n], ls[..n], u)
  {
    if n == 0 {
      ps, at := [ss[0]], [0];
    } else {
      var before, at0 := PurgedRun(ss, ls, u, n - 1);
      PurgeStep(ss, ls, u, n - 1);
      assert Corresponds(ss, before, at0, u, n - 1);
      ps := PurgedNext(ss, ls, u, n - 1, before);
      at := at0 + [|ps| - 1];
      forall i | 0 <= i <= n
        ensures Corresponds(ss, ps, at, u, i)
      {
        if i < n {
          assert Corresponds(ss, before, at0, u, i) && ps[at[i]] == before[at0[i]];
        }
      }
    }
  }

  /** One more step: the purged run takes it too, unless it is one of a deletion by u. */
  lemma PurgedNext(ss: seq<Sys>, ls: seq<Label>, u: string, n: nat, ps: seq<Sys>) returns (ps': seq<Sys>)
    requires Run(ss, ls) && n < |ls| && Run(ps, Purged(ls[..n], u)) && SysLow(ss[n], ps[|ps| - 1], u)
    requires Tracked(ss[n], ls[..n], u)
    ensures Run(ps', Purged(ls[..n + 1], u)) && ps <= ps' && SysLow(ss[n + 1], ps'[|ps'| - 1], u)
  {
    PurgeStep(ss, ls, u, n);
    PurgedLabels(ls, u, n);
    var p, l := ps[|ps| - 1], ls[n];
    if OfClear(ss[n], l, u) {
      ClearStep(ss[n], l, ss[n + 1], p, u);
      ps' := ps;
    } else {
      var p' := StepLow(ss[n], l, ss[n + 1], p, u);
      RunAppend(ps, Purged(ls[..n], u), l, p');
      ps' := ps + [p'];
    }
  }

  /** The replies another user's call gets are the same once projected. */
  lemma ProjectedEqual(a: Reply, b: Reply, u: string)
    requires ReplyLow(a, b, u, false)
    ensures ToResponse(a) == ToResponse(b)
  {
    match a
    case OneConversation(c) => ConversationProjected(c, b.conversation, u);
    case Previews(ps) =>
      forall i | 0 <= i < |ps|
        ensures ToConversationResponse(ps[i].conversation) == ToConversationResponse(b.previews[i].conversation)
      {
        ConversationProjected(ps[i].conversation, b.previews[i].conversation, u);
      }
      assert ToResponse(a).list == ToResponse(b).list;
    case _ =>
  }

  lemma ConversationProjected(c: Conversation, d: Conversation, u: string)
    requires ConvLow(c, d, u)
    ensures ToConversationResponse(c) == ToConversationResponse(d)
  {
    assert forall i :: 0 <= i < |c.participants| ==> PartLow(c.participants[i], d.participants[i], u);
    assert ToConversationResponse(c).participants == ToConversationResponse(d).participants;
  }

  function Caller(call: Call): string {
    if call.Create? then call.requester else call.user
  }

  /** What user v's calls have been answered so far is the same in both systems. */
  ghost predicate SameForUser(s: Sys, p: Sys, v: string) {
    forall tid :: tid in s.threads && Caller(s.threads[tid].call) == v ==>
      && tid in p.threads && p.threads[tid].call == s.threads[tid].call
      && (s.threads[tid].Ended? <==> p.threads[tid].Ended?)
      && (s.threads[tid].Ended? ==> ToResponse(s.threads[tid].reply) == ToResponse(p.threads[tid].reply))
  }

  /** Noninterference by purging: whatever u clears, in whatever interleaving, no other user's responses change,
      nor does anything handed to the bus or to the notifier, nor who is a participant of what. */
  lemma DeletingConversationsIsInvisible(ss: seq<Sys>, ls: seq<Label>, u: string, v: string) returns (ps: seq<Sys>)
    requires Run(ss, ls) && u != v
    ensures Run(ps, Purged(ls, u)) && ps[0] == ss[0]
    ensures var s, p := ss[|ss| - 1], ps[|ps| - 1];
      && SameForUser(s, p, v)
      && p.published == s.published && p.notified == s.notified && p.store.msgs == s.store.msgs
      && |p.store.convs| == |s.store.convs|
      && forall i :: 0 <= i < |s.store.convs| ==> SameMembers(s.store.convs[i], p.store.convs[i])
  {
    assert ls[..|ls|] == ls;
    var at;
    ps, at := PurgedRun(ss, ls, u, |ls|);
    assert Corresponds(ss, ps, at, u, |ls|);
    var s, p := ss[|ss| - 1], ps[|ps| - 1];
    forall tid | tid in s.threads && Caller(s.threads[tid].call) == v && s.threads[tid].Ended?
      ensures tid in p.threads && ToResponse(s.threads[tid].reply) == ToResponse(p.threads[tid].reply)
    {
      assert ThreadLow(s.threads[tid], p.threads[tid], u);
      ProjectedEqual(s.threads[tid].reply, p.threads[tid].reply, u);
    }
    forall i | 0 <= i < |s.store.convs|
      ensures SameMembers(s.store.convs[i], p.store.convs[i])
    {
      assert ConvLow(s.store.convs[i], p.store.convs[i], u);
      LowIds(s.store.convs[i].participants, p.store.convs[i].participants, u);
    }
  }
}
