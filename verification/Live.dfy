/** Live delivery of what the service publishes: the cluster of FanOut, whose publications are posts of a run of the
    service and whose lookups are answered by its conversation store at that moment.
    src/websocket/websocket-server.ts:25-41, 134-136, src/core/messaging-service.ts:129, 194 */
module Live {
  import opened Domain
  import opened Rows
  import opened Stores
  import opened Machine
  import opened Concurrency
  import opened Safety
  import opened Delivery
  import opened FanOut

  function MembersOf(s: Store, cid: string): seq<string> {
    Recipients(Find(s.convs, cid))
  }

  /** The conversation of a logged message is stored, with its sender among its members. */
  lemma ConversationOf(s: Sys, m: Message) returns (c: Conversation)
    requires Inv(s) && Logged(s.store.msgs, m)
    ensures c in s.store.convs && c.id == m.conversationId && c.participants != []
  {
    var k :| 0 <= k < |s.store.msgs| && Key(s.store.msgs[k]) == Key(m);
    assert AuthoredBy(s, s.store.msgs[k], s.authors[k]);
    var user := m.senderId;
    var i :| 0 <= i < |s.store.convs| && s.store.convs[i].id == m.conversationId
      && user in UserIds(s.store.convs[i].participants);
    c := s.store.convs[i];
  }

  /** Members are the same at any later time. */
  lemma MembersStay(a: Store, b: Store, c: Conversation)
    requires Keeps(a.convs, b.convs) && DistinctConversations(a.convs) && DistinctConversations(b.convs) && c in a.convs
    ensures Find(a.convs, c.id) == Some(c)
    ensures Find(b.convs, c.id).Some? && UserIds(Find(b.convs, c.id).value.participants) == UserIds(c.participants)
  {
    var i :| 0 <= i < |a.convs| && a.convs[i] == c;
    assert SameMembers(a.convs[i], b.convs[i]);
    SameId(a.convs, c, Find(a.convs, c.id).value);
    SameId(b.convs, b.convs[i], Find(b.convs, c.id).value);
  }

  /** Whenever after a publication its conversation is looked up, in either store and whatever has run meanwhile, the
      lookup finds it, with the members it had when the message was published and has for good. */
  lemma LookupFindsMembers(ss: seq<Sys>, ls: seq<Label>, i: nat, j: nat, l: nat, post: Post, env: Env, s': Store,
        ans: Answer)
    requires Run(ss, ls) && i <= j <= l < |ss| && post in ss[i].published
    requires Exec(ss[j].store, FindConversation(post.message.conversationId), env, s', ans)
    ensures ans.FoundConversation? && ans.found.Some?
    ensures MembersOf(ss[i].store, post.message.conversationId) == MembersOf(ss[l].store, post.message.conversationId)
    ensures multiset(Recipients(ans.found)) == multiset(MembersOf(ss[i].store, post.message.conversationId))
  {
    RunInv(ss, ls, i);
    RunInv(ss, ls, j);
    RunInv(ss, ls, l);
    RunAppends(ss, ls, i, j);
    RunAppends(ss, ls, i, l);
    assert PostOk(ss[i], post);
    var c := ConversationOf(ss[i], post.message);
    MembersStay(ss[i].store, ss[j].store, c);
    MembersStay(ss[i].store, ss[l].store, c);
    var d := Find(ss[j].store.convs, c.id).value;
    assert |UserIds(d.participants)| == |UserIds(c.participants)|;
    UserIdsPermute(ans.found.value.participants, d.participants);
  }

  // The cluster beside the service.

  /** Happening k takes place in state `at[k]` of the service: a publication is one of its posts by then, and a
      lookup answers what its store answers then. */
  ghost predicate TakesPlace(ss: seq<Sys>, n: nat, log: seq<Happening>, at: seq<nat>, k: nat)
    requires k < |log| == |at|
  {
    && at[k] < |ss|
    && match log[k]
       case Publish(m) => exists tid :: Post(tid, m) in ss[at[k]].published
       case Handle(_, p, found) =>
         && Happens(n, log[..k]) && p < |Reached(n, log[..k]).published|
         && exists env, s' ::
              Exec(ss[at[k]].store, FindConversation(Reached(n, log[..k]).published[p].conversationId), env, s',
                FoundConversation(found))
       case _ => true
  }

  ghost predicate Serves(ss: seq<Sys>, n: nat, log: seq<Happening>, at: seq<nat>) {
    && Happens(n, log) && |at| == |log|
    && (forall k :: 0 <= k < |log| ==> TakesPlace(ss, n, log, at, k))
    && (forall j, k :: 0 <= j <= k < |at| ==> at[j] <= at[k])
  }

  /** Each publication was made, as a post of the service, before it is handled. */
  lemma {:induction false} WhenPublished(n: nat, log: seq<Happening>, k: nat, p: nat) returns (m: nat)
    requires Happens(n, log) && k <= |log| && Happens(n, log[..k]) && p < |Reached(n, log[..k]).published|
    ensures m < k && log[m].Publish? && log[m].m == Reached(n, log[..k]).published[p]
    ensures Happens(n, log[..m]) && |Reached(n, log[..m]).published| == p
    decreases k
  {
    var c, before := log[..k], log[..k][..k - 1];
    assert before == log[..k - 1];
    if p < |Reached(n, before).published| {
      m := WhenPublished(n, log, k - 1, p);
    } else {
      m := k - 1;
    }
  }

  /** A handling pushes to the members of the message's conversation. */
  lemma HandlingFindsMembers(ss: seq<Sys>, ls: seq<Label>, n: nat, log: seq<Happening>, at: seq<nat>, k: nat)
    requires Run(ss, ls) && Serves(ss, n, log, at) && k < |log| && log[k].Handle?
    ensures log[k].p < |Reached(n, log).published|
    ensures var cid := Reached(n, log).published[log[k].p].conversationId;
      multiset(Recipients(log[k].found)) == multiset(MembersOf(ss[|ss| - 1].store, cid))
  {
    var p := log[k].p;
    assert TakesPlace(ss, n, log, at, k);
    PublishedStays(n, log, k);
    var m := WhenPublished(n, log, k, p);
    assert TakesPlace(ss, n, log, at, m) && at[m] <= at[k];
    var tid :| Post(tid, log[m].m) in ss[at[m]].published;
    var env, s' :|
      Exec(ss[at[k]].store, FindConversation(log[m].m.conversationId), env, s', FoundConversation(log[k].found));
    LookupFindsMembers(ss, ls, at[m], at[k], |ss| - 1, Post(tid, log[m].m), env, s', FoundConversation(log[k].found));
  }

  /** The tables hold nobody twice in a conversation; in memory that is up to who created it. */
  ghost predicate EachOnce(s: Sys, cid: string) {
    s.store.kind.Postgres? || NoDuplicates(MembersOf(s.store, cid))
  }

  lemma EachOnceMeans(s: Sys, cid: string)
    requires Inv(s) && EachOnce(s, cid)
    ensures NoDuplicates(MembersOf(s.store, cid))
  {
    var c := Find(s.store.convs, cid);
    if s.store.kind.Postgres? && c.Some? {
      var i :| 0 <= i < |s.store.convs| && s.store.convs[i] == c.value;
    }
  }

  lemma OncePerMember(st: Instance<nat>, found: seq<string>, members: seq<string>, s: Socket)
    requires multiset(found) == multiset(members) && NoDuplicates(members)
    ensures Listed(st, found, s) == if s in st.open && s in st.handlers && st.handlers[s] in members then 1 else 0
  {
    if s in st.handlers {
      AtMostOne(members, st.handlers[s]);
    }
  }

  /** Fan-out. Once no lookup for a published message is outstanding at a subscribed instance, there is one moment k
      at which it handled the message, and each of its sockets has exactly one frame of it if at that moment it was an
      open socket of a member of the message's conversation, and none otherwise; an instance that was not subscribed
      sends none. The members are those the store has for good, however late the lookup. */
  lemma FanOutExactlyOnce(ss: seq<Sys>, ls: seq<Label>, n: nat, log: seq<Happening>, at: seq<nat>, i: nat, p: nat)
    returns (k: nat)
    requires Run(ss, ls) && Serves(ss, n, log, at) && i < n && p < |Reached(n, log).published|
    requires Steady(n, Reached(n, log)) && p !in Reached(n, log).inbox[i]
    requires EachOnce(ss[|ss| - 1], Reached(n, log).published[p].conversationId)
    ensures i in Subscribers(n, log, p) ==>
      k < |log| && Handles(log[k], i, p) && Happens(n, log[..k]) && Steady(n, Reached(n, log[..k]))
    ensures var st, members :=
      Reached(n, log).instances[i], MembersOf(ss[|ss| - 1].store, Reached(n, log).published[p].conversationId);
      forall s :: s in st.sent ==>
        multiset(st.sent[s])[p] ==
          if i in Subscribers(n, log, p) && HasMember(Reached(n, log[..k]).instances[i], members, s) then 1 else 0
  {
    k := FramesOfTheHandling(n, log, i, p);
    if i in Subscribers(n, log, p) {
      RunInv(ss, ls, |ss| - 1);
      var cid := Reached(n, log).published[p].conversationId;
      EachOnceMeans(ss[|ss| - 1], cid);
      HandlingFindsMembers(ss, ls, n, log, at, k);
      forall s
        ensures Listed(Reached(n, log[..k]).instances[i], Recipients(log[k].found), s) ==
          if HasMember(Reached(n, log[..k]).instances[i], MembersOf(ss[|ss| - 1].store, cid), s) then 1 else 0
      {
        OncePerMember(Reached(n, log[..k]).instances[i], Recipients(log[k].found), MembersOf(ss[|ss| - 1].store, cid),
          s);
      }
    }
  }

  predicate HasMember(st: Instance<nat>, members: seq<string>, s: Socket) {
    s in st.open && s in st.handlers && st.handlers[s] in members
  }

  /** A member's socket that was there when the message was published and is still open once no lookup is
      outstanding has exactly one frame of it, however long the lookup took and whatever happened meanwhile. */
  lemma ConnectedGetsExactlyOne(ss: seq<Sys>, ls: seq<Label>, n: nat, log: seq<Happening>, at: seq<nat>, m: nat,
        i: nat, s: Socket)
    requires Run(ss, ls) && Serves(ss, n, log, at) && m < |log| && log[m].Publish? && i < n && Happens(n, log[..m])
    requires i in Reached(n, log[..m]).subscribed && EachOnce(ss[|ss| - 1], log[m].m.conversationId)
    requires Steady(n, Reached(n, log)) && Steady(n, Reached(n, log[..m]))
    requires |Reached(n, log[..m]).published| !in Reached(n, log).inbox[i]
    requires s in Reached(n, log[..m]).instances[i].sent
    requires HasMember(Reached(n, log).instances[i], MembersOf(ss[|ss| - 1].store, log[m].m.conversationId), s)
    ensures var p := |Reached(n, log[..m]).published|;
      multiset(Reached(n, log).instances[i].sent[s])[p] == 1
  {
    var p := |Reached(n, log[..m]).published|;
    PublishedAt(n, log, m);
    var k := FanOutExactlyOnce(ss, ls, n, log, at, i, p);
    HandledLater(n, log, m, k, i, p);
    OpenThroughout(n, log[..k], m, i, s);
    assert log[..k][..m] == log[..m];
    OpenThroughout(n, log, k, i, s);
  }
}
