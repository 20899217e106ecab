/** Several instances behind one shared channel: every published message reaches the handler of each subscribed
    instance, which looks the conversation up some time later and pushes to its own sockets
    (src/websocket/websocket-server.ts:25-41, 134-136, src/adapters/redis/message-bus.ts:33-52). */
module FanOut {
  import opened Domain
  import opened Delivery

  /** Frames are known by the number of the publication they come from. `inbox[i]` holds the publications instance i
      has received and whose conversation it is still looking up. */
  datatype Cluster = Cluster(
    instances: seq<Instance<nat>>, subscribed: set<nat>, inbox: seq<set<nat>>, published: seq<Message>)

  datatype Happening =
    | Local(i: nat, e: Event<nat>)
    | Subscribe(i: nat)
    | Publish(m: Message)
    | Handle(i: nat, p: nat, found: Option<Conversation>) // the lookup comes back with this

  function Start(n: nat): Cluster {
    Cluster(seq(n, _ => Idle()), {}, seq(n, _ => {}), [])
  }

  /** Whom a lookup says to push to; nobody if it found nothing. */
  function Recipients(found: Option<Conversation>): seq<string> {
    if found.Some? then UserIds(found.value.participants) else []
  }

  predicate CanHappen(c: Cluster, h: Happening) {
    match h
    case Local(i, e) => i < |c.instances| && !e.Push? && Enabled(c.instances[i], e)
    case Subscribe(i) => i < |c.instances|
    case Publish(_) => true
    case Handle(i, p, found) =>
      i < |c.instances| && i < |c.inbox| && p < |c.published| && p in c.inbox[i]
  }

  function Next(c: Cluster, h: Happening): Cluster
    requires CanHappen(c, h)
  {
    match h
    case Local(i, e) => c.(instances := c.instances[i := After(c.instances[i], e)])
    case Subscribe(i) => c.(subscribed := c.subscribed + {i})
    case Publish(m) =>
      var p := |c.published|;
      c.(published := c.published + [m],
         inbox := seq(|c.inbox|, i requires 0 <= i < |c.inbox| =>
           if i in c.subscribed then c.inbox[i] + {p} else c.inbox[i]))
    case Handle(i, p, found) =>
      c.(instances := c.instances[i := Deliver(c.instances[i], Recipients(found), p)],
         inbox := c.inbox[i := c.inbox[i] - {p}])
  }

  ghost predicate Happens(n: nat, log: seq<Happening>)
    decreases |log|, 0
  {
    log == [] || (Happens(n, log[..|log| - 1]) && CanHappen(Reached(n, log[..|log| - 1]), log[|log| - 1]))
  }

  ghost function Reached(n: nat, log: seq<Happening>): Cluster
    requires Happens(n, log)
    decreases |log|, 1
  {
    if log == [] then Start(n) else Next(Reached(n, log[..|log| - 1]), log[|log| - 1])
  }

  ghost predicate Steady(n: nat, c: Cluster) {
    && |c.instances| == |c.inbox| == n
    && (forall i :: 0 <= i < n ==> Sound(c.instances[i]))
    && (forall i, p :: 0 <= i < n && p in c.inbox[i] ==> p < |c.published|)
  }

  lemma {:induction false} AlwaysSteady(n: nat, log: seq<Happening>)
    requires Happens(n, log)
    ensures Steady(n, Reached(n, log))
  {
    if log != [] {
      var before, h := log[..|log| - 1], log[|log| - 1];
      AlwaysSteady(n, before);
      var c := Reached(n, before);
      match h
      case Local(i, e) => EventKeepsSound(c.instances[i], e);
      case Handle(i, p, found) => EventKeepsSound(c.instances[i], Push(Recipients(found), p));
      case _ =>
    }
  }

  /** Once subscribed, always subscribed. */
  lemma {:induction false} SubscribedExactly(n: nat, log: seq<Happening>, i: nat)
    requires Happens(n, log)
    ensures i in Reached(n, log).subscribed <==> Subscribe(i) in log
  {
    if log != [] {
      var before := log[..|log| - 1];
      SubscribedExactly(n, before, i);
      assert log == before + [log[|log| - 1]];
    }
  }

  /** What happens at one instance. */
  function EventsAt(log: seq<Happening>, i: nat): seq<Event<nat>> {
    if log == [] then []
    else
      EventsAt(log[..|log| - 1], i) +
      match log[|log| - 1]
      case Local(j, e) => if j == i then [e] else []
      case Handle(j, p, found) => if j == i then [Push(Recipients(found), p)] else []
      case _ => []
  }

  /** Each instance of a cluster is one instance with its own events: whatever is proved of those holds for it. */
  lemma {:induction false} EachIsAnInstance(n: nat, log: seq<Happening>, i: nat)
    requires Happens(n, log) && i < n
    ensures Steady(n, Reached(n, log)) && Possible(EventsAt(log, i))
    ensures Reached(n, log).instances[i] == State(EventsAt(log, i))
  {
    AlwaysSteady(n, log);
    if log != [] {
      var before := log[..|log| - 1];
      EachIsAnInstance(n, before, i);
      var events, h := EventsAt(before, i), log[|log| - 1];
      if h.Local? && h.i == i {
        assert (events + [h.e])[..|events|] == events;
      } else if h.Handle? && h.i == i {
        assert (events + [Push(Recipients(h.found), h.p)])[..|events|] == events;
      } else {
        assert EventsAt(log, i) == events;
      }
    }
  }

  // How often a publication is handled.

  /** The instances subscribed when publication p was made. */
  ghost function Subscribers(n: nat, log: seq<Happening>, p: nat): set<nat>
    requires Happens(n, log)
  {
    if log == [] then {}
    else
      var before := log[..|log| - 1];
      if log[|log| - 1].Publish? && |Reached(n, before).published| == p then Reached(n, before).subscribed
      else Subscribers(n, before, p)
  }

  predicate Handles(h: Happening, i: nat, p: nat) {
    h.Handle? && h.i == i && h.p == p
  }

  function TimesHandled(log: seq<Happening>, i: nat, p: nat): nat {
    if log == [] then 0
    else TimesHandled(log[..|log| - 1], i, p) + if Handles(log[|log| - 1], i, p) then 1 else 0
  }

  /** Each subscribed instance holds a publication for its lookup, or has handled it, and does so once; no other
      instance ever does. */
  lemma {:induction false} HandledOnce(n: nat, log: seq<Happening>, i: nat, p: nat)
    requires Happens(n, log) && i < n
    ensures Steady(n, Reached(n, log))
    ensures TimesHandled(log, i, p) + (if p in Reached(n, log).inbox[i] then 1 else 0) ==
      if i in Subscribers(n, log, p) then 1 else 0
    ensures p >= |Reached(n, log).published| ==> Subscribers(n, log, p) == {}
  {
    AlwaysSteady(n, log);
    if log != [] {
      HandledOnce(n, log[..|log| - 1], i, p);
    }
  }

  // How many frames a socket gets for a publication.

  /** Every handling of p by instance i owes a socket one frame per listing of its user, if it is open then. */
  ghost function Owed(n: nat, log: seq<Happening>, i: nat, p: nat, s: Socket): nat
    requires Happens(n, log) && i < n
  {
    if log == [] then 0
    else
      var before := log[..|log| - 1];
      AlwaysSteady(n, before);
      Owed(n, before, i, p, s) +
      if Handles(log[|log| - 1], i, p) then
        Listed(Reached(n, before).instances[i], Recipients(log[|log| - 1].found), s) else 0
  }

  /** A socket has exactly the frames it is owed; one that is not there yet is owed none. */
  lemma {:induction false} SentIsOwed(n: nat, log: seq<Happening>, i: nat, p: nat, s: Socket)
    requires Happens(n, log) && i < n
    ensures Steady(n, Reached(n, log))
    ensures var st := Reached(n, log).instances[i];
      Owed(n, log, i, p, s) == if s in st.sent then multiset(st.sent[s])[p] else 0
  {
    AlwaysSteady(n, log);
    if log != [] {
      var before, h := log[..|log| - 1], log[|log| - 1];
      SentIsOwed(n, before, i, p, s);
      var c := Reached(n, before);
      if h.Handle? && h.i == i && s in c.instances[i].sent {
        OwedNow(c.instances[i], Recipients(h.found), h.p, s, p);
      }
    }
  }

  lemma OwedNow(st: Instance<nat>, ids: seq<string>, frame: nat, s: Socket, p: nat)
    requires Sound(st) && s in st.sent
    ensures multiset(Deliver(st, ids, frame).sent[s])[p] ==
      multiset(st.sent[s])[p] + if p == frame then Listed(st, ids, s) else 0
  {
    DeliverReaches(st, ids, frame, s);
    CountCopies(st.sent[s], frame, Listed(st, ids, s), p);
  }

  /** A publication stays what it was. */
  lemma {:induction false} PublishedStays(n: nat, log: seq<Happening>, k: nat)
    requires Happens(n, log) && k <= |log|
    ensures Happens(n, log[..k])
    ensures Reached(n, log[..k]).published <= Reached(n, log).published
    decreases |log|
  {
    if k < |log| {
      PublishedStays(n, log[..|log| - 1], k);
      assert log[..|log| - 1][..k] == log[..k];
    } else {
      assert log[..k] == log;
    }
  }

  /** The one handling, and what is owed because of it. */
  lemma {:induction false} TheHandling(n: nat, log: seq<Happening>, i: nat, p: nat) returns (k: nat)
    requires Happens(n, log) && i < n && TimesHandled(log, i, p) == 1
    ensures k < |log| && Handles(log[k], i, p) && Happens(n, log[..k])
    ensures Steady(n, Reached(n, log[..k])) && p < |Reached(n, log[..k]).published|
    ensures forall s :: Owed(n, log, i, p, s) == Listed(Reached(n, log[..k]).instances[i], Recipients(log[k].found), s)
  {
    var before := log[..|log| - 1];
    AlwaysSteady(n, before);
    if Handles(log[|log| - 1], i, p) {
      k := |log| - 1;
      forall s
        ensures Owed(n, before, i, p, s) == 0
      {
        OwedNothing(n, before, i, p, s);
      }
    } else {
      k := TheHandling(n, before, i, p);
      assert before[..k] == log[..k] && before[k] == log[k];
      forall s
        ensures Owed(n, log, i, p, s) == Owed(n, before, i, p, s)
      {
      }
    }
  }

  lemma {:induction false} OwedNothing(n: nat, log: seq<Happening>, i: nat, p: nat, s: Socket)
    requires Happens(n, log) && i < n && TimesHandled(log, i, p) == 0
    ensures Owed(n, log, i, p, s) == 0
  {
    if log != [] {
      OwedNothing(n, log[..|log| - 1], i, p, s);
    }
  }

  /** Once no lookup for publication p is outstanding at instance i: if i was subscribed when p was published there
      is one moment k at which it handled p, and a socket has as many frames of p as that lookup listed its user, if
      it was open then. An instance that was not subscribed sends none. */
  lemma FramesOfTheHandling(n: nat, log: seq<Happening>, i: nat, p: nat) returns (k: nat)
    requires Happens(n, log) && i < n && p < |Reached(n, log).published|
    requires Steady(n, Reached(n, log)) && p !in Reached(n, log).inbox[i]
    ensures i in Subscribers(n, log, p) ==>
      k < |log| && Handles(log[k], i, p) && Happens(n, log[..k]) && Steady(n, Reached(n, log[..k]))
        && p < |Reached(n, log[..k]).published|
    ensures var st := Reached(n, log).instances[i];
      forall s :: s in st.sent ==>
        multiset(st.sent[s])[p] ==
          if i in Subscribers(n, log, p) then Listed(Reached(n, log[..k]).instances[i], Recipients(log[k].found), s)
            else 0
  {
    HandledOnce(n, log, i, p);
    var st := Reached(n, log).instances[i];
    if i in Subscribers(n, log, p) {
      k := TheHandling(n, log, i, p);
      forall s | s in st.sent
        ensures multiset(st.sent[s])[p] == Listed(Reached(n, log[..k]).instances[i], Recipients(log[k].found), s)
      {
        SentIsOwed(n, log, i, p, s);
      }
    } else {
      k := 0;
      forall s | s in st.sent
        ensures multiset(st.sent[s])[p] == 0
      {
        SentIsOwed(n, log, i, p, s);
        OwedNothing(n, log, i, p, s);
      }
    }
  }

  /** `s` was open, and of the same user, before. */
  predicate OpenBefore(was: Instance<nat>, now: Instance<nat>, s: Socket) {
    && was.sent.Keys <= now.sent.Keys
    && (s in was.sent && s in now.open ==>
          s in was.open && s in was.handlers && s in now.handlers && was.handlers[s] == now.handlers[s])
  }

  lemma OpenBeforeStep(n: nat, c: Cluster, h: Happening, i: nat, s: Socket)
    requires Steady(n, c) && CanHappen(c, h) && i < n && Steady(n, Next(c, h))
    ensures OpenBefore(c.instances[i], Next(c, h).instances[i], s)
  {
  }

  /** A socket open at the end was, at every earlier moment it existed, open and of the same user. */
  lemma {:induction false} OpenThroughout(n: nat, log: seq<Happening>, k: nat, i: nat, s: Socket)
    requires Happens(n, log) && k <= |log| && i < n
    ensures Happens(n, log[..k]) && Steady(n, Reached(n, log)) && Steady(n, Reached(n, log[..k]))
    ensures OpenBefore(Reached(n, log[..k]).instances[i], Reached(n, log).instances[i], s)
    decreases |log|
  {
    AlwaysSteady(n, log);
    if k < |log| {
      var before := log[..|log| - 1];
      OpenThroughout(n, before, k, i, s);
      assert before[..k] == log[..k];
      OpenBeforeStep(n, Reached(n, before), log[|log| - 1], i, s);
    } else {
      assert log[..k] == log;
    }
  }

  /** What a publication recorded stays recorded. */
  lemma {:induction false} PublishedAt(n: nat, log: seq<Happening>, m: nat)
    requires Happens(n, log) && m < |log| && log[m].Publish?
    ensures Happens(n, log[..m])
    ensures var p := |Reached(n, log[..m]).published|;
      p < |Reached(n, log).published| && Reached(n, log).published[p] == log[m].m
      && Subscribers(n, log, p) == Reached(n, log[..m]).subscribed
    decreases |log|
  {
    if m < |log| - 1 {
      var before := log[..|log| - 1];
      PublishedAt(n, before, m);
      assert before[..m] == log[..m];
    }
  }

  /** A publication is handled after it was made. */
  lemma HandledLater(n: nat, log: seq<Happening>, m: nat, k: nat, i: nat, p: nat)
    requires Happens(n, log) && m < |log| && k < |log| && Happens(n, log[..m]) && Happens(n, log[..k])
    requires p == |Reached(n, log[..m]).published| && Handles(log[k], i, p)
    ensures m <= k
  {
    PublishedStays(n, log, k + 1);
    assert log[..k + 1][..k] == log[..k] && log[..k + 1][k] == log[k];
    if k < m {
      assert log[..m][..k] == log[..k];
      PublishedStays(n, log[..m], k);
    }
  }
}
