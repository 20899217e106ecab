/** Live delivery inside one instance: who holds which socket, and which frames a socket is sent
    (src/websocket/connection-registry.ts, src/websocket/websocket-server.ts). A socket is known by its identity;
    `ws.close` is taken to leave the OPEN state at once. */
module Delivery {
  import opened Domain
  import opened Stores
  import opened Bus
  import Limiter = RateLimiter

  type Socket = nat

  type Connections = map<string, set<Socket>>

  function Get(r: Connections, user: string): set<Socket> {
    if user in r then r[user] else {}
  }

  predicate NoEmptySets(r: Connections) {
    forall user :: user in r ==> r[user] != {}
  }

  function Added(r: Connections, user: string, s: Socket): Connections {
    r[user := Get(r, user) + {s}]
  }

  function Removed(r: Connections, user: string, s: Socket): Connections {
    if user !in r then r
    else if r[user] - {s} == {} then r - {user}
    else r[user := r[user] - {s}]
  }

  lemma GetAfter(r: Connections, user: string, s: Socket, u: string)
    ensures Get(Added(r, user, s), u) == if u == user then Get(r, u) + {s} else Get(r, u)
    ensures Get(Removed(r, user, s), u) == if u == user then Get(r, u) - {s} else Get(r, u)
    ensures NoEmptySets(r) ==> NoEmptySets(Added(r, user, s)) && NoEmptySets(Removed(r, user, s))
  {
  }

  class ConnectionRegistry {
    var connections: Connections

    constructor ()
      ensures connections == map[]
    {
      connections := map[];
    }

    method Add(userId: string, socket: Socket)
      modifies this
      ensures connections == Added(old(connections), userId, socket)
    {
      if userId !in connections {
        connections := connections[userId := {}];
      }
      connections := connections[userId := connections[userId] + {socket}];
    }

    method Remove(userId: string, socket: Socket)
      modifies this
      ensures connections == Removed(old(connections), userId, socket)
    {
      if userId !in connections {
        return;
      }
      var sockets := connections[userId] - {socket};
      connections := connections[userId := sockets];
      if sockets == {} {
        connections := connections - {userId};
      }
    }
  }

  // One instance and its events.

  /** `handlers` is what the close handlers have captured: each socket whose close event is still to come, with its
      user. `open` holds the sockets whose readyState is OPEN, `sent` every frame each socket was ever sent. */
  datatype Instance<F> = Instance(
    connections: Connections, gauge: int, handlers: map<Socket, string>, open: set<Socket>, timers: set<Socket>,
    sent: map<Socket, seq<F>>)

  function Idle<F>(): Instance<F> {
    Instance(map[], 0, map[], {}, {}, map[])
  }

  datatype Event<F> =
    | Open(s: Socket, user: string, expires: bool) // a verified upgrade
    | Leave(s: Socket)                             // the peer closes, or the transport breaks
    | Expire(s: Socket)                            // the expiry timer fires
    | Close(s: Socket)                             // the close event
    | Push(ids: seq<string>, frame: F)             // a lookup for a message came back with these participants

  /** A socket is a new object at each upgrade; its close event comes once, after it has left OPEN. */
  predicate Enabled<F>(st: Instance<F>, e: Event<F>) {
    match e
    case Open(s, _, _) => s !in st.sent
    case Leave(s) => s in st.open
    case Expire(s) => s in st.timers
    case Close(s) => s in st.handlers && s !in st.open
    case Push(_, _) => true
  }

  /** How many of the ids have this socket. */
  function Hits(r: Connections, ids: seq<string>, s: Socket): nat {
    if ids == [] then 0
    else Hits(r, ids[..|ids| - 1], s) + if s in Get(r, ids[|ids| - 1]) then 1 else 0
  }

  function Copies<F>(frame: F, n: nat): (fs: seq<F>)
    ensures |fs| == n && forall i :: 0 <= i < n ==> fs[i] == frame
  {
    seq(n, i => frame)
  }

  lemma {:induction false} CountCopies<F>(sent: seq<F>, frame: F, n: nat, f: F)
    ensures multiset(sent + Copies(frame, n))[f] == multiset(sent)[f] + if f == frame then n else 0
  {
    if n == 0 {
      assert sent + Copies(frame, n) == sent;
    } else {
      var fewer := sent + Copies(frame, n - 1);
      CountCopies(sent, frame, n - 1, f);
      assert sent + Copies(frame, n) == fewer + [frame];
      assert multiset(fewer + [frame]) == multiset(fewer) + multiset{frame};
    }
  }

  function Deliver<F>(st: Instance<F>, ids: seq<string>, frame: F): Instance<F> {
    st.(sent := map s | s in st.sent ::
          st.sent[s] + Copies(frame, if s in st.open then Hits(st.connections, ids, s) else 0))
  }

  function After<F>(st: Instance<F>, e: Event<F>): Instance<F>
    requires Enabled(st, e)
  {
    match e
    case Open(s, user, expires) =>
      Instance(Added(st.connections, user, s), st.gauge + 1, st.handlers[s := user], st.open + {s},
               if expires then st.timers + {s} else st.timers, st.sent[s := []])
    case Leave(s) => st.(open := st.open - {s})
    case Expire(s) => st.(open := st.open - {s}, timers := st.timers - {s})
    case Close(s) =>
      st.(connections := Removed(st.connections, st.handlers[s], s), gauge := st.gauge - 1,
          handlers := st.handlers - {s}, timers := st.timers - {s})
    case Push(ids, frame) => Deliver(st, ids, frame)
  }

  /** What every event keeps. */
  ghost predicate Sound<F>(st: Instance<F>) {
    && NoEmptySets(st.connections)
    && Registered(st.connections, st.handlers)
    && st.gauge == |st.handlers|
    && st.open <= st.handlers.Keys <= st.sent.Keys
    && st.timers <= st.handlers.Keys
  }

  /** `handlers` says what the registry holds. */
  ghost predicate Registered(r: Connections, handlers: map<Socket, string>) {
    forall user, s :: s in Get(r, user) <==> s in handlers && handlers[s] == user
  }

  lemma OpenRegisters(r: Connections, handlers: map<Socket, string>, s: Socket, user: string)
    requires Registered(r, handlers) && s !in handlers
    ensures Registered(Added(r, user, s), handlers[s := user])
    ensures |handlers[s := user]| == |handlers| + 1
  {
    forall u, x
      ensures x in Get(Added(r, user, s), u) <==> x in handlers[s := user] && handlers[s := user][x] == u
    {
      GetAfter(r, user, s, u);
    }
  }

  lemma CloseUnregisters(r: Connections, handlers: map<Socket, string>, s: Socket)
    requires Registered(r, handlers) && s in handlers
    ensures Registered(Removed(r, handlers[s], s), handlers - {s})
    ensures |handlers - {s}| == |handlers| - 1
  {
    assert handlers == (handlers - {s})[s := handlers[s]];
    forall u, x
      ensures x in Get(Removed(r, handlers[s], s), u) <==> x in handlers - {s} && (handlers - {s})[x] == u
    {
      GetAfter(r, handlers[s], s, u);
    }
  }

  lemma EventKeepsSound<F>(st: Instance<F>, e: Event<F>)
    requires Sound(st) && Enabled(st, e)
    ensures Sound(After(st, e))
  {
    if e.Open? {
      GetAfter(st.connections, e.user, e.s, e.user);
      OpenRegisters(st.connections, st.handlers, e.s, e.user);
    } else if e.Close? {
      GetAfter(st.connections, st.handlers[e.s], e.s, st.handlers[e.s]);
      CloseUnregisters(st.connections, st.handlers, e.s);
    }
  }

  // Whole runs of one instance.

  ghost predicate Possible<F>(log: seq<Event<F>>)
    decreases |log|, 0
  {
    log == [] || (Possible(log[..|log| - 1]) && Enabled(State(log[..|log| - 1]), log[|log| - 1]))
  }

  ghost function State<F>(log: seq<Event<F>>): Instance<F>
    requires Possible(log)
    decreases |log|, 1
  {
    if log == [] then Idle() else After(State(log[..|log| - 1]), log[|log| - 1])
  }

  /** The sockets opened and not yet closed, each with its user. */
  function Live<F>(log: seq<Event<F>>): map<Socket, string> {
    if log == [] then map[]
    else
      var before := Live(log[..|log| - 1]);
      match log[|log| - 1]
      case Open(s, user, _) => before[s := user]
      case Close(s) => before - {s}
      case _ => before
  }

  /** All (user, socket) pairs of the registry. */
  function Pairs(r: Connections): set<(string, Socket)> {
    set user, s | user in r && s in r[user] :: (user, s)
  }

  lemma {:induction false} RunKeepsSound<F>(log: seq<Event<F>>)
    requires Possible(log)
    ensures Sound(State(log)) && State(log).handlers == Live(log)
  {
    if log != [] {
      var before := log[..|log| - 1];
      RunKeepsSound(before);
      EventKeepsSound(State(before), log[|log| - 1]);
    }
  }

  /** Over any run the registry is exactly the sockets opened and not yet closed, by user, with no empty set kept,
      and the gauge is the size of all its sets together. */
  lemma RegistryConservation<F>(log: seq<Event<F>>)
    requires Possible(log)
    ensures NoEmptySets(State(log).connections)
    ensures Registered(State(log).connections, Live(log))
    ensures State(log).gauge == |Pairs(State(log).connections)|
  {
    RunKeepsSound(log);
    SamePairs(State(log).connections, State(log).handlers);
  }

  function HandlerPairs(handlers: map<Socket, string>): set<(string, Socket)> {
    set s | s in handlers :: (handlers[s], s)
  }

  lemma SamePairs(r: Connections, handlers: map<Socket, string>)
    requires Registered(r, handlers)
    ensures |Pairs(r)| == |handlers|
  {
    forall user, s
      ensures (user, s) in Pairs(r) <==> (user, s) in HandlerPairs(handlers)
    {
      assert s in Get(r, user) <==> s in handlers && handlers[s] == user;
    }
    assert Pairs(r) == HandlerPairs(handlers);
    CountPairs(handlers);
  }

  lemma {:induction false} CountPairs(handlers: map<Socket, string>)
    ensures |HandlerPairs(handlers)| == |handlers|
    decreases |handlers|
  {
    if handlers == map[] {
      assert HandlerPairs(handlers) == {};
    } else {
      var x :| x in handlers;
      var rest := handlers - {x};
      assert handlers == rest[x := handlers[x]];
      CountPairs(rest);
      assert HandlerPairs(handlers) == HandlerPairs(rest) + {(handlers[x], x)};
    }
  }

  lemma LeftStaysQuiet<F>(st: Instance<F>, e: Event<F>, s: Socket)
    requires Enabled(st, e) && s in st.sent && s !in st.open
    ensures s in After(st, e).sent && s !in After(st, e).open && After(st, e).sent[s] == st.sent[s]
  {
  }

  /** No frame reaches a socket after its expiry timer fired, whatever follows. */
  lemma {:induction false} NoFrameAfterExpiry<F>(log: seq<Event<F>>, k: nat, s: Socket)
    requires Possible(log) && k < |log| && log[k] == Expire(s)
    ensures Possible(log[..k]) && s in State(log[..k]).sent && s in State(log).sent
    ensures State(log).sent[s] == State(log[..k]).sent[s] && s !in State(log).open
  {
    var before, e := log[..|log| - 1], log[|log| - 1];
    if k == |log| - 1 {
      RunKeepsSound(before);
    } else {
      assert before[..k] == log[..k];
      NoFrameAfterExpiry(before, k, s);
      LeftStaysQuiet(State(before), e, s);
    }
  }

  // What the history of a socket says of it.

  predicate Opens<F>(e: Event<F>, s: Socket) {
    e.Open? && e.s == s
  }

  /** Opened at k with a token that expires, and neither expired nor closed since. */
  ghost predicate ArmedAt<F>(log: seq<Event<F>>, k: int, s: Socket) {
    && 0 <= k < |log| && Opens(log[k], s) && log[k].expires
    && forall j :: k < j < |log| ==> log[j] != Expire(s) && log[j] != Event.Close(s)
  }

  /** Opened at k, and neither left nor expired since. */
  ghost predicate OpenAt<F>(log: seq<Event<F>>, k: int, s: Socket) {
    && 0 <= k < |log| && Opens(log[k], s)
    && forall j :: k < j < |log| ==> log[j] != Leave(s) && log[j] != Expire(s)
  }

  lemma OneMoreEvent<F>(log: seq<Event<F>>, s: Socket, k: int)
    requires log != [] && k < |log| - 1
    ensures var before, e := log[..|log| - 1], log[|log| - 1];
      && (ArmedAt(log, k, s) <==> ArmedAt(before, k, s) && e != Expire(s) && e != Event.Close(s))
      && (OpenAt(log, k, s) <==> OpenAt(before, k, s) && e != Leave(s) && e != Expire(s))
  {
    var before, n := log[..|log| - 1], |log| - 1;
    assert forall j :: 0 <= j < n ==> before[j] == log[j];
    if ArmedAt(before, k, s) && log[n] != Expire(s) && log[n] != Event.Close(s) {
      forall j | k < j < |log|
        ensures log[j] != Expire(s) && log[j] != Event.Close(s)
      {
        assert j < n ==> before[j] == log[j];
      }
    }
  }

  /** Over any run, a socket's expiry timer is set exactly if it was opened with a token that expires and has neither
      expired nor closed since. */
  lemma {:induction false} TimersExactly<F>(log: seq<Event<F>>, s: Socket)
    requires Possible(log)
    ensures s in State(log).timers <==> exists k :: ArmedAt(log, k, s)
  {
    if log != [] {
      var before, e, n := log[..|log| - 1], log[|log| - 1], |log| - 1;
      TimersExactly(before, s);
      forall k | k < n
        ensures ArmedAt(log, k, s) <==> ArmedAt(before, k, s) && e != Expire(s) && e != Event.Close(s)
      {
        OneMoreEvent(log, s, k);
      }
      assert ArmedAt(log, n, s) <==> Opens(e, s) && e.expires;
      if s in State(log).timers && s in State(before).timers {
        var k :| ArmedAt(before, k, s);
        assert ArmedAt(log, k, s);
      }
    }
  }

  /** And it is OPEN exactly if it was opened and has neither left nor expired since. */
  lemma {:induction false} OpenExactly<F>(log: seq<Event<F>>, s: Socket)
    requires Possible(log)
    ensures s in State(log).open <==> exists k :: OpenAt(log, k, s)
  {
    if log != [] {
      var before, e, n := log[..|log| - 1], log[|log| - 1], |log| - 1;
      OpenExactly(before, s);
      forall k | k < n
        ensures OpenAt(log, k, s) <==> OpenAt(before, k, s) && e != Leave(s) && e != Expire(s)
      {
        OneMoreEvent(log, s, k);
      }
      assert OpenAt(log, n, s) <==> Opens(e, s);
      if s in State(log).open && s in State(before).open {
        var k :| OpenAt(before, k, s);
        assert OpenAt(log, k, s);
      }
    }
  }

  /** A socket opened with a token that expires can be expired for as long as it has not closed, unless it has been
      already, and then it is not OPEN; one whose token does not expire never can. */
  lemma ExpiringSocketsCanExpire<F>(log: seq<Event<F>>, k: nat, s: Socket)
    requires Possible(log) && k < |log| && Opens(log[k], s)
    requires forall j :: k < j < |log| ==> log[j] != Event.Close(s)
    ensures log[k].expires ==> Enabled(State(log), Expire(s)) || (Expire(s) in log && s !in State(log).open)
    ensures !log[k].expires ==> !Enabled(State(log), Expire(s))
  {
    TimersExactly(log, s);
    if log[k].expires && !ArmedAt(log, k, s) {
      var j :| k < j < |log| && log[j] == Expire(s);
      NoFrameAfterExpiry(log, j, s);
    }
    if !log[k].expires && s in State(log).timers {
      var n :| ArmedAt(log, n, s);
      OpenedOnce(log, if n < k then n else k, if n < k then k else n, s);
    }
  }

  lemma {:induction false} SentFrom<F>(log: seq<Event<F>>, k: nat, s: Socket)
    requires Possible(log) && k < |log| && Opens(log[k], s)
    ensures s in State(log).sent
  {
    if k < |log| - 1 {
      assert log[..|log| - 1][k] == log[k];
      SentFrom(log[..|log| - 1], k, s);
    }
  }

  lemma {:induction false} PossibleUpTo<F>(log: seq<Event<F>>, n: nat)
    requires Possible(log) && n <= |log|
    ensures Possible(log[..n]) && (n < |log| ==> Enabled(State(log[..n]), log[n]))
  {
    if n == |log| {
      assert log[..n] == log;
    } else {
      var before := log[..|log| - 1];
      if n < |log| - 1 {
        assert before[..n] == log[..n];
        PossibleUpTo(before, n);
      }
    }
  }

  /** A socket is opened once. */
  lemma OpenedOnce<F>(log: seq<Event<F>>, k: nat, n: nat, s: Socket)
    requires Possible(log) && k <= n < |log| && Opens(log[k], s) && Opens(log[n], s)
    ensures k == n
  {
    if k < n {
      PossibleUpTo(log, n);
      assert log[..n][k] == log[k];
      SentFrom(log[..n], k, s);
    }
  }

  // Who gets a frame.

  lemma CountLast(ids: seq<string>, id: string)
    requires ids != []
    ensures multiset(ids)[id] == multiset(ids[..|ids| - 1])[id] + if ids[|ids| - 1] == id then 1 else 0
  {
    assert ids == ids[..|ids| - 1] + [ids[|ids| - 1]];
  }

  lemma {:induction false} HitsByOwner<F>(st: Instance<F>, ids: seq<string>, s: Socket)
    requires Sound(st)
    ensures Hits(st.connections, ids, s) == if s in st.handlers then multiset(ids)[st.handlers[s]] else 0
  {
    if ids != [] {
      var n := |ids| - 1;
      HitsByOwner(st, ids[..n], s);
      if s in st.handlers {
        CountLast(ids, st.handlers[s]);
      }
      assert s in Get(st.connections, ids[n]) <==> s in st.handlers && st.handlers[s] == ids[n];
    }
  }

  /** How often a push reaches a socket: once per listing of its user when it is open, otherwise never. */
  function Listed<F>(st: Instance<F>, ids: seq<string>, s: Socket): nat {
    if s in st.open && s in st.handlers then multiset(ids)[st.handlers[s]] else 0
  }

  lemma DeliverReaches<F>(st: Instance<F>, ids: seq<string>, frame: F, s: Socket)
    requires Sound(st) && s in st.sent
    ensures Deliver(st, ids, frame).sent[s] == st.sent[s] + Copies(frame, Listed(st, ids, s))
  {
    HitsByOwner(st, ids, s);
  }

  /** Over any run, a message for duplicate-free participants reaches each open socket of a participant exactly
      once and no other socket at all. */
  lemma ExactlyOnce<F>(log: seq<Event<F>>, ids: seq<string>, frame: F, s: Socket)
    requires Possible(log) && NoDuplicates(ids) && s in State(log).sent
    ensures Deliver(State(log), ids, frame).sent[s] ==
      State(log).sent[s] + if s in State(log).open && s in Live(log) && Live(log)[s] in ids then [frame] else []
  {
    RunKeepsSound(log);
    DeliverReaches(State(log), ids, frame, s);
    if s in Live(log) {
      AtMostOne(ids, Live(log)[s]);
    }
  }

  lemma {:induction false} AtMostOne(ids: seq<string>, id: string)
    requires NoDuplicates(ids)
    ensures multiset(ids)[id] == if id in ids then 1 else 0
  {
    if ids != [] {
      var n := |ids| - 1;
      AtMostOne(ids[..n], id);
      CountLast(ids, id);
    }
  }

  lemma DeliverNone<F>(st: Instance<F>, frame: F)
    ensures Deliver(st, [], frame) == st
  {
    forall s | s in st.sent
      ensures st.sent[s] + Copies(frame, 0) == st.sent[s]
    {
    }
    assert Deliver(st, [], frame).sent == st.sent;
  }

  /** One participant more: one frame more for each open socket of that participant. */
  lemma OneMore<F>(st: Instance<F>, ids: seq<string>, frame: F, base: map<Socket, seq<F>>, sent: map<Socket, seq<F>>)
    requires ids != [] && base == Deliver(st, ids[..|ids| - 1], frame).sent && sent.Keys == base.Keys
    requires forall s :: s in sent ==>
      sent[s] == base[s] + if s in Get(st.connections, ids[|ids| - 1]) && s in st.open then [frame] else []
    ensures sent == Deliver(st, ids, frame).sent
  {
    forall s | s in sent
      ensures sent[s] == Deliver(st, ids, frame).sent[s]
    {
      var n := if s in st.open then Hits(st.connections, ids[..|ids| - 1], s) else 0;
      assert Copies(frame, n) + [frame] == Copies(frame, n + 1);
    }
  }

  // The server itself.

  datatype Identity = Identity(userId: string, expires: bool)

  datatype Response = TooManyRequests | Unauthorized

  class WebSocketServer {
    const registry: ConnectionRegistry
    const rateLimiter: Limiter.ConnectionRateLimiter
    const dates: Dates
    var gauge: int
    var handlers: map<Socket, string>
    var open: set<Socket>
    var timers: set<Socket>
    var sent: map<Socket, seq<Payload>>

    ghost function State(): Instance<Payload>
      reads this, registry
    {
      Instance(registry.connections, gauge, handlers, open, timers, sent)
    }

    ghost predicate Valid()
      reads this, registry
    {
      Sound(State())
    }

    constructor (rateLimiter: Limiter.ConnectionRateLimiter, dates: Dates)
      ensures Valid() && State() == Idle() && fresh(registry)
      ensures this.rateLimiter == rateLimiter && this.dates == dates
    {
      this.rateLimiter, this.dates := rateLimiter, dates;
      registry := new ConnectionRegistry();
      gauge, handlers, open, timers, sent := 0, map[], {}, {}, map[];
    }

    /** The upgrade up to token verification: the attempt is charged to the source before anything else. */
    method OnUpgrade(ip: string, now: int, token: Option<string>) returns (refusal: Option<Response>)
      modifies rateLimiter
      ensures refusal ==
        if !Limiter.Admits(old(rateLimiter.windows), ip, now, rateLimiter.config) then Some(TooManyRequests)
        else if token == None || token == Some("") then Some(Unauthorized) else None
      ensures rateLimiter.windows == Limiter.AfterAttempt(old(rateLimiter.windows), ip, now, rateLimiter.config)
    {
      var allowed := rateLimiter.Allow(ip, now);
      if !allowed {
        return Some(TooManyRequests);
      }
      if token.None? || token.value == "" {
        return Some(Unauthorized);
      }
      refusal := None;
    }

    /** The rest of the upgrade, once the verifier has answered; only a verified caller gets a socket. */
    method OnVerified(verified: Option<Identity>, ws: Socket) returns (refusal: Option<Response>)
      requires Valid() && ws !in sent
      modifies this, registry
      ensures Valid()
      ensures refusal == if verified.None? then Some(Unauthorized) else None
      ensures State() == if verified.None? then old(State()) else
        After(old(State()), Open(ws, verified.value.userId, verified.value.expires))
    {
      if verified.None? {
        return Some(Unauthorized);
      }
      var userId := verified.value.userId;
      EventKeepsSound(State(), Open(ws, userId, verified.value.expires));
      open, sent := open + {ws}, sent[ws := []];
      registry.Add(userId, ws);
      gauge := gauge + 1;
      if verified.value.expires {
        timers := timers + {ws};
      }
      handlers := handlers[ws := userId];
      refusal := None;
    }

    method OnExpiryTimer(ws: Socket)
      requires Valid() && ws in timers
      modifies this
      ensures Valid() && State() == After(old(State()), Expire(ws))
    {
      EventKeepsSound(State(), Expire(ws));
      timers := timers - {ws};
      open := open - {ws};
    }

    method OnClose(ws: Socket)
      requires Valid() && ws in handlers && ws !in open
      modifies this, registry
      ensures Valid() && State() == After(old(State()), Event.Close(ws))
    {
      EventKeepsSound(State(), Event.Close(ws));
      timers := timers - {ws};
      registry.Remove(handlers[ws], ws);
      gauge := gauge - 1;
      handlers := handlers - {ws};
    }

    /** The inner loop: one frame for every open socket of one user. */
    method SendToUser(userId: string, payload: Payload)
      requires Valid()
      modifies this`sent
      ensures sent.Keys == old(sent).Keys
      ensures forall s :: s in sent ==>
        sent[s] == old(sent)[s] + if s in Get(registry.connections, userId) && s in open then [payload] else []
    {
      var sockets := Get(registry.connections, userId);
      var todo := sockets;
      while todo != {}
        invariant todo <= sockets && sent.Keys == old(sent).Keys
        invariant forall s :: s in sent ==>
          sent[s] == old(sent)[s] + if s in sockets - todo && s in open then [payload] else []
        decreases todo
      {
        var socket :| socket in todo;
        todo := todo - {socket};
        if socket in open {
          sent := sent[socket := sent[socket] + [payload]];
        }
      }
    }

    /** `found` is what the conversation lookup answered, however late. */
    method DeliverToParticipants(message: Object, found: Option<Conversation>)
      requires Valid()
      modifies this`sent
      ensures Valid()
      ensures State() == if found.None? then old(State()) else
        Deliver(old(State()), UserIds(found.value.participants), Stringify(message, dates))
    {
      if found.None? {
        return;
      }
      var payload := Stringify(message, dates);
      var participants := found.value.participants;
      ghost var st, ids := State(), UserIds(participants);
      DeliverNone(st, payload);
      for i := 0 to |participants|
        invariant sent == Deliver(st, ids[..i], payload).sent && Valid()
      {
        ghost var base := sent;
        SendToUser(participants[i].userId, payload);
        assert ids[..i + 1][..i] == ids[..i];
        OneMore(st, ids[..i + 1], payload, base, sent);
      }
      assert ids[..|participants|] == ids;
    }
  }
}
