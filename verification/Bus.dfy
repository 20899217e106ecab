/** The two message buses and what passes through them (src/adapters/in-process/message-bus.ts,
    src/adapters/redis/message-bus.ts). JSON texts are values of a datatype; a date is written as `iso` writes it
    and read back as `instant` reads it, two functions of which only `instant(iso(t)) == t` is known. */
module Bus {
  import opened Domain

  /** A field of a message object as a handler sees it. */
  datatype Value = Null | Text(text: string) | Date(at: int)

  datatype Json = JsonNull | JsonText(text: string)

  type Object = seq<(string, Value)>

  type Payload = seq<(string, Json)>

  datatype Dates = Dates(iso: int -> string, instant: string -> int) {
    ghost predicate Inverse() {
      forall t :: instant(iso(t)) == t
    }
  }

  function AsObject(m: Message): Object {
    [("id", Text(m.id)), ("conversationId", Text(m.conversationId)),
     ("senderId", Text(m.senderId)), ("body", Text(m.body)),
     ("createdAt", Date(m.createdAt)), ("deletedAt", if m.deletedAt.Some? then Date(m.deletedAt.value) else Null)]
  }

  function ToJson(v: Value, d: Dates): Json {
    match v
    case Null => JsonNull
    case Text(t) => JsonText(t)
    case Date(at) => JsonText((d.iso)(at))
  }

  /** `JSON.stringify` */
  function Stringify(o: Object, d: Dates): (p: Payload)
    ensures |p| == |o| && forall i :: 0 <= i < |o| ==> p[i] == (o[i].0, ToJson(o[i].1, d))
  {
    seq(|o|, i requires 0 <= i < |o| => (o[i].0, ToJson(o[i].1, d)))
  }

  /** The reviver turns `createdAt` into a date and leaves everything else, `deletedAt` included, as parsed. */
  function Revive(key: string, j: Json, d: Dates): Value {
    if key == "createdAt" then Date(if j.JsonNull? then 0 else (d.instant)(j.text))
    else if j.JsonNull? then Null
    else Text(j.text)
  }

  function ParseMessage(p: Payload, d: Dates): (o: Object)
    ensures |o| == |p| && forall i :: 0 <= i < |p| ==> o[i] == (p[i].0, Revive(p[i].0, p[i].1, d))
  {
    seq(|p|, i requires 0 <= i < |p| => (p[i].0, Revive(p[i].0, p[i].1, d)))
  }

  function OverTheWire(o: Object, d: Dates): Object {
    ParseMessage(Stringify(o, d), d)
  }

  /** A field keeps its JSON text when it is not `createdAt`, or when it is a date or a text that is one's ISO form. */
  predicate KeepsText(key: string, v: Value, d: Dates) {
    key == "createdAt" ==> v.Date? || (v.Text? && (d.iso)((d.instant)(v.text)) == v.text)
  }

  /** A field keeps its value when dates are where the reviver looks for them. */
  predicate KeepsValue(key: string, v: Value) {
    key == "createdAt" <==> v.Date?
  }

  lemma FieldOverTheWire(key: string, v: Value, d: Dates)
    requires d.Inverse()
    ensures ToJson(Revive(key, ToJson(v, d), d), d) == ToJson(v, d) <==> KeepsText(key, v, d)
    ensures Revive(key, ToJson(v, d), d) == v <==> KeepsValue(key, v)
  {
    if v.Date? {
      assert (d.instant)((d.iso)(v.at)) == v.at;
    }
  }

  /** Exactly which objects come through the wire with the same frame, and which with the same value. */
  lemma WireExactly(o: Object, d: Dates)
    requires d.Inverse()
    ensures Stringify(OverTheWire(o, d), d) == Stringify(o, d) <==>
      forall i :: 0 <= i < |o| ==> KeepsText(o[i].0, o[i].1, d)
    ensures OverTheWire(o, d) == o <==> forall i :: 0 <= i < |o| ==> KeepsValue(o[i].0, o[i].1)
  {
    var there := OverTheWire(o, d);
    forall i | 0 <= i < |o|
      ensures Stringify(there, d)[i] == Stringify(o, d)[i] <==> KeepsText(o[i].0, o[i].1, d)
      ensures there[i] == o[i] <==> KeepsValue(o[i].0, o[i].1)
    {
      FieldOverTheWire(o[i].0, o[i].1, d);
    }
  }

  /** Every message, live or deleted, reaches a client as the same frame over either bus; as a value it comes
      back equal exactly when it is not deleted. */
  lemma BusTransparency(m: Message, d: Dates)
    requires d.Inverse()
    ensures Stringify(OverTheWire(AsObject(m), d), d) == Stringify(AsObject(m), d)
    ensures OverTheWire(AsObject(m), d) == AsObject(m) <==> m.deletedAt.None?
  {
    var o := AsObject(m);
    WireExactly(o, d);
    assert KeepsValue(o[5].0, o[5].1) <==> m.deletedAt.None?;
  }

  // What a client reads in a frame, by name.

  function Field(p: Payload, key: string): Option<Json> {
    if p == [] then None else if p[0].0 == key then Some(p[0].1) else Field(p[1..], key)
  }

  /** A text, or what `otherwise` is for null or nothing. */
  function TextOf(j: Option<Json>, otherwise: string): string {
    if j.Some? && j.value.JsonText? then j.value.text else otherwise
  }

  /** The message a client makes of a frame, whatever the order of its fields. */
  function ReadFrame(p: Payload, d: Dates): Message {
    var deletedAt := Field(p, "deletedAt");
    Message(
      TextOf(Field(p, "id"), ""), TextOf(Field(p, "conversationId"), ""), TextOf(Field(p, "senderId"), ""),
      TextOf(Field(p, "body"), ""), (d.instant)(TextOf(Field(p, "createdAt"), "")),
      if deletedAt.Some? && deletedAt.value.JsonText? then Some((d.instant)(deletedAt.value.text)) else None)
  }

  lemma FieldAt(p: Payload, i: nat)
    requires i < |p| && forall j :: 0 <= j < i ==> p[j].0 != p[i].0
    ensures Field(p, p[i].0) == Some(p[i].1)
  {
    if i > 0 {
      assert forall j :: 0 <= j < i - 1 ==> p[1..][j] == p[j + 1];
      FieldAt(p[1..], i - 1);
    }
  }

  predicate DistinctKeys(p: Payload) {
    forall i, j :: 0 <= i < j < |p| ==> p[i].0 != p[j].0
  }

  /** A frame holds each field of its message under its own name, once, and no other. */
  lemma FrameShows(m: Message, d: Dates)
    ensures var p := Stringify(AsObject(m), d);
      && |p| == 6 && DistinctKeys(p)
      && Field(p, "id") == Some(JsonText(m.id)) && Field(p, "conversationId") == Some(JsonText(m.conversationId))
      && Field(p, "senderId") == Some(JsonText(m.senderId)) && Field(p, "body") == Some(JsonText(m.body))
      && Field(p, "createdAt") == Some(JsonText((d.iso)(m.createdAt)))
      && Field(p, "deletedAt") ==
           Some(if m.deletedAt.Some? then JsonText((d.iso)(m.deletedAt.value)) else JsonNull)
  {
    var p := Stringify(AsObject(m), d);
    assert p[0].0 == "id" && p[1].0 == "conversationId" && p[2].0 == "senderId";
    assert p[3].0 == "body" && p[4].0 == "createdAt" && p[5].0 == "deletedAt";
    FieldAt(p, 0);
    FieldAt(p, 1);
    FieldAt(p, 2);
    FieldAt(p, 3);
    FieldAt(p, 4);
    FieldAt(p, 5);
  }

  /** Reading a frame gives back the message, over either bus; so frames tell all messages apart. */
  lemma FrameReadsBack(m: Message, d: Dates)
    requires d.Inverse()
    ensures ReadFrame(Stringify(AsObject(m), d), d) == m
    ensures ReadFrame(Stringify(OverTheWire(AsObject(m), d), d), d) == m
  {
    FrameShows(m, d);
    BusTransparency(m, d);
    assert (d.instant)((d.iso)(m.createdAt)) == m.createdAt;
    if m.deletedAt.Some? {
      assert (d.instant)((d.iso)(m.deletedAt.value)) == m.deletedAt.value;
    }
  }

  // Listeners. A handler is known by its identity; a call is the handler with the object it was given.

  type Handler = nat

  type Calls = seq<(Handler, Object)>

  function Dispatch(handlers: seq<Handler>, o: Object): (calls: Calls)
    ensures |calls| == |handlers| && forall i :: 0 <= i < |handlers| ==> calls[i] == (handlers[i], o)
  {
    seq(|handlers|, i requires 0 <= i < |handlers| => (handlers[i], o))
  }

  function LastIndex(handlers: seq<Handler>, h: Handler): (i: int)
    ensures -1 <= i < |handlers| && (i >= 0 ==> handlers[i] == h)
    ensures forall j :: i < j < |handlers| ==> handlers[j] != h
  {
    if handlers == [] then -1
    else if handlers[|handlers| - 1] == h then |handlers| - 1
    else LastIndex(handlers[..|handlers| - 1], h)
  }

  /** `off` takes away the registration made last, if there is one. */
  function RemoveLast(handlers: seq<Handler>, h: Handler): seq<Handler> {
    var i := LastIndex(handlers, h);
    if i < 0 then handlers else handlers[..i] + handlers[i + 1..]
  }

  lemma RemoveLastCounts(handlers: seq<Handler>, h: Handler)
    ensures multiset(RemoveLast(handlers, h)) == multiset(handlers) - multiset{h}
  {
    var i := LastIndex(handlers, h);
    if i >= 0 {
      assert handlers == handlers[..i] + [h] + handlers[i + 1..];
    }
  }

  class EventEmitter {
    var handlers: seq<Handler>
    var calls: Calls

    constructor ()
      ensures handlers == [] && calls == []
    {
      handlers, calls := [], [];
    }

    method On(h: Handler)
      modifies this`handlers
      ensures handlers == old(handlers) + [h]
    {
      handlers := handlers + [h];
    }

    method Off(h: Handler)
      modifies this`handlers
      ensures handlers == RemoveLast(old(handlers), h)
    {
      var i := |handlers|;
      while i > 0
        invariant 0 <= i <= |handlers| && handlers == old(handlers)
        invariant forall j :: i <= j < |handlers| ==> handlers[j] != h
      {
        i := i - 1;
        if handlers[i] == h {
          handlers := handlers[..i] + handlers[i + 1..];
          return;
        }
      }
    }

    method Emit(o: Object)
      modifies this`calls
      ensures calls == old(calls) + Dispatch(handlers, o)
    {
      for i := 0 to |handlers|
        invariant calls == old(calls) + Dispatch(handlers, o)[..i]
      {
        calls := calls + [(handlers[i], o)];
      }
    }
  }

  class InProcessMessageBus {
    const emitter: EventEmitter

    constructor ()
      ensures fresh(emitter) && emitter.handlers == [] && emitter.calls == []
    {
      emitter := new EventEmitter();
    }

    method Publish(o: Object)
      modifies emitter`calls
      ensures emitter.calls == old(emitter.calls) + Dispatch(emitter.handlers, o)
    {
      emitter.Emit(o);
    }

    method OnMessage(h: Handler)
      modifies emitter`handlers
      ensures emitter.handlers == old(emitter.handlers) + [h]
    {
      emitter.On(h);
    }

    method Unsubscribe(h: Handler)
      modifies emitter`handlers
      ensures multiset(emitter.handlers) == multiset(old(emitter.handlers)) - multiset{h}
    {
      RemoveLastCounts(emitter.handlers, h);
      emitter.Off(h);
    }
  }

  const CHANNEL := "jiffy-messaging:messages"

  /** What this process told Redis. */
  datatype Command = Subscribe(channel: string) | Publish(channel: string, payload: Payload)

  function Commanded(commands: seq<Command>, c: Command): nat {
    multiset(commands)[c]
  }

  class RedisMessageBus {
    const dates: Dates
    const emitter: EventEmitter
    var subscribed: bool
    var commands: seq<Command>

    /** One SUBSCRIBE at most, and it precedes the first listener. */
    ghost predicate Valid()
      reads this, emitter
    {
      && Commanded(commands, Subscribe(CHANNEL)) == (if subscribed then 1 else 0)
      && (emitter.handlers != [] ==> subscribed)
    }

    constructor (dates: Dates)
      ensures Valid() && fresh(emitter) && this.dates == dates && emitter.handlers == [] && emitter.calls == []
      ensures commands == []
    {
      this.dates := dates;
      emitter := new EventEmitter();
      subscribed := false;
      commands := [];
    }

    method Publish(o: Object)
      requires Valid()
      modifies this`commands
      ensures Valid() && commands == old(commands) + [Command.Publish(CHANNEL, Stringify(o, dates))]
    {
      commands := commands + [Command.Publish(CHANNEL, Stringify(o, dates))];
    }

    /** A message event of the subscriber connection. */
    method Receive(channel: string, payload: Payload)
      requires Valid()
      modifies emitter`calls
      ensures Valid()
      ensures emitter.calls == old(emitter.calls) +
        if channel == CHANNEL then Dispatch(emitter.handlers, ParseMessage(payload, dates)) else []
    {
      if channel != CHANNEL {
        return;
      }
      emitter.Emit(ParseMessage(payload, dates));
    }

    method OnMessage(h: Handler)
      requires Valid()
      modifies this, emitter`handlers
      ensures Valid() && subscribed && emitter.handlers == old(emitter.handlers) + [h]
      ensures commands == old(commands) + if old(subscribed) then [] else [Subscribe(CHANNEL)]
    {
      if !subscribed {
        subscribed := true;
        commands := commands + [Subscribe(CHANNEL)];
      }
      emitter.On(h);
    }

    /** The process stays subscribed without listeners. */
    method Unsubscribe(h: Handler)
      requires Valid()
      modifies emitter`handlers
      ensures Valid() && multiset(emitter.handlers) == multiset(old(emitter.handlers)) - multiset{h}
    {
      ghost var all := emitter.handlers;
      RemoveLastCounts(all, h);
      emitter.Off(h);
      if emitter.handlers != [] {
        assert emitter.handlers[0] in multiset(emitter.handlers);
        assert emitter.handlers[0] in multiset(all);
      }
    }
  }

  /** The frames the handlers of a bus build from what they were given. */
  function Frames(calls: Calls, d: Dates): (r: seq<(Handler, Payload)>)
    ensures |r| == |calls| && forall i :: 0 <= i < |calls| ==> r[i] == (calls[i].0, Stringify(calls[i].1, d))
  {
    seq(|calls|, i requires 0 <= i < |calls| => (calls[i].0, Stringify(calls[i].1, d)))
  }

  /** The same listeners send the same frames in the same order, whether a message was handed to them by the
      in-process bus or came over the shared channel. */
  lemma BusesAgree(m: Message, handlers: seq<Handler>, d: Dates)
    requires d.Inverse()
    ensures Frames(Dispatch(handlers, AsObject(m)), d) == Frames(Dispatch(handlers, OverTheWire(AsObject(m), d)), d)
  {
    BusTransparency(m, d);
  }
}
