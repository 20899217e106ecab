/** What a listener puts on the wire is stringified after it has looked the conversation up. The in-process bus hands
    it the message itself, which the in-memory store may have changed by then.
    src/websocket/websocket-server.ts:30-33, src/adapters/in-process/message-bus.ts:26-28 */
module Handover {
  import opened Domain
  import opened Stores
  import opened Machine
  import opened Concurrency
  import opened Safety
  import opened Bus

  /** The frame of a message the listener was handed itself, when the store is this. */
  function FrameByThen(s: Store, m: Message, d: Dates): Payload {
    Stringify(AsObject(CurrentMessage(s, m)), d)
  }

  lemma DeletionShows(m: Message, now: Message, d: Dates)
    requires m.deletedAt.None? && now.deletedAt.Some?
    ensures Stringify(AsObject(m), d) != Stringify(AsObject(now), d)
  {
    assert Stringify(AsObject(m), d)[5] != Stringify(AsObject(now), d)[5];
  }

  /** Over the in-memory stores and the in-process bus, a lookup that takes from state i to state j leaves the frame
      what it is over the shared channel exactly if the message has not been deleted in between. */
  lemma LateFrameExactly(ss: seq<Sys>, ls: seq<Label>, i: nat, j: nat, post: Post, d: Dates)
    requires Run(ss, ls) && i <= j < |ss| && post in ss[i].published && d.Inverse()
    ensures FrameByThen(ss[j].store, post.message, d) == Stringify(OverTheWire(AsObject(post.message), d), d) <==>
      (CurrentMessage(ss[j].store, post.message).deletedAt.Some? ==> post.message.deletedAt.Some?)
  {
    var m := post.message;
    BusTransparency(m, d);
    RunInv(ss, ls, i);
    RunInv(ss, ls, j);
    RunAppends(ss, ls, i, j);
    assert PostOk(ss[i], post);
    LoggedKeep(ss[i].store.msgs, ss[j].store.msgs, m);
    CurrentIsLogged(ss[j].store, m);
    if m.deletedAt.None? && CurrentMessage(ss[j].store, m).deletedAt.Some? {
      DeletionShows(m, CurrentMessage(ss[j].store, m), d);
    }
  }
}
