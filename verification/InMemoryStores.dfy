/** The in-memory adapters (src/adapters/in-memory/conversation-store.ts, message-store.ts). Fresh ids and the
    clock are handed in; a thrown error is None. */
module InMemoryStores {
  import opened Domain
  import opened Query
  import opened Rows
  import opened Paging
  import opened Stores

  class InMemoryConversationStore {
    /** The values of the map from ids to conversations, in insertion order. */
    var conversations: seq<Conversation>

    ghost predicate Valid()
      reads this
    {
      DistinctConversations(conversations)
    }

    constructor ()
      ensures Valid() && conversations == []
    {
      conversations := [];
    }

    method Create(participantIds: seq<string>, id: string, now: int) returns (r: Conversation)
      requires Valid() && Find(conversations, id).None?
      modifies this
      ensures Valid()
      ensures ConversationOp(InMemory, old(conversations), CreateConversation(participantIds), Env(id, now, true),
        conversations, Created(r))
    {
      r := Conversation(id, Fresh(participantIds), now);
      conversations := conversations + [r];
    }

    method FindById(id: string) returns (r: Option<Conversation>)
      ensures r == Find(conversations, id)
    {
      for i := 0 to |conversations|
        invariant Find(conversations, id) == Find(conversations[i..], id)
      {
        if conversations[i].id == id {
          return Some(conversations[i]);
        }
        assert conversations[i..][1..] == conversations[i + 1..];
      }
      r := None;
    }

    method FindByParticipant(userId: string) returns (r: seq<Conversation>)
      ensures r == Concerning(conversations, userId)
    {
      r := [];
      for i := 0 to |conversations|
        invariant r == Concerning(conversations[..i], userId)
      {
        assert conversations[..i + 1][..i] == conversations[..i];
        if IsParticipant(conversations[i], userId) {
          r := r + [conversations[i]];
        }
      }
      assert conversations[..|conversations|] == conversations;
    }

    /** Assigns to the first participant with that user id; an unknown conversation or user is left alone. */
    method Assign(conversationId: string, userId: string, mark: Mark)
      requires Valid()
      modifies this
      ensures Valid() && conversations == Marked(old(conversations), conversationId, userId, mark)
    {
      ghost var cs := conversations;
      for i := 0 to |conversations|
        invariant conversations == cs
        invariant forall j :: 0 <= j < i ==> conversations[j].id != conversationId
      {
        if conversations[i].id == conversationId {
          var participants := conversations[i].participants;
          for p := 0 to |participants|
            invariant conversations == cs
            invariant forall q :: 0 <= q < p ==> participants[q].userId != userId
          {
            if participants[p].userId == userId {
              StampedAt(participants, userId, mark, p);
              conversations :=
                conversations[i := conversations[i].(participants := participants[p := Stamp(participants[p], mark)])];
              MarkedAt(cs, conversationId, userId, mark, i);
              return;
            }
          }
          NothingStamped(participants, userId, mark);
          MarkedAt(cs, conversationId, userId, mark, i);
          return;
        }
      }
    }

    method MarkRead(conversationId: string, userId: string, at: int)
      requires Valid()
      modifies this
      ensures Valid() && conversations == Marked(old(conversations), conversationId, userId, Read(at))
    {
      Assign(conversationId, userId, Read(at));
    }

    method Clear(conversationId: string, userId: string, at: int)
      requires Valid()
      modifies this
      ensures Valid() && conversations == Marked(old(conversations), conversationId, userId, Cleared(at))
    {
      Assign(conversationId, userId, Cleared(at));
    }
  }

  lemma {:induction false} StampedAt(ps: seq<Participant>, user: string, mark: Mark, p: nat)
    requires p < |ps| && ps[p].userId == user && forall q :: 0 <= q < p ==> ps[q].userId != user
    ensures StampFirst(ps, user, mark) == ps[p := Stamp(ps[p], mark)]
  {
    if p > 0 {
      var rest := ps[1..];
      StampedAt(rest, user, mark, p - 1);
      var tail := StampFirst(rest, user, mark);
      assert StampFirst(ps, user, mark) == [ps[0]] + tail;
      forall i | 0 <= i < |ps|
        ensures ([ps[0]] + tail)[i] == ps[p := Stamp(ps[p], mark)][i]
      {
        assert i > 0 ==> tail[i - 1] == rest[p - 1 := Stamp(rest[p - 1], mark)][i - 1];
      }
    }
  }

  lemma {:induction false} NothingStamped(ps: seq<Participant>, user: string, mark: Mark)
    requires forall q :: 0 <= q < |ps| ==> ps[q].userId != user
    ensures StampFirst(ps, user, mark) == ps
  {
    if ps != [] {
      NothingStamped(ps[1..], user, mark);
    }
  }

  lemma MarkedAt(cs: seq<Conversation>, cid: string, user: string, mark: Mark, i: nat)
    requires DistinctConversations(cs) && i < |cs| && cs[i].id == cid
    ensures Marked(cs, cid, user, mark) == cs[i := cs[i].(participants := StampFirst(cs[i].participants, user, mark))]
    ensures DistinctConversations(Marked(cs, cid, user, mark))
  {
  }

  class InMemoryMessageStore {
    var messages: seq<Message>

    ghost predicate Valid()
      reads this
    {
      DistinctIds(messages)
    }

    constructor ()
      ensures Valid() && messages == []
    {
      messages := [];
    }

    method Create(conversationId: string, senderId: string, body: string, id: string, now: int) returns (r: Message)
      requires Valid() && Stores.FindById(messages, id).None?
      modifies this
      ensures Valid()
      ensures r == Message(id, conversationId, senderId, body, now, None) && messages == old(messages) + [r]
    {
      r := Message(id, conversationId, senderId, body, now, None);
      messages := messages + [r];
    }

    method FindById(id: string) returns (r: Option<Message>)
      ensures r == Stores.FindById(messages, id)
    {
      for i := 0 to |messages|
        invariant Stores.FindById(messages, id) == Stores.FindById(messages[i..], id)
      {
        if messages[i].id == id {
          return Some(messages[i]);
        }
        assert messages[i..][1..] == messages[i + 1..];
      }
      r := None;
    }

    method SoftDelete(id: string, at: int) returns (r: Option<Message>)
      requires Valid()
      modifies this
      ensures Valid()
      ensures messages == Tombstoned(old(messages), id, at) && r == Stores.FindById(messages, id)
      ensures r.None? <==> Stores.FindById(old(messages), id).None?
      ensures r.Some? ==> r.value == Tombstone(Stores.FindById(old(messages), id).value, at)
    {
      ghost var ms := messages;
      for i := 0 to |messages|
        invariant messages == ms
        invariant forall j :: 0 <= j < i ==> messages[j].id != id
      {
        var message := messages[i];
        if message.id == id {
          FindByIdUnique(ms, i);
          if message.deletedAt.Some? {
            assert Tombstoned(ms, id, at) == ms;
            return Some(message);
          }
          message := message.(body := "", deletedAt := Some(at));
          messages := messages[i := message];
          assert Tombstoned(ms, id, at) == messages;
          FindByIdUnique(messages, i);
          return Some(message);
        }
      }
      assert Tombstoned(ms, id, at) == ms;
      r := None;
    }

    method ListByConversation(conversationId: string, options: ListOptions) returns (results: seq<Message>)
      ensures results == ListInMemory(messages, conversationId, options)
    {
      var inConversation := Criteria(Some(conversationId), None, None);
      results := StableSort(Filter(messages, inConversation));
      ghost var q := inConversation;
      FilterSort(messages, inConversation);
      if options.before.Some? {
        results := Filter(results, Criteria(None, options.before, None));
        FilterTwice(StableSort(messages), q, Criteria(None, options.before, None),
          Criteria(Some(conversationId), options.before, None));
        q := Criteria(Some(conversationId), options.before, None);
      }
      if options.after.Some? {
        results := Filter(results, Criteria(None, None, options.after));
        FilterTwice(StableSort(messages), q, Criteria(None, None, options.after), Where(conversationId, options));
        q := Where(conversationId, options);
      }
      assert results == Filter(StableSort(messages), q) && q == Where(conversationId, options);
      FilterSort(messages, q);
      if options.limit.Some? {
        results := SliceFrom(results, -options.limit.value);
      }
    }
  }

  /** `slice(start)`: a negative start counts from the end. */
  function SliceFrom(ms: seq<Message>, start: int): (r: seq<Message>)
    ensures start < 0 ==> r == Suffix(ms, SliceCount(Some(-start), |ms|))
    ensures start >= 0 ==> |r| == SliceCount(Some(-start), |ms|) && r == Suffix(ms, |r|)
  {
    if start < 0 then (if |ms| + start < 0 then ms else ms[|ms| + start..])
    else if start > |ms| then [] else ms[start..]
  }
}
