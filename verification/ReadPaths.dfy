/** The two ways of reading a thread, over the tables: the list preview is a LIMIT 1 query, the thread itself the
    newest fifty. src/core/messaging-service.ts:80-100, 137-152 */
module ReadPaths {
  import opened Domain
  import opened Query
  import opened Rows
  import opened Stores
  import opened Service
  import opened Sequential
  import opened Simulation

  /** What the thread query without a limit answers ends like the whole thread. */
  lemma ThreadEndsAlike(s: Store, cid: string, o: ListOptions, page: seq<Message>)
    requires DistinctInstants(s.msgs) && ListPostgres(s.msgs, cid, o, page) && o.limit == None
    ensures LastOf(page) == LastOf(ListInMemory(s.msgs, cid, o))
    ensures page == [] <==> ListInMemory(s.msgs, cid, o) == []
  {
    var capped := o.(limit := Some(DEFAULT_LIMIT));
    assert Where(cid, capped) == Where(cid, o) && Clamp(capped.limit) == Clamp(o.limit);
    ListsOne(Postgres, s.msgs, cid, capped, page);
  }

  lemma ThreadQueried(s: Store, cid: string, o: ListOptions, env: Env, trace: seq<Step>, out: Outcome)
    requires DistinctInstants(s.msgs) && s.kind.Postgres? && o.limit == None
    requires Performs(s, Go(Asking(ListMessages(cid, o), ListRead)), env, trace, out)
    ensures out.reply.Messages? && LastOf(out.reply.messages) == LastOf(ListInMemory(s.msgs, cid, o))
    ensures out.reply.messages == [] <==> ListInMemory(s.msgs, cid, o) == []
  {
    var page := ListReads(s, cid, o, env, trace, out);
    ThreadEndsAlike(s, cid, o, page);
  }

  lemma MemberLookedUp(s: Store, c: Conversation, user: string, k: Cont, env: Env, trace: seq<Step>, out: Outcome)
    returns (found: Conversation)
    requires s.kind.Postgres? && WellFormed(s) && c in s.convs && IsParticipant(c, user)
    requires Performs(s, Go(Asking(FindConversation(c.id), k)), env, trace, out)
    ensures Denied(Some(found), c.id, user) == None && ClearedAt(found, user) == ClearedAt(c, user)
    ensures trace != [] && Performs(s, AfterLookup(k, Some(found), env.now), env, trace[1..], out)
  {
    SameId(s.convs, c, Find(s.convs, c.id).value);
    Unfold(s, FindConversation(c.id), k, [], [], env, trace, out);
    var answer := LookedUpFirst(s, c.id, k, env, trace, out);
    found := answer.value;
    var i :| 0 <= i < |s.convs| && s.convs[i] == c;
    SameFindsSame(c, found, user);
  }

  /** What `listMessages` without options says about the thread of a member, over the tables. */
  lemma ThreadRead(s: Store, c: Conversation, user: string, env: Env, trace: seq<Step>, out: Outcome)
    requires s.kind.Postgres? && WellFormed(s) && DistinctInstants(s.msgs) && c in s.convs && IsParticipant(c, user)
    requires Performs(s, Go(Start(List(c.id, user, ALL_MESSAGES))), env, trace, out)
    ensures out.reply.Messages? && LastOf(out.reply.messages) == LastOf(Thread(s, c, user))
    ensures out.reply.messages == [] <==> Thread(s, c, user) == []
  {
    var found := MemberLookedUp(s, c, user, LookupForList(c.id, user, ALL_MESSAGES), env, trace, out);
    ThreadQueried(s, c.id, Bounded(ALL_MESSAGES, ClearedAt(c, user)), env, trace[1..], out);
  }

  /** The conversations the list is built from: the user's own, as stored up to the order of participants. */
  lemma ListedConversation(s: Store, user: string, list: seq<Conversation>, d: Conversation, c: Conversation)
    requires s.kind.Postgres? && WellFormed(s) && c in s.convs && IsParticipant(c, user)
    requires SameConversations(list, Concerning(s.convs, user)) && d in list && d.id == c.id
    ensures Same(d, c) && Thread(s, d, user) == Thread(s, c, user) && (Shown(s, d, user) <==> Shown(s, c, user))
  {
    ConcerningIn(s.convs, user, c);
    ConcerningFacts(s.convs, user);
    SameId(Concerning(s.convs, user), c, Find(Concerning(s.convs, user), d.id).value);
    var k :| 0 <= k < |s.convs| && s.convs[k] == c;
    SameFindsSame(c, d, user);
  }

  lemma ListedFirst(s: Store, user: string, env: Env, trace: seq<Step>, out: Outcome) returns (list: seq<Conversation>)
    requires s.kind.Postgres? && DistinctInstants(s.msgs)
    requires Performs(s, Go(Start(ListConversations(user))), env, trace, out)
    ensures SameConversations(list, Concerning(s.convs, user)) && out.reply == Previews(PreviewsOf(s, user, list))
  {
    list := ListConversationsPerforms(s, user, env, trace, out);
  }

  ghost predicate Previewed(previews: seq<Preview>, c: Conversation) {
    exists p :: p in previews && p.conversation.id == c.id
  }

  /** The two read paths agree over the tables too, when messages have distinct instants: a user's list shows a
      conversation exactly when they are in it and either never cleared it or its thread is not empty, with the last
      message that `listMessages` returns, or null. */
  lemma ReadPathsAgreeInTables(s: Store, c: Conversation, user: string, env: Env, trace: seq<Step>, out: Outcome,
      env': Env, trace': seq<Step>, out': Outcome)
    requires s.kind.Postgres? && WellFormed(s) && DistinctInstants(s.msgs) && c in s.convs
    requires Performs(s, Go(Start(ListConversations(user))), env, trace, out)
    requires Performs(s, Go(Start(List(c.id, user, ALL_MESSAGES))), env', trace', out')
    ensures out.reply.Previews? && (out'.reply.Messages? <==> IsParticipant(c, user))
    ensures Previewed(out.reply.previews, c) <==>
      IsParticipant(c, user) && (ClearedAt(c, user).None? || out'.reply.messages != [])
    ensures forall p :: p in out.reply.previews && p.conversation.id == c.id ==>
      Same(p.conversation, c) && p.lastMessage == LastOf(out'.reply.messages)
  {
    var list := ListedFirst(s, user, env, trace, out);
    if IsParticipant(c, user) {
      ThreadRead(s, c, user, env', trace', out');
      MemberPreviewed(s, c, user, list, out'.reply.messages);
    } else {
      StrangerRefused(s, c, user, env', trace', out');
      forall p | p in PreviewsOf(s, user, list)
        ensures p.conversation.id != c.id
      {
        PreviewsMeaning(s, user, list, p);
        StrangerUnlisted(s, c, user, list, p.conversation);
      }
    }
  }

  /** What the list says about a conversation of the user whose thread ends like `ms`. */
  lemma MemberPreviewed(s: Store, c: Conversation, user: string, list: seq<Conversation>, ms: seq<Message>)
    requires s.kind.Postgres? && WellFormed(s) && c in s.convs && IsParticipant(c, user)
    requires SameConversations(list, Concerning(s.convs, user))
    requires LastOf(ms) == LastOf(Thread(s, c, user)) && (ms == [] <==> Thread(s, c, user) == [])
    ensures var previews := PreviewsOf(s, user, list);
      && (Previewed(previews, c) <==> ClearedAt(c, user).None? || ms != [])
      && forall p :: p in previews && p.conversation.id == c.id ==>
           Same(p.conversation, c) && p.lastMessage == LastOf(ms)
  {
    var previews := PreviewsOf(s, user, list);
    ConcerningIn(s.convs, user, c);
    var d := Find(list, c.id).value;
    ListedConversation(s, user, list, d, c);
    PreviewsMeaning(s, user, list, Preview(d, LastOf(Thread(s, d, user))));
    forall p | p in previews && p.conversation.id == c.id
      ensures Same(p.conversation, c) && p.lastMessage == LastOf(ms) && Shown(s, c, user)
    {
      PreviewsMeaning(s, user, list, p);
      ListedConversation(s, user, list, p.conversation, c);
    }
  }

  lemma StrangerUnlisted(s: Store, c: Conversation, user: string, list: seq<Conversation>, d: Conversation)
    requires WellFormed(s) && c in s.convs && !IsParticipant(c, user)
    requires SameConversations(list, Concerning(s.convs, user)) && d in list
    ensures d.id != c.id
  {
    var stored := Find(Concerning(s.convs, user), d.id).value;
    ConcerningIn(s.convs, user, stored);
    if d.id == c.id {
      SameId(s.convs, c, stored);
    }
  }

  lemma StrangerRefused(s: Store, c: Conversation, user: string, env: Env, trace: seq<Step>, out: Outcome)
    requires s.kind.Postgres? && WellFormed(s) && c in s.convs && !IsParticipant(c, user)
    requires Performs(s, Go(Start(List(c.id, user, ALL_MESSAGES))), env, trace, out)
    ensures out.reply.Refused?
  {
    SameId(s.convs, c, Find(s.convs, c.id).value);
    var found := LookedUpFirst(s, c.id, LookupForList(c.id, user, ALL_MESSAGES), env, trace, out);
    if found.Some? {
      UserIdsPermute(found.value.participants, c.participants);
      assert user in UserIds(found.value.participants) <==> user in multiset(UserIds(c.participants));
    }
  }
}
