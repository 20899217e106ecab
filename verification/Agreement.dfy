/** Exactly when a call that continues over the Postgres stores, with the copies it holds, does what it would do over
    the in-memory ones, with the objects themselves. */
module Agreement {
  import opened Domain
  import opened Rows
  import opened Stores
  import opened Dated
  import opened Service
  import opened Sequential
  import opened Machine
  import opened Concurrency
  import opened Simulation

  ghost predicate NoticesSim(a: seq<Notice>, b: seq<Notice>) {
    |a| == |b| && forall i :: 0 <= i < |a| ==> NoticeSim(a[i], b[i])
  }

  ghost predicate TurnSim(u: Turn, v: Turn) {
    PhaseSim(u.phase, v.phase) && u.published == v.published && NoticesSim(u.notified, v.notified)
  }

  /** The in-memory store with this content. */
  function InMemoryOf(s: Store): Store {
    s.(kind := InMemory)
  }

  // What of a copy a call uses.

  ghost predicate LookupStands(s: Store, k: Cont, c: Conversation) {
    k.LookupForGet? && IsParticipant(c, k.user) ==> Same(CurrentConversation(s, c), c)
  }

  /** A deletion only minds whether its own message is a tombstone by now. */
  ghost predicate MessageStands(s: Store, k: Cont, m: Message) {
    k.MessageForDelete? && m.conversationId == k.cid && m.senderId == k.user && m.deletedAt.None? ==>
      CurrentMessage(s, m).deletedAt.None?
  }

  function CurrentList(s: Store, es: seq<Entry>): seq<Conversation> {
    seq(|es|, i requires 0 <= i < |es| => CurrentConversation(s, es[i].conversation))
  }

  /** A list minds, when it replies, that everything in it was read anew. */
  ghost predicate ListStands(s: Store, user: string, es: seq<Entry>) {
    AllKnown(es) ==> PreviewsSim(PreviewsOf(s, user, CurrentList(s, es)), ShownPreviews(es))
  }

  /** What a call is about to use of the copies it holds is what `s` holds. */
  ghost predicate Stands(s: Store, k: Cont, ans: Answer) {
    match ans
    case FoundConversation(Some(c)) => LookupStands(s, k, c)
    case Created(c) => Same(CurrentConversation(s, c), c)
    case FoundMessage(Some(m)) => MessageStands(s, k, m)
    case Stored(m) => CurrentMessage(s, m) == m
    case FoundMessages(page) => CurrentPage(s, page) == page
    case FoundPreview(i, page) =>
      k.PreviewsRead? && i < |k.entries| ==> ListStands(s, k.user, WithAnswer(k.entries, i, page))
    case _ => true
  }

  // One kind of answer after the other.

  lemma CurrentMembers(s: Store, c: Conversation, user: string)
    requires WellFormed(s) && ConversationOk(s, c)
    ensures CurrentConversation(s, c).id == c.id
    ensures multiset(UserIds(CurrentConversation(s, c).participants)) == multiset(UserIds(c.participants))
    ensures IsParticipant(CurrentConversation(s, c), user) <==> IsParticipant(c, user)
  {
    var now := CurrentConversation(s, c);
    var i :| 0 <= i < |s.convs| && s.convs[i].id == c.id
      && multiset(UserIds(s.convs[i].participants)) == multiset(UserIds(c.participants));
    SameId(s.convs, s.convs[i], now);
    assert user in multiset(UserIds(now.participants)) <==> user in multiset(UserIds(c.participants));
  }

  /** The lookups that are followed by something else than a query. */
  predicate Decides(k: Cont) {
    k.LookupForGet? || k.LookupForSend? || k.LookupForClear?
  }

  lemma LookupExactly(s: Store, k: Cont, c: Conversation, now: int)
    requires WellFormed(s) && ConversationOk(s, c) && Decides(k)
    ensures LookupStands(s, k, c) <==>
      TurnSim(AfterLookup(k, Some(CurrentConversation(s, c)), now), AfterLookup(k, Some(c), now))
  {
    CurrentMembers(s, c, k.user);
  }

  /** A lookup that refuses its caller refuses them over either store. */
  lemma DeniedAlike(s: Store, k: Cont, c: Conversation, now: int)
    requires WellFormed(s) && ConversationOk(s, c) && AfterLookup(k, Some(c), now).phase.Finished?
    requires k.LookupForList? || k.LookupForDelete? || k.LookupForMarkRead?
    ensures TurnSim(AfterLookup(k, Some(CurrentConversation(s, c)), now), AfterLookup(k, Some(c), now))
  {
    CurrentMembers(s, c, k.user);
  }

  lemma MessageExactly(s: Store, k: Cont, m: Message, now: int)
    requires WellFormed(s) && Logged(s.msgs, m) && k.MessageForDelete?
    ensures MessageStands(s, k, m) <==>
      TurnSim(AfterMessage(k.cid, k.mid, k.user, Some(CurrentMessage(s, m)), now),
        AfterMessage(k.cid, k.mid, k.user, Some(m), now))
  {
    CurrentIsLogged(s, m);
    var cur := CurrentMessage(s, m);
    assert cur.conversationId == Key(cur).conversationId && cur.senderId == Key(cur).senderId;
    assert m.conversationId == Key(m).conversationId && m.senderId == Key(m).senderId;
  }

  /** A stored message is replied, published and, if it was sent, notified. */
  lemma StoredExactly(k: Cont, k': Cont, cur: Message, m: Message, now: int)
    requires ContSim(k, k')
    ensures TurnSim(Resume(k, Stored(cur), now), Resume(k', Stored(m), now)) <==> cur == m
  {
    if k.SendWritten? {
      SentExactly(k.pids, k'.pids, k.user, cur, m, now);
    } else {
      assert Resume(k, Stored(cur), now) == Turn(Finished(OneMessage(cur)), [cur], []);
      assert Resume(k', Stored(m), now) == Turn(Finished(OneMessage(m)), [m], []);
    }
  }

  lemma SentExactly(pids: seq<string>, pids': seq<string>, user: string, cur: Message, m: Message, now: int)
    requires IdsSim(pids, pids')
    ensures TurnSim(Resume(SendWritten(pids, user), Stored(cur), now), Resume(SendWritten(pids', user), Stored(m), now))
      <==> cur == m
  {
    OthersSim(pids, pids', user);
    var ns, ns' := [Notice(cur, Others(pids, user))], [Notice(m, Others(pids', user))];
    assert NoticesSim(ns, ns') <==> NoticeSim(ns[0], ns'[0]);
  }

  lemma OthersSim(a: seq<string>, b: seq<string>, user: string)
    requires IdsSim(a, b)
    ensures IdsSim(Others(a, user), Others(b, user))
  {
  }

  // All of them.

  /** With the objects of the in-memory store the call does what it does with its copies, exactly if what that uses
      stands. */
  ghost predicate Exactly(s: Store, k: Cont, k': Cont, ans: Answer, now: int) {
    Stands(s, k', ans) <==> TurnSim(Resume(k, Refresh(InMemoryOf(s), ans), now), Resume(k', ans, now))
  }

  /** The next operation may as well be asked for when it executes: it does not carry the present instant, and it is
      not for the host. */
  predicate Postpones(p: Phase) {
    p.Asking? && !p.op.AskGate? && !IsDated(p.op)
  }

  /** The call ends with the answer, or asks for something now; and it does not look at previews. */
  predicate Settles(k: Cont, ans: Answer, now: int) {
    !ans.FoundPreview? && !Postpones(Resume(k, ans, now).phase)
  }

  lemma LookupTurn(s: Store, k: Cont, c: Conversation, call: Call, grants: set<nat>, tid: nat, now: int)
    requires WellFormed(s) && Settles(k, FoundConversation(Some(c)), now)
    requires HoldingOk(s, grants, tid, call, FoundConversation(Some(c)), k)
    ensures Exactly(s, k, k, FoundConversation(Some(c)), now)
  {
    assert c.id == k.cid && ConversationOk(s, c);
    if Decides(k) {
      LookupExactly(s, k, c, now);
    } else {
      DeniedAlike(s, k, c, now);
    }
  }

  lemma AllTurn(s: Store, k: Cont, list: seq<Conversation>, now: int)
    requires k.AllForPreviews? && Settles(k, FoundConversations(list), now)
    ensures Exactly(s, k, k, FoundConversations(list), now)
  {
    assert list != [] ==> Entries(k.user, list)[0].last.Pending?;
    assert Refresh(InMemoryOf(s), FoundConversations([])).list == [];
  }

  lemma MessageTurn(s: Store, k: Cont, m: Message, call: Call, grants: set<nat>, tid: nat, now: int)
    requires WellFormed(s) && HoldingOk(s, grants, tid, call, FoundMessage(Some(m)), k)
    ensures Exactly(s, k, k, FoundMessage(Some(m)), now)
  {
    assert k.MessageForDelete?;
    MessageExactly(s, k, m, now);
  }

  lemma StoredTurn(s: Store, k: Cont, k': Cont, m: Message, now: int)
    requires ContSim(k, k')
    ensures Exactly(s, k, k', Stored(m), now)
  {
    StoredExactly(k, k', CurrentMessage(s, m), m, now);
  }

  /** The other answers hold no copies but of a page, or a conversation, that is the whole reply. */
  lemma PlainTurn(s: Store, k: Cont, k': Cont, ans: Answer, now: int)
    requires ContSim(k, k')
    requires ans.Thrown? || ans.Created? || ans.Acknowledged? || ans.FoundMessages?
      || ans == FoundConversation(None) || ans == FoundMessage(None)
    ensures Exactly(s, k, k', ans, now)
  {
  }

  lemma GateTurn(s: Store, k: Cont, k': Cont, allowed: bool, now: int)
    requires ContSim(k, k') && Settles(k', GateSays(allowed), now)
    ensures Exactly(s, k, k', GateSays(allowed), now)
  {
  }

  lemma TurnExactly(s: Store, k: Cont, k': Cont, ans: Answer, call: Call, grants: set<nat>, tid: nat, now: int)
    requires WellFormed(s) && ContSim(k, k') && Settles(k', ans, now)
    requires HoldingOk(s, grants, tid, call, ans, k') && !ans.NotUpdated?
    ensures Stands(s, k', ans) <==> TurnSim(Resume(k, Refresh(InMemoryOf(s), ans), now), Resume(k', ans, now))
  {
    assert Exactly(s, k, k', ans, now) by {
      if ans.FoundConversation? && ans.found.Some? {
        assert k == k';
        LookupTurn(s, k', ans.found.value, call, grants, tid, now);
      } else if ans.FoundConversations? {
        assert k == k' && k.AllForPreviews?;
        AllTurn(s, k', ans.list, now);
      } else if ans.FoundMessage? && ans.message.Some? {
        assert k == k';
        MessageTurn(s, k', ans.message.value, call, grants, tid, now);
      } else if ans.Stored? {
        StoredTurn(s, k, k', ans.stored, now);
      } else if ans.GateSays? {
        GateTurn(s, k, k', ans.allowed, now);
      } else {
        PlainTurn(s, k, k', ans, now);
      }
    }
  }
}
