/** What holds in every interleaving of service calls, over either store. */
module Concurrency {
  import opened Domain
  import opened Stores
  import opened Service
  import opened Machine

  // One operation.

  lemma FoundIsMember(s: Store, cid: string, env: Env, s': Store, ans: Answer)
    requires Exec(s, FindConversation(cid), env, s', ans)
    ensures ans.FoundConversation? && s' == s
    ensures ans.found.Some? ==>
      ans.found.value.id == cid && MembersAre(s.convs, cid, UserIds(ans.found.value.participants))
  {
    var c := Find(s.convs, cid);
    if ans.found.Some? {
      UserIdsPermute(ans.found.value.participants, c.value.participants);
      var i :| 0 <= i < |s.convs| && s.convs[i] == c.value;
      assert MembersAre(s.convs, cid, UserIds(ans.found.value.participants));
    }
  }

  lemma SendIsStored(s: Store, call: Call, pids: seq<string>, env: Env, s': Store, ans: Answer)
    requires call.Send? && MembersAre(s.convs, call.cid, pids)
    requires Exec(s, CreateMessage(call.cid, call.user, call.body), env, s', ans)
    ensures ans == Stored(Message(env.id, call.cid, call.user, call.body, env.now, None))
    ensures s' == s.(msgs := s.msgs + [ans.stored])
    ensures Logged(s'.msgs, ans.stored)
  {
    var i :| 0 <= i < |s.convs| && s.convs[i].id == call.cid
      && multiset(UserIds(s.convs[i].participants)) == multiset(pids);
    assert s'.msgs[|s.msgs|] == ans.stored;
  }

  /** An owned message is always found by softDelete, which answers its one tombstone; when the UPDATE of the
      database matches no row, that is because the tombstone is there already. */
  lemma TombstoneIsLogged(s: Store, cid: string, mid: string, user: string, op: Op, env: Env, s': Store, ans: Answer)
    requires WellFormed(s) && Owns(s.msgs, cid, mid, user) && Exec(s, op, env, s', ans)
    requires (op.SoftDelete? && op.mid == mid) || (op == SelectDeleted(mid) && Erased(s.msgs, mid))
    ensures s'.convs == s.convs && Owns(s'.msgs, cid, mid, user)
    ensures if ans.NotUpdated? then op.SoftDelete? && ans.mid == mid && Erased(s'.msgs, mid)
      else
        && ans.Stored? && ans.stored.id == mid && ans.stored.conversationId == cid && ans.stored.senderId == user
        && ans.stored.deletedAt.Some? && Logged(s'.msgs, ans.stored)
  {
    var i :| 0 <= i < |s.msgs| && s.msgs[i].id == mid && s.msgs[i].conversationId == cid && s.msgs[i].senderId == user;
    FindByIdUnique(s.msgs, i);
    assert s'.msgs[i].id == mid && s'.msgs[i].conversationId == cid && s'.msgs[i].senderId == user;
    if op.SelectDeleted? {
      var j :| 0 <= j < |s.msgs| && s.msgs[j].id == mid && s.msgs[j].deletedAt.Some?;
      FindByIdUnique(s.msgs, j);
    }
    assert ans.Stored? ==> s'.msgs[i] == ans.stored;
  }

  lemma FoundAllOk(s: Store, user: string, env: Env, s': Store, ans: Answer)
    requires Exec(s, FindByParticipant(user), env, s', ans)
    ensures s' == s && ans.FoundConversations?
    ensures forall i :: 0 <= i < |ans.list| ==> ConversationOk(s, ans.list[i])
  {
    forall i | 0 <= i < |ans.list|
      ensures ConversationOk(s, ans.list[i])
    {
      var c := ans.list[i];
      assert c in ans.list;
      if s.kind.InMemory? {
        ConcerningStored(s.convs, user, c);
      } else {
        var d := Find(Concerning(s.convs, user), c.id).value;
        ConcerningStored(s.convs, user, d);
        UserIdsPermute(c.participants, d.participants);
      }
    }
  }

  lemma {:induction false} ConcerningStored(cs: seq<Conversation>, user: string, c: Conversation)
    requires c in Concerning(cs, user)
    ensures exists i :: 0 <= i < |cs| && cs[i] == c && IsParticipant(c, user)
  {
    var front, last := cs[..|cs| - 1], cs[|cs| - 1];
    if c in Concerning(front, user) {
      ConcerningStored(front, user, c);
      var i :| 0 <= i < |front| && front[i] == c && IsParticipant(c, user);
      assert cs[i] == c;
    } else {
      assert c == last && cs[|cs| - 1] == c;
    }
  }

  lemma FoundPreviewOk(s: Store, entries: seq<Entry>, env: Env, s': Store, ans: Answer)
    requires Exec(s, QueryPreviews(Queries(entries)), env, s', ans)
    ensures s' == s && ans.FoundPreview? && ans.i < |entries| && entries[ans.i].last.Pending?
    ensures forall j :: 0 <= j < |ans.page| ==> ans.page[j] in s.msgs && Logged(s.msgs, ans.page[j])
  {
    var e := entries[ans.i];
    PageIsLogged(s, e.conversation.id, PreviewOptions(e.clearedAt), ans.page);
  }

  /** The answer to what a thread waits for is one it can continue with. */
  lemma ExecuteOk(s: Store, grants: set<nat>, tid: nat, call: Call, op: Op, k: Cont, env: Env, s': Store, ans: Answer)
    requires WellFormed(s) && WaitingOk(s, grants, tid, call, op, k) && Exec(s, op, env, s', ans)
    ensures HoldingOk(s', if ans == GateSays(true) then grants + {tid} else grants, tid, call, ans, k)
  {
    if op.FindConversation? {
      LookupExecuteOk(s, grants, tid, call, op, k, env, s', ans);
    } else if op.FindByParticipant? || op.QueryPreviews? || op.FindMessage? {
      ReadExecuteOk(s, grants, tid, call, op, k, env, s', ans);
    } else if op.CreateMessage? || op.SoftDelete? || op.SelectDeleted? {
      WriteExecuteOk(s, grants, tid, call, op, k, env, s', ans);
    } else {
      PlainExecuteOk(s, grants, tid, call, op, k, env, s', ans);
    }
  }

  lemma LookupExecuteOk(s: Store, grants: set<nat>, tid: nat, call: Call, op: Op, k: Cont, env: Env, s': Store,
      ans: Answer)
    requires WaitingOk(s, grants, tid, call, op, k) && Exec(s, op, env, s', ans) && op.FindConversation?
    ensures HoldingOk(s', if ans == GateSays(true) then grants + {tid} else grants, tid, call, ans, k)
  {
    FoundIsMember(s, op.cid, env, s', ans);
  }

  lemma ReadExecuteOk(s: Store, grants: set<nat>, tid: nat, call: Call, op: Op, k: Cont, env: Env, s': Store,
      ans: Answer)
    requires WaitingOk(s, grants, tid, call, op, k) && Exec(s, op, env, s', ans)
    requires op.FindByParticipant? || op.QueryPreviews? || op.FindMessage?
    ensures HoldingOk(s', if ans == GateSays(true) then grants + {tid} else grants, tid, call, ans, k)
  {
    if op.FindByParticipant? {
      FoundAllOk(s, op.user, env, s', ans);
    } else if op.QueryPreviews? {
      FoundPreviewOk(s, k.entries, env, s', ans);
    } else if ans.message.Some? {
      assert Logged(s.msgs, ans.message.value);
    }
  }

  lemma WriteExecuteOk(s: Store, grants: set<nat>, tid: nat, call: Call, op: Op, k: Cont, env: Env, s': Store,
      ans: Answer)
    requires WellFormed(s) && WaitingOk(s, grants, tid, call, op, k) && Exec(s, op, env, s', ans)
    requires op.CreateMessage? || op.SoftDelete? || op.SelectDeleted?
    ensures HoldingOk(s', if ans == GateSays(true) then grants + {tid} else grants, tid, call, ans, k)
  {
    if op.CreateMessage? {
      SendIsStored(s, call, k.pids, env, s', ans);
    } else {
      TombstoneIsLogged(s, call.cid, call.mid, call.user, op, env, s', ans);
    }
  }

  /** What is answered with no more than a yes, or with what is the reply. */
  lemma PlainExecuteOk(s: Store, grants: set<nat>, tid: nat, call: Call, op: Op, k: Cont, env: Env, s': Store,
      ans: Answer)
    requires WaitingOk(s, grants, tid, call, op, k) && Exec(s, op, env, s', ans)
    requires op.AskGate? || op.CreateConversation? || op.ListMessages? || op.MarkParticipant?
    ensures HoldingOk(s', if ans == GateSays(true) then grants + {tid} else grants, tid, call, ans, k)
  {
    if op.CreateConversation? && ans.Created? {
      assert s'.convs[|s.convs|] == ans.conversation;
    } else if op.ListMessages? {
      PageIsLogged(s, op.cid, op.o, ans.page);
    }
  }

  lemma PageIsLogged(s: Store, cid: string, o: ListOptions, page: seq<Message>)
    requires Lists(s.kind, s.msgs, cid, o, page)
    ensures forall j :: 0 <= j < |page| ==> page[j] in s.msgs && Logged(s.msgs, page[j])
  {
    forall j | 0 <= j < |page|
      ensures page[j] in s.msgs && Logged(s.msgs, page[j])
    {
      ListsStored(s.kind, s.msgs, cid, o, page, page[j]);
    }
  }

  // One continuation.

  lemma CurrentIsLogged(s: Store, m: Message)
    requires WellFormed(s) && Logged(s.msgs, m)
    ensures Key(CurrentMessage(s, m)) == Key(m) && Logged(s.msgs, CurrentMessage(s, m))
    ensures Becomes(m, CurrentMessage(s, m))
  {
    var i :| 0 <= i < |s.msgs| && Becomes(m, s.msgs[i]);
    FindByIdUnique(s.msgs, i);
  }

  lemma CurrentPageIsLogged(s: Store, page: seq<Message>)
    requires WellFormed(s)
    ensures (forall i :: 0 <= i < |page| ==> Logged(s.msgs, page[i])) ==>
      forall i :: 0 <= i < |page| ==> Logged(s.msgs, CurrentPage(s, page)[i])
  {
    forall i | 0 <= i < |page| && Logged(s.msgs, page[i])
      ensures Logged(s.msgs, CurrentPage(s, page)[i])
    {
      CurrentIsLogged(s, page[i]);
    }
  }

  lemma CurrentIsMember(s: Store, c: Conversation)
    requires MembersAre(s.convs, c.id, UserIds(c.participants))
    ensures CurrentConversation(s, c).id == c.id
    ensures MembersAre(s.convs, c.id, UserIds(CurrentConversation(s, c).participants))
  {
    var now := CurrentConversation(s, c);
    var i :| 0 <= i < |s.convs| && s.convs[i] == now;
  }

  lemma RefreshOk(s: Store, grants: set<nat>, tid: nat, call: Call, ans: Answer, k: Cont)
    requires WellFormed(s) && HoldingOk(s, grants, tid, call, ans, k)
    ensures HoldingOk(s, grants, tid, call, Refresh(s, ans), k)
  {
    if s.kind.InMemory? {
      match ans
      case FoundConversation(Some(c)) =>
        assert c.id == k.cid;
        CurrentIsMember(s, c);
      case FoundMessage(Some(m)) => CurrentIsLogged(s, m);
      case Stored(m) => CurrentIsLogged(s, m);
      case FoundConversations(list) =>
        forall i | 0 <= i < |list| && k.AllForPreviews?
          ensures ConversationOk(s, CurrentConversation(s, list[i]))
        {
          CurrentIsMember(s, list[i]);
        }
      case Created(c) =>
        if k.CreateWritten? {
          CurrentIsMember(s, c);
        }
      case FoundPreview(_, page) => CurrentPageIsLogged(s, page);
      case FoundMessages(page) => CurrentPageIsLogged(s, page);
      case _ =>
    }
  }

  lemma CurrentEntryOk(s: Store, e: Entry)
    requires WellFormed(s) && EntryOk(s, e)
    ensures EntryOk(s, CurrentEntry(s, e))
    ensures CurrentEntry(s, e).conversation.id == e.conversation.id
  {
    CurrentIsMember(s, e.conversation);
    if e.last.Known? && e.last.message.Some? {
      CurrentIsLogged(s, e.last.message.value);
    }
  }

  lemma RefreshKeptOk(s: Store, grants: set<nat>, tid: nat, call: Call, ans: Answer, k: Cont)
    requires WellFormed(s) && HoldingOk(s, grants, tid, call, ans, k)
    ensures HoldingOk(s, grants, tid, call, ans, RefreshKept(s, k))
  {
    if s.kind.InMemory? && k.PreviewsRead? {
      forall i | 0 <= i < |k.entries|
        ensures EntryOk(s, RefreshKept(s, k).entries[i])
      {
        CurrentEntryOk(s, k.entries[i]);
      }
    }
  }

  /** With everything it holds brought up to date, a call is as well off as it was. */
  lemma BothOk(s: Store, grants: set<nat>, tid: nat, call: Call, ans: Answer, k: Cont)
    requires WellFormed(s) && HoldingOk(s, grants, tid, call, ans, k)
    ensures HoldingOk(s, grants, tid, call, Refresh(s, ans), RefreshKept(s, k))
  {
    RefreshOk(s, grants, tid, call, ans, k);
    RefreshKeptOk(s, grants, tid, call, Refresh(s, ans), k);
  }

  lemma AfterPreviewsOk(s: Store, grants: set<nat>, tid: nat, call: Call, es: seq<Entry>)
    requires call.ListConversations? && EntriesOk(s, es)
    ensures ThreadOk(s, grants, tid, AsThread(call, AfterPreviews(call.user, es)))
  {
  }

  lemma MembersInclude(cs: seq<Conversation>, cid: string, ps: seq<Participant>, user: string)
    requires MembersAre(cs, cid, UserIds(ps)) && user in UserIds(ps)
    ensures Member(cs, cid, user)
  {
    MemberOfMembers(cs, cid, UserIds(ps), user);
  }

  lemma LookupOk(s: Store, grants: set<nat>, tid: nat, call: Call, c: Conversation, k: Cont, now: int)
    requires HoldingOk(s, grants, tid, call, FoundConversation(Some(c)), k)
    ensures ThreadOk(s, grants, tid, AsThread(call, AfterLookup(k, Some(c), now).phase))
  {
    if IsParticipant(c, call.user) {
      MembersInclude(s.convs, k.cid, c.participants, call.user);
    }
  }

  lemma MessageOk(s: Store, grants: set<nat>, tid: nat, call: Call, m: Message, k: Cont, now: int)
    requires WellFormed(s) && HoldingOk(s, grants, tid, call, FoundMessage(Some(m)), k)
    ensures ThreadOk(s, grants, tid, AsThread(call, AfterMessage(k.cid, k.mid, k.user, Some(m), now).phase))
  {
    var i :| 0 <= i < |s.msgs| && Becomes(m, s.msgs[i]);
    assert m.conversationId == k.cid && m.senderId == k.user ==> Owns(s.msgs, k.cid, k.mid, k.user);
  }

  lemma ResumeOk(s: Store, grants: set<nat>, tid: nat, call: Call, ans: Answer, k: Cont, now: int)
    requires WellFormed(s) && HoldingOk(s, grants, tid, call, ans, k)
    ensures var u := Resume(k, ans, now);
      && ThreadOk(s, grants, tid, AsThread(call, u.phase))
      && (forall m :: m in u.published ==> u.phase == Finished(OneMessage(m)) && Logged(s.msgs, m))
      && (k.SendWritten? ==> u.phase == Finished(OneMessage(ans.stored)))
  {
    if ans.FoundConversation? && ans.found.Some? {
      LookupOk(s, grants, tid, call, ans.found.value, k, now);
    } else if ans.FoundMessage? && ans.message.Some? {
      MessageOk(s, grants, tid, call, ans.message.value, k, now);
    } else if ans.FoundConversations? {
      AfterPreviewsOk(s, grants, tid, call, Entries(call.user, ans.list));
    } else if ans.FoundPreview? {
      AfterPreviewsOk(s, grants, tid, call, WithAnswer(k.entries, ans.i, ans.page));
    } else if ans.GateSays? {
      GateOk(s, grants, tid, call, ans, k, now);
    }
  }

  lemma GateOk(s: Store, grants: set<nat>, tid: nat, call: Call, ans: Answer, k: Cont, now: int)
    requires HoldingOk(s, grants, tid, call, ans, k) && ans.GateSays?
    ensures var u := Resume(k, ans, now);
      ThreadOk(s, grants, tid, AsThread(call, u.phase)) && u.published == [] && !k.SendWritten?
  {
  }

  // One step.

  lemma OthersKeep(s: Sys, s': Sys, tid: nat)
    requires Inv(s) && Keeps(s.store.convs, s'.store.convs) && Appends(s.store.msgs, s'.store.msgs)
    requires s.grants <= s'.grants
    requires forall t :: t in s'.threads && t != tid ==> t in s.threads && s'.threads[t] == s.threads[t]
    requires forall t :: t in s.threads && t != tid ==> t in s'.threads
    requires tid in s'.threads && ThreadOk(s'.store, s'.grants, tid, s'.threads[tid])
    ensures forall t :: t in s'.threads ==> ThreadOk(s'.store, s'.grants, t, s'.threads[t])
  {
    forall t | t in s'.threads
      ensures ThreadOk(s'.store, s'.grants, t, s'.threads[t])
    {
      if t != tid {
        ThreadKeeps(s.store, s'.store, s.grants, s'.grants, t, s.threads[t]);
      }
    }
  }

  /** A step of a running thread that posts nothing leaves the outbox as it was. */
  lemma OutboxKeeps(s: Sys, s': Sys, tid: nat)
    requires Inv(s) && Keeps(s.store.convs, s'.store.convs) && Appends(s.store.msgs, s'.store.msgs)
    requires s'.published == s.published && s'.notified == s.notified
    requires forall t :: t in s.threads && t != tid ==> t in s'.threads && s'.threads[t] == s.threads[t]
    requires forall t :: t in s'.threads && t != tid ==> t in s.threads
    requires tid in s.threads ==> !s.threads[tid].Ended?
    requires !Sent(s', tid)
    ensures OutboxOk(s')
  {
    forall p | p in s.published
      ensures PostOk(s', p)
    {
      assert PostOk(s, p);
      LoggedKeep(s.store.msgs, s'.store.msgs, p.message);
    }
    forall p | p in s.notified
      ensures PushOk(s', p)
    {
      PushKeeps(s, s', p);
    }
    forall t | Sent(s', t)
      ensures Posted(s', t) && Pushed(s', t)
    {
      assert Sent(s, t);
    }
  }

  lemma PushKeeps(s: Sys, s': Sys, p: Push)
    requires PushOk(s, p) && Keeps(s.store.convs, s'.store.convs)
    requires p.tid in s'.threads && s'.threads[p.tid] == s.threads[p.tid]
    ensures PushOk(s', p)
  {
    var call := s.threads[p.tid].call;
    var pids :| MembersAre(s.store.convs, call.cid, pids) && p.notice.recipients == Others(pids, call.user);
    MembersKeep(s.store.convs, s'.store.convs, call.cid, pids, call.user);
  }

  /** Messages other than a new one keep their authors. */
  lemma AuthorKeeps(s: Sys, s': Sys, tid: nat, i: nat)
    requires LogOk(s) && i < |s.authors|
    requires Keeps(s.store.convs, s'.store.convs) && s.grants <= s'.grants && i < |s'.store.msgs|
    requires s'.store.msgs[i] == s.store.msgs[i] || exists at :: s'.store.msgs[i] == Tombstone(s.store.msgs[i], at)
    requires s.authors[i] in s'.threads && s'.threads[s.authors[i]].call == s.threads[s.authors[i]].call
    requires Wrote(s'.threads[s.authors[i]])
    ensures AuthoredBy(s', s'.store.msgs[i], s.authors[i])
  {
    assert AuthoredBy(s, s.store.msgs[i], s.authors[i]);
    var call := s.threads[s.authors[i]].call;
    MembersKeep(s.store.convs, s'.store.convs, call.cid, [], call.user);
  }

  lemma StartOk(s: Store, grants: set<nat>, tid: nat, call: Call)
    ensures ThreadOk(s, grants, tid, AsThread(call, Start(call)))
    ensures var th := AsThread(call, Start(call)); th.Ended? ==> th.reply.Refused?
  {
  }

  lemma BeginKeeps(s: Sys, tid: nat, call: Call, s': Sys)
    requires Inv(s) && Next(s, Begin(tid, call), s')
    ensures Inv(s')
  {
    StartOk(s.store, s.grants, tid, call);
    OthersKeep(s, s', tid);
    forall i | 0 <= i < |s.authors|
      ensures AuthoredBy(s', s'.store.msgs[i], s'.authors[i])
    {
      assert AuthoredBy(s, s.store.msgs[i], s.authors[i]);
    }
    OutboxKeeps(s, s', tid);
  }

  lemma ExecuteAuthor(s: Sys, tid: nat, env: Env, s': Sys, ans: Answer, i: nat)
    requires Inv(s) && tid in s.threads && s.threads[tid].Waiting? && i < |s.authors|
    requires Exec(s.store, s.threads[tid].op, env, s'.store, ans) && s' == Executed(s, tid, s'.store, ans)
    ensures s.authors[i] != tid && i < |s'.store.msgs| && AuthoredBy(s', s'.store.msgs[i], s.authors[i])
  {
    assert AuthoredBy(s, s.store.msgs[i], s.authors[i]);
    ExecKeeps(s.store, s.threads[tid].op, env, s'.store, ans);
    AuthorKeeps(s, s', tid, i);
  }

  lemma ExecuteLog(s: Sys, tid: nat, env: Env, s': Sys, ans: Answer)
    requires Inv(s) && tid in s.threads && s.threads[tid].Waiting?
    requires Exec(s.store, s.threads[tid].op, env, s'.store, ans) && s' == Executed(s, tid, s'.store, ans)
    ensures LogOk(s')
  {
    var th := s.threads[tid];
    assert ThreadOk(s.store, s.grants, tid, th);
    forall i | 0 <= i < |s.authors|
      ensures s.authors[i] != tid && i < |s'.store.msgs| && AuthoredBy(s', s'.store.msgs[i], s.authors[i])
    {
      ExecuteAuthor(s, tid, env, s', ans, i);
    }
    if th.op.CreateMessage? {
      NewAuthor(s, tid, env, s', ans);
    }
  }

  lemma NewAuthor(s: Sys, tid: nat, env: Env, s': Sys, ans: Answer)
    requires Inv(s) && tid in s.threads && s.threads[tid].Waiting? && s.threads[tid].op.CreateMessage?
    requires Exec(s.store, s.threads[tid].op, env, s'.store, ans) && s' == Executed(s, tid, s'.store, ans)
    ensures ans.Stored? && s'.store.msgs == s.store.msgs + [ans.stored]
    ensures AuthoredBy(s', ans.stored, tid)
  {
    var th := s.threads[tid];
    assert ThreadOk(s.store, s.grants, tid, th);
    SendIsStored(s.store, th.call, th.k.pids, env, s'.store, ans);
    MemberOfMembers(s.store.convs, th.call.cid, th.k.pids, th.call.user);
  }

  lemma ExecuteKeeps(s: Sys, tid: nat, id: string, gate: bool, s': Sys)
    requires Inv(s) && Next(s, Execute(tid, id, gate), s')
    ensures Inv(s')
  {
    var th := s.threads[tid];
    var env := Env(id, s.clock, gate);
    var ans :| Exec(s.store, th.op, env, s'.store, ans) && s' == Executed(s, tid, s'.store, ans);
    assert ThreadOk(s.store, s.grants, tid, th);
    ExecKeeps(s.store, th.op, env, s'.store, ans);
    ExecuteOk(s.store, s.grants, tid, th.call, th.op, th.k, env, s'.store, ans);
    OthersKeep(s, s', tid);
    ExecuteLog(s, tid, env, s', ans);
    OutboxKeeps(s, s', tid);
  }

  lemma ContinueLog(s: Sys, tid: nat, s': Sys)
    requires Inv(s) && Next(s, Continue(tid), s')
    requires s.threads[tid].k.SendWritten? ==> s'.threads[tid].Ended? && s'.threads[tid].reply.OneMessage?
    ensures LogOk(s')
  {
    assert ThreadOk(s.store, s.grants, tid, s.threads[tid]);
    forall i | 0 <= i < |s.authors|
      ensures AuthoredBy(s', s'.store.msgs[i], s'.authors[i])
    {
      assert AuthoredBy(s, s.store.msgs[i], s.authors[i]);
      AuthorKeeps(s, s', tid, i);
    }
  }

  /** Only a write is posted, only a send's write is pushed, and a send only succeeds through its write. */
  lemma ResumeEffects(s: Store, grants: set<nat>, tid: nat, call: Call, ans: Answer, k: Cont, now: int)
    requires HoldingOk(s, grants, tid, call, ans, k)
    ensures var u := Resume(k, ans, now);
      if !ans.Stored? then
        && u.published == [] && u.notified == []
        && !(call.Send? && u.phase.Finished? && u.phase.reply.OneMessage?)
      else
        && u.published == [ans.stored] && u.phase == Finished(OneMessage(ans.stored))
        && (call.Send? <==> k.SendWritten?)
        && u.notified == if k.SendWritten? then [Notice(ans.stored, Others(k.pids, call.user))] else []
  {
  }

  /** The continuing thread: where it goes, and what it posts. */
  lemma ContinueThread(s: Sys, tid: nat, s': Sys)
    requires Inv(s) && Next(s, Continue(tid), s')
    ensures ThreadOk(s'.store, s'.grants, tid, s'.threads[tid])
    ensures s.threads[tid].k.SendWritten? ==> Sent(s', tid)
  {
    var th := s.threads[tid];
    assert ThreadOk(s.store, s.grants, tid, th);
    BothOk(s.store, s.grants, tid, th.call, th.ans, th.k);
    ResumeOk(s.store, s.grants, tid, th.call, Refresh(s.store, th.ans), RefreshKept(s.store, th.k), s.clock);
  }

  lemma PushedToOthers(s: Sys, tid: nat, ans: Answer, k: Cont, s': Sys)
    requires tid in s'.threads && s'.store == s.store && s'.threads[tid].Ended? && k.SendWritten?
    requires HoldingOk(s.store, s.grants, tid, s'.threads[tid].call, ans, k)
    requires s'.threads[tid].reply == OneMessage(ans.stored)
    ensures PushOk(s', Push(tid, Notice(ans.stored, Others(k.pids, s'.threads[tid].call.user))))
  {
  }

  lemma EffectsOk(s: Sys, tid: nat, ans: Answer, s': Sys) returns (posts: seq<Post>, pushes: seq<Push>)
    requires tid in s.threads && s.threads[tid].Holding? && s' == Continued(s, tid)
    requires ans == Refresh(s.store, s.threads[tid].ans)
    requires HoldingOk(s.store, s.grants, tid, s.threads[tid].call, ans, RefreshKept(s.store, s.threads[tid].k))
    ensures s'.published == s.published + posts && s'.notified == s.notified + pushes
    ensures |posts| <= 1 && |pushes| <= 1
    ensures forall p :: p in posts ==> p.tid == tid && PostOk(s', p)
    ensures forall p :: p in pushes ==> p.tid == tid && PushOk(s', p)
    ensures Sent(s', tid) ==> posts != [] && pushes != []
  {
    var th := s.threads[tid];
    var k := RefreshKept(s.store, th.k);
    ResumeEffects(s.store, s.grants, tid, th.call, ans, k, s.clock);
    var u := Resume(k, ans, s.clock);
    posts, pushes := Posts(tid, u.published), Pushes(tid, u.notified);
    if ans.Stored? {
      assert posts[0] == Post(tid, ans.stored);
      if k.SendWritten? {
        PushedToOthers(s, tid, ans, k, s');
        assert pushes[0] == Push(tid, Notice(ans.stored, Others(k.pids, th.call.user)));
      }
    }
  }

  lemma ContinuePosts(s: Sys, tid: nat, s': Sys) returns (posts: seq<Post>, pushes: seq<Push>)
    requires Inv(s) && Next(s, Continue(tid), s')
    ensures s'.published == s.published + posts && s'.notified == s.notified + pushes
    ensures |posts| <= 1 && |pushes| <= 1
    ensures forall p :: p in posts ==> p.tid == tid && PostOk(s', p)
    ensures forall p :: p in pushes ==> p.tid == tid && PushOk(s', p)
    ensures Sent(s', tid) ==> posts != [] && pushes != []
  {
    var th := s.threads[tid];
    assert ThreadOk(s.store, s.grants, tid, th);
    BothOk(s.store, s.grants, tid, th.call, th.ans, th.k);
    posts, pushes := EffectsOk(s, tid, Refresh(s.store, th.ans), s');
  }

  lemma ContinuePostsOk(s: Sys, tid: nat, s': Sys)
    requires Inv(s) && Next(s, Continue(tid), s')
    ensures PostsOk(s')
  {
    var posts, _ := ContinuePosts(s, tid, s');
    forall p | p in s.published
      ensures p.tid != tid && PostOk(s', p)
    {
      assert PostOk(s, p);
    }
  }

  lemma ContinuePushesOk(s: Sys, tid: nat, s': Sys)
    requires Inv(s) && Next(s, Continue(tid), s')
    ensures PushesOk(s')
  {
    var _, pushes := ContinuePosts(s, tid, s');
    forall p | p in s.notified
      ensures p.tid != tid && PushOk(s', p)
    {
      EarlierPush(s, tid, s', p);
    }
  }

  lemma EarlierPush(s: Sys, tid: nat, s': Sys, p: Push)
    requires PushOk(s, p) && Next(s, Continue(tid), s')
    ensures p.tid != tid && PushOk(s', p)
  {
    PushKeeps(s, s', p);
  }

  lemma ContinueSent(s: Sys, tid: nat, s': Sys, t: nat)
    requires Inv(s) && Next(s, Continue(tid), s') && Sent(s', t)
    ensures Posted(s', t) && Pushed(s', t)
  {
    var posts, pushes := ContinuePosts(s, tid, s');
    if t == tid {
      assert posts[0] in s'.published && pushes[0] in s'.notified;
    } else {
      assert Sent(s, t);
      var p :| p in s.published && p.tid == t;
      var q :| q in s.notified && q.tid == t;
      assert p in s'.published && q in s'.notified;
    }
  }

  lemma ContinueKeeps(s: Sys, tid: nat, s': Sys)
    requires Inv(s) && Next(s, Continue(tid), s')
    ensures Inv(s')
  {
    ContinueThread(s, tid, s');
    OthersKeep(s, s', tid);
    ContinueLog(s, tid, s');
    ContinuePostsOk(s, tid, s');
    ContinuePushesOk(s, tid, s');
    forall t | Sent(s', t)
      ensures Posted(s', t) && Pushed(s', t)
    {
      ContinueSent(s, tid, s', t);
    }
  }

  /** The invariant holds along every run of every interleaving. */
  lemma {:induction false} RunInv(ss: seq<Sys>, ls: seq<Label>, i: nat)
    requires Run(ss, ls) && i < |ss|
    ensures Inv(ss[i])
  {
    if i > 0 {
      RunInv(ss, ls, i - 1);
      var s, s' := ss[i - 1], ss[i];
      assert Moves(ss, ls, i - 1);
      match ls[i - 1]
      case Begin(tid, call) => BeginKeeps(s, tid, call, s');
      case Execute(tid, id, gate) => ExecuteKeeps(s, tid, id, gate, s');
      case Continue(tid) => ContinueKeeps(s, tid, s');
      case Tick(_) => TickKeeps(s, s');
    }
  }

  lemma TickKeeps(s: Sys, s': Sys)
    requires Inv(s) && s' == s.(clock := s'.clock)
    ensures Inv(s')
  {
    forall i | 0 <= i < |s.authors|
      ensures AuthoredBy(s', s'.store.msgs[i], s'.authors[i])
    {
      assert AuthoredBy(s, s.store.msgs[i], s.authors[i]);
    }
    forall p | p in s.published
      ensures PostOk(s', p)
    {
      assert PostOk(s, p);
    }
    forall p | p in s.notified
      ensures PushOk(s', p)
    {
      PushKeeps(s, s', p);
    }
    forall t | Sent(s', t)
      ensures Posted(s', t) && Pushed(s', t)
    {
      assert Sent(s, t);
    }
  }
}
