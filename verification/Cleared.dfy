/** Deleting a conversation for oneself: what it hides, over whole runs of interleaved calls, and when history
    that was hidden can come back. src/core/messaging-service.ts:137-152, 199-212 */
module Cleared {
  import opened Domain
  import opened Query
  import opened Rows
  import opened Stores
  import opened Service
  import opened Machine
  import opened Concurrency
  import opened Safety
  import opened Sequential

  /** The instant with which this step clears conversation `cid` for `user`, if it does. */
  function ClearsAt(s: Sys, l: Label, cid: string, user: string): Option<int> {
    if l.Execute? && l.tid in s.threads && s.threads[l.tid].Waiting? && s.threads[l.tid].op.MarkParticipant?
       && s.threads[l.tid].op.cid == cid && s.threads[l.tid].op.user == user && s.threads[l.tid].op.mark.Cleared?
    then Some(s.threads[l.tid].op.mark.at)
    else None
  }

  /** The instant written by the last deleteConversation of `user` on `cid` among the first n steps. */
  function LatestClear(ss: seq<Sys>, ls: seq<Label>, n: nat, cid: string, user: string): Option<int>
    requires n <= |ls| < |ss|
  {
    if n == 0 then None
    else
      var at := ClearsAt(ss[n - 1], ls[n - 1], cid, user);
      if at.Some? then at else LatestClear(ss, ls, n - 1, cid, user)
  }

  // clearedAt is the latest clear.

  lemma {:induction false} StampFirstFinds(ps: seq<Participant>, v: string, mark: Mark, user: string)
    ensures var p := FindParticipant(ps, user);
      FindParticipant(StampFirst(ps, v, mark), user) ==
        if v == user && p.Some? then Some(Stamp(p.value, mark)) else p
  {
    if ps != [] && ps[0].userId != v {
      StampFirstFinds(ps[1..], v, mark, user);
      assert StampFirst(ps, v, mark)[1..] == StampFirst(ps[1..], v, mark);
    } else if ps != [] {
      assert StampFirst(ps, v, mark)[1..] == ps[1..];
    }
  }

  lemma {:induction false} FreshFinds(pids: seq<string>, user: string)
    ensures FindParticipant(Fresh(pids), user).Some? ==> FindParticipant(Fresh(pids), user).value.clearedAt == None
  {
    if pids != [] {
      assert Fresh(pids)[1..] == Fresh(pids[1..]);
      FreshFinds(pids[1..], user);
    }
  }

  lemma MarkedClearedAt(c: Conversation, cid: string, v: string, mark: Mark, user: string)
    requires IsParticipant(c, user)
    ensures ClearedAt(Restamp(c, cid, v, mark), user) ==
      if c.id == cid && v == user && mark.Cleared? then Some(mark.at) else ClearedAt(c, user)
  {
    StampFirstFinds(c.participants, v, mark, user);
  }

  ghost predicate Exists(cs: seq<Conversation>, cid: string) {
    exists i :: 0 <= i < |cs| && cs[i].id == cid
  }

  /** One step: a clear sets clearedAt of its own participant, nothing else touches any. */
  lemma StepClears(s: Sys, l: Label, s': Sys, k: nat, user: string)
    requires Inv(s) && Next(s, l, s') && k < |s'.store.convs|
    requires IsParticipant(s'.store.convs[k], user)
    ensures var c' := s'.store.convs[k];
      var at := ClearsAt(s, l, c'.id, user);
      && (k >= |s.store.convs| ==> ClearedAt(c', user) == None && at == None && !Exists(s.store.convs, c'.id))
      && (k < |s.store.convs| ==>
            SameMembers(s.store.convs[k], c') && ClearedAt(c', user) == if at.Some? then at
              else ClearedAt(s.store.convs[k], user))
  {
    StepKeeps(s, l, s');
    if k < |s.store.convs| {
      assert SameMembers(s.store.convs[k], s'.store.convs[k]);
    }
    if l.Execute? {
      var th := s.threads[l.tid];
      var ans :| Exec(s.store, th.op, Env(l.id, s.clock, l.gate), s'.store, ans)
        && s' == Executed(s, l.tid, s'.store, ans);
      match th.op
      case MarkParticipant(cid, v, mark) => MarkedClearedAt(s.store.convs[k], cid, v, mark, user);
      case CreateConversation(pids) => FreshFinds(pids, user);
      case _ =>
    }
  }

  lemma ClearsExisting(s: Sys, l: Label, s': Sys, cid: string, user: string)
    requires Inv(s) && Next(s, l, s')
    ensures ClearsAt(s, l, cid, user).Some? ==> Exists(s.store.convs, cid)
    ensures Exists(s.store.convs, cid) ==> Exists(s'.store.convs, cid)
  {
    StepKeeps(s, l, s');
    if ClearsAt(s, l, cid, user).Some? {
      assert ThreadOk(s.store, s.grants, l.tid, s.threads[l.tid]);
    }
    if Exists(s.store.convs, cid) {
      var i :| 0 <= i < |s.store.convs| && s.store.convs[i].id == cid;
      assert SameMembers(s.store.convs[i], s'.store.convs[i]);
    }
  }

  lemma RunClearsExisting(ss: seq<Sys>, ls: seq<Label>, n: nat, cid: string, user: string)
    requires Run(ss, ls) && n < |ls|
    ensures ClearsAt(ss[n], ls[n], cid, user).Some? ==> Exists(ss[n].store.convs, cid)
    ensures Exists(ss[n].store.convs, cid) ==> Exists(ss[n + 1].store.convs, cid)
  {
    RunInv(ss, ls, n);
    assert Moves(ss, ls, n);
    ClearsExisting(ss[n], ls[n], ss[n + 1], cid, user);
  }

  lemma {:induction false} ClearedExists(ss: seq<Sys>, ls: seq<Label>, n: nat, cid: string, user: string)
    requires Run(ss, ls) && n < |ss|
    ensures LatestClear(ss, ls, n, cid, user).Some? ==> Exists(ss[n].store.convs, cid)
  {
    if n > 0 {
      ClearedExists(ss, ls, n - 1, cid, user);
      RunClearsExisting(ss, ls, n - 1, cid, user);
    }
  }

  lemma RunStepClears(ss: seq<Sys>, ls: seq<Label>, n: nat, k: nat, user: string)
    requires Run(ss, ls) && n < |ls| && k < |ss[n + 1].store.convs| && IsParticipant(ss[n + 1].store.convs[k], user)
    ensures var c' := ss[n + 1].store.convs[k];
      var at := ClearsAt(ss[n], ls[n], c'.id, user);
      && (k >= |ss[n].store.convs| ==> ClearedAt(c', user) == None && at == None && !Exists(ss[n].store.convs, c'.id))
      && (k < |ss[n].store.convs| ==>
            && SameMembers(ss[n].store.convs[k], c')
            && ClearedAt(c', user) == if at.Some? then at else ClearedAt(ss[n].store.convs[k], user))
  {
    RunInv(ss, ls, n);
    assert Moves(ss, ls, n);
    StepClears(ss[n], ls[n], ss[n + 1], k, user);
  }

  /** In every reachable state of either store, a participant's clearedAt is what their last executed
      deleteConversation wrote, or null if there was none. */
  lemma {:induction false} ClearedAtIsLatest(ss: seq<Sys>, ls: seq<Label>, n: nat, k: nat, user: string)
    requires Run(ss, ls) && n < |ss| && k < |ss[n].store.convs| && IsParticipant(ss[n].store.convs[k], user)
    ensures ClearedAt(ss[n].store.convs[k], user) == LatestClear(ss, ls, n, ss[n].store.convs[k].id, user)
  {
    if n > 0 {
      RunStepClears(ss, ls, n - 1, k, user);
      if k < |ss[n - 1].store.convs| {
        ClearedAtIsLatest(ss, ls, n - 1, k, user);
      } else {
        ClearedExists(ss, ls, n - 1, ss[n].store.convs[k].id, user);
      }
    }
  }

  // The log is in clock order.

  lemma StepClock(s: Sys, l: Label, s': Sys)
    requires WellFormed(s.store) && Next(s, l, s')
    requires Ascending(s.store.msgs) && forall i :: 0 <= i < |s.store.msgs| ==> s.store.msgs[i].createdAt <= s.clock
    ensures s.clock <= s'.clock
    ensures Ascending(s'.store.msgs) && forall i :: 0 <= i < |s'.store.msgs| ==> s'.store.msgs[i].createdAt <= s'.clock
  {
    if l.Execute? {
      var th := s.threads[l.tid];
      var ans :| Exec(s.store, th.op, Env(l.id, s.clock, l.gate), s'.store, ans)
        && s' == Executed(s, l.tid, s'.store, ans);
    }
  }

  lemma {:induction false} RunClock(ss: seq<Sys>, ls: seq<Label>, n: nat)
    requires Run(ss, ls) && n < |ss|
    ensures Ascending(ss[n].store.msgs)
    ensures forall i :: 0 <= i < |ss[n].store.msgs| ==> ss[n].store.msgs[i].createdAt <= ss[n].clock
  {
    if n > 0 {
      RunClock(ss, ls, n - 1);
      RunInv(ss, ls, n - 1);
      assert Moves(ss, ls, n - 1);
      StepClock(ss[n - 1], ls[n - 1], ss[n]);
    }
  }

  lemma MemberIsFound(cs: seq<Conversation>, k: nat, user: string)
    requires DistinctConversations(cs) && k < |cs| && IsParticipant(cs[k], user)
    ensures Find(cs, cs[k].id) == Some(cs[k]) && Denied(Some(cs[k]), cs[k].id, user) == None
  {
    SameId(cs, cs[k], Find(cs, cs[k].id).value);
  }

  /** Cleared history stays gone. In every reachable in-memory state, `listMessages` without options is exactly
      the conversation's messages created strictly after the requester's latest deleteConversation, in the order
      they were sent, tombstones included. */
  lemma ListIsHistorySinceClear(ss: seq<Sys>, ls: seq<Label>, n: nat, k: nat, user: string,
      env: Env, trace: seq<Step>, out: Outcome)
    requires Run(ss, ls) && n < |ss| && ss[n].store.kind.InMemory?
    requires k < |ss[n].store.convs| && IsParticipant(ss[n].store.convs[k], user)
    requires Performs(ss[n].store, Go(Start(List(ss[n].store.convs[k].id, user, ALL_MESSAGES))), env, trace, out)
    ensures var cid := ss[n].store.convs[k].id;
      out.reply == Messages(Filter(ss[n].store.msgs, Criteria(Some(cid), None, LatestClear(ss, ls, n, cid, user))))
  {
    var s, c := ss[n].store, ss[n].store.convs[k];
    RunInv(ss, ls, n);
    RunClock(ss, ls, n);
    MemberIsFound(s.convs, k, user);
    ClearedAtIsLatest(ss, ls, n, k, user);
    ListPerforms(s, c.id, user, ALL_MESSAGES, env, trace, out);
    var q := Criteria(Some(c.id), None, LatestClear(ss, ls, n, c.id, user));
    assert Where(c.id, Bounded(ALL_MESSAGES, ClearedAt(c, user))) == q;
    FilterAscending(s.msgs, q);
    SortedIsSort(Filter(s.msgs, q));
  }

  /** No options a caller supplies reveal a message from before their latest deleteConversation, over either store. */
  lemma NoOptionRevealsCleared(ss: seq<Sys>, ls: seq<Label>, n: nat, k: nat, user: string, o: ListOptions,
      env: Env, trace: seq<Step>, out: Outcome, m: Message)
    requires Run(ss, ls) && n < |ss| && k < |ss[n].store.convs| && IsParticipant(ss[n].store.convs[k], user)
    requires Performs(ss[n].store, Go(Start(List(ss[n].store.convs[k].id, user, o))), env, trace, out)
    requires out.reply.Messages? && m in out.reply.messages
    ensures var cid := ss[n].store.convs[k].id;
      && m in ss[n].store.msgs && m.conversationId == cid
      && (LatestClear(ss, ls, n, cid, user).Some? ==> m.createdAt > LatestClear(ss, ls, n, cid, user).value)
  {
    var s, c := ss[n].store, ss[n].store.convs[k];
    RunInv(ss, ls, n);
    MemberIsFound(s.convs, k, user);
    ClearedAtIsLatest(ss, ls, n, k, user);
    ListedIsBounded(s, c, user, o, env, trace, out, m);
  }

  lemma PageIsBounded(s: Store, cid: string, o: ListOptions, env: Env, ans: Answer, m: Message)
    requires Exec(s, ListMessages(cid, o), env, s, ans) && m in ans.page
    ensures m in s.msgs && Meets(m, Where(cid, o))
  {
    ListsStored(s.kind, s.msgs, cid, o, ans.page, m);
  }

  lemma LookedUp(s: Store, c: Conversation, user: string, env: Env, s': Store, ans: Answer)
    requires WellFormed(s) && Find(s.convs, c.id) == Some(c) && Exec(s, FindConversation(c.id), env, s', ans)
    ensures ans.FoundConversation? && s' == s
    ensures ans.found.Some? ==> ClearedAt(ans.found.value, user) == ClearedAt(c, user)
  {
    if s.kind.Postgres? && ans.found.Some? {
      var k :| 0 <= k < |s.convs| && s.convs[k] == c;
      assert NoDuplicates(UserIds(c.participants));
      SameFindsSame(c, ans.found.value, user);
    }
  }

  lemma ListedIsBounded(s: Store, c: Conversation, user: string, o: ListOptions, env: Env, trace: seq<Step>,
        out: Outcome, m: Message)
    requires WellFormed(s) && Find(s.convs, c.id) == Some(c)
    requires Performs(s, Go(Start(List(c.id, user, o))), env, trace, out) && out.reply.Messages?
    requires m in out.reply.messages
    ensures m in s.msgs && Meets(m, Where(c.id, Bounded(o, ClearedAt(c, user))))
  {
    assert Start(List(c.id, user, o)) == Asking(FindConversation(c.id), LookupForList(c.id, user, o));
    var found := LookedUpFirst(s, c.id, LookupForList(c.id, user, o), env, trace, out);
    LookedUp(s, c, user, env, s, FoundConversation(found));
    if Denied(found, c.id, user).None? {
      var b := Bounded(o, ClearedAt(c, user));
      var page := ListReads(s, c.id, b, env, trace[1..], out);
      ListsStored(s.kind, s.msgs, c.id, b, page, m);
    }
  }

  // When hidden history comes back.

  /** Message k of the log is hidden from `user` after n steps. */
  ghost predicate Hidden(ss: seq<Sys>, ls: seq<Label>, n: nat, k: nat, user: string)
    requires n < |ss| == |ls| + 1 && k < |ss[n].store.msgs|
  {
    var m := ss[n].store.msgs[k];
    var at := LatestClear(ss, ls, n, m.conversationId, user);
    at.Some? && m.createdAt <= at.value
  }

  /** One step brings a hidden message back exactly when it executes a clear that was overtaken: one whose
      instant is before the message, over one whose instant is not. */
  lemma RevealedByOvertaken(ss: seq<Sys>, ls: seq<Label>, n: nat, k: nat, user: string)
    requires Run(ss, ls) && n < |ls| && k < |ss[n].store.msgs| && k < |ss[n + 1].store.msgs|
    ensures Hidden(ss, ls, n, k, user) && !Hidden(ss, ls, n + 1, k, user) <==>
      var m := ss[n].store.msgs[k];
      var at, was := ClearsAt(ss[n], ls[n], m.conversationId, user), LatestClear(ss, ls, n, m.conversationId, user);
      at.Some? && was.Some? && at.value < m.createdAt <= was.value
  {
    RunStep(ss, ls, n);
    assert Key(ss[n].store.msgs[k]) == Key(ss[n + 1].store.msgs[k]);
  }

  /** Every clear of `cid` by `user` executes at the instant it was asked for, as over the in-memory store, whose
      `clear` has no await. */
  ghost predicate Prompt(ss: seq<Sys>, ls: seq<Label>, cid: string, user: string)
    requires |ss| == |ls| + 1
  {
    forall n :: 0 <= n < |ls| && ClearsAt(ss[n], ls[n], cid, user).Some? ==>
      ClearsAt(ss[n], ls[n], cid, user).value == ss[n].clock
  }

  lemma {:induction false} ClockForward(ss: seq<Sys>, ls: seq<Label>, i: nat, j: nat)
    requires Run(ss, ls) && i <= j < |ss|
    ensures ss[i].clock <= ss[j].clock
    decreases j - i
  {
    if i < j {
      ClockForward(ss, ls, i, j - 1);
      assert Moves(ss, ls, j - 1);
    }
  }

  lemma {:induction false} PastClears(ss: seq<Sys>, ls: seq<Label>, n: nat, cid: string, user: string)
    requires Run(ss, ls) && Prompt(ss, ls, cid, user) && n < |ss|
    ensures LatestClear(ss, ls, n, cid, user).Some? ==> LatestClear(ss, ls, n, cid, user).value <= ss[n].clock
  {
    if n > 0 {
      var at := ClearsAt(ss[n - 1], ls[n - 1], cid, user);
      assert at.Some? ==> at.value == ss[n - 1].clock;
      ClockForward(ss, ls, n - 1, n);
      if at.None? {
        PastClears(ss, ls, n - 1, cid, user);
      }
    }
  }

  lemma HiddenNext(ss: seq<Sys>, ls: seq<Label>, n: nat, k: nat, user: string)
    requires Run(ss, ls) && n < |ls| && k < |ss[n].store.msgs| && Hidden(ss, ls, n, k, user)
    requires Prompt(ss, ls, ss[n].store.msgs[k].conversationId, user)
    ensures k < |ss[n + 1].store.msgs| && Hidden(ss, ls, n + 1, k, user)
  {
    var m := ss[n].store.msgs[k];
    RunStep(ss, ls, n);
    assert Key(m) == Key(ss[n + 1].store.msgs[k]);
    PastClears(ss, ls, n, m.conversationId, user);
    var at := ClearsAt(ss[n], ls[n], m.conversationId, user);
    assert at.Some? ==> at.value == ss[n].clock;
  }

  /** With prompt clears, clearing only moves forward, so what was hidden once stays hidden for good. */
  lemma {:induction false} HiddenStaysHidden(ss: seq<Sys>, ls: seq<Label>, i: nat, j: nat, k: nat, user: string)
    requires Run(ss, ls) && i <= j < |ss| && k < |ss[i].store.msgs|
    requires Prompt(ss, ls, ss[i].store.msgs[k].conversationId, user) && Hidden(ss, ls, i, k, user)
    ensures k < |ss[j].store.msgs| && Hidden(ss, ls, j, k, user)
    decreases j - i
  {
    if i < j {
      HiddenStaysHidden(ss, ls, i, j - 1, k, user);
      RunAppends(ss, ls, i, j - 1);
      assert Key(ss[i].store.msgs[k]) == Key(ss[j - 1].store.msgs[k]);
      HiddenNext(ss, ls, j - 1, k, user);
    }
  }
}
