/** What a participant's row holds in any reachable state: the instants of the last markRead and of the last
    deleteConversation executed for that user. src/core/messaging-service.ts:209-217 */
module ReadMarks {
  import opened Domain
  import opened Stores
  import opened Machine
  import opened Concurrency
  import opened Safety
  import opened Cleared

  /** The instant with which this step marks conversation `cid` read by `user`, if it does. */
  function ReadsAt(s: Sys, l: Label, cid: string, user: string): Option<int> {
    if l.Execute? && l.tid in s.threads && s.threads[l.tid].Waiting? && s.threads[l.tid].op.MarkParticipant?
       && s.threads[l.tid].op.cid == cid && s.threads[l.tid].op.user == user && s.threads[l.tid].op.mark.Read?
    then Some(s.threads[l.tid].op.mark.at)
    else None
  }

  /** The instant written by the last markRead of `user` on `cid` among the first n steps. */
  function LatestRead(ss: seq<Sys>, ls: seq<Label>, n: nat, cid: string, user: string): Option<int>
    requires n <= |ls| < |ss|
  {
    if n == 0 then None
    else
      var at := ReadsAt(ss[n - 1], ls[n - 1], cid, user);
      if at.Some? then at else LatestRead(ss, ls, n - 1, cid, user)
  }

  function ReadAt(c: Conversation, user: string): Option<int> {
    var p := ParticipantOf(c, user);
    if p.Some? then p.value.lastReadAt else None
  }

  lemma {:induction false} FreshUnread(pids: seq<string>, user: string)
    ensures FindParticipant(Fresh(pids), user).Some? ==> FindParticipant(Fresh(pids), user).value.lastReadAt == None
  {
    if pids != [] {
      assert Fresh(pids)[1..] == Fresh(pids[1..]);
      FreshUnread(pids[1..], user);
    }
  }

  lemma MarkedReadAt(c: Conversation, cid: string, v: string, mark: Mark, user: string)
    requires IsParticipant(c, user)
    ensures ReadAt(Restamp(c, cid, v, mark), user) ==
      if c.id == cid && v == user && mark.Read? then Some(mark.at) else ReadAt(c, user)
  {
    StampFirstFinds(c.participants, v, mark, user);
  }

  /** One step: a markRead sets lastReadAt of its own participant, nothing else touches any. */
  lemma StepReads(s: Sys, l: Label, s': Sys, k: nat, user: string)
    requires Inv(s) && Next(s, l, s') && k < |s'.store.convs|
    requires IsParticipant(s'.store.convs[k], user)
    ensures var c' := s'.store.convs[k];
      var at := ReadsAt(s, l, c'.id, user);
      && (k >= |s.store.convs| ==> ReadAt(c', user) == None && at == None && !Exists(s.store.convs, c'.id))
      && (k < |s.store.convs| ==>
            SameMembers(s.store.convs[k], c') && ReadAt(c', user) == if at.Some? then at
              else ReadAt(s.store.convs[k], user))
  {
    StepKeeps(s, l, s');
    if k < |s.store.convs| {
      assert SameMembers(s.store.convs[k], s'.store.convs[k]);
    }
    if l.Execute? {
      var th := s.threads[l.tid];
      var ans :| Exec(s.store, th.op, Env(l.id, s.clock, l.gate), s'.store, ans)
        && s' == Executed(s, l.tid, s'.store, ans);
      match th.op
      case MarkParticipant(cid, v, mark) => MarkedReadAt(s.store.convs[k], cid, v, mark, user);
      case CreateConversation(pids) => FreshUnread(pids, user);
      case _ =>
    }
  }

  lemma RunStepReads(ss: seq<Sys>, ls: seq<Label>, n: nat, k: nat, user: string)
    requires Run(ss, ls) && n < |ls| && k < |ss[n + 1].store.convs| && IsParticipant(ss[n + 1].store.convs[k], user)
    ensures var c' := ss[n + 1].store.convs[k];
      var at := ReadsAt(ss[n], ls[n], c'.id, user);
      && (k >= |ss[n].store.convs| ==> ReadAt(c', user) == None && at == None && !Exists(ss[n].store.convs, c'.id))
      && (k < |ss[n].store.convs| ==>
            && SameMembers(ss[n].store.convs[k], c')
            && ReadAt(c', user) == if at.Some? then at else ReadAt(ss[n].store.convs[k], user))
  {
    RunInv(ss, ls, n);
    assert Moves(ss, ls, n);
    StepReads(ss[n], ls[n], ss[n + 1], k, user);
  }

  /** A mark needs a conversation to be there, and conversations stay. */
  lemma ReadsExisting(ss: seq<Sys>, ls: seq<Label>, n: nat, cid: string, user: string)
    requires Run(ss, ls) && n < |ls|
    ensures ReadsAt(ss[n], ls[n], cid, user).Some? ==> Exists(ss[n].store.convs, cid)
    ensures Exists(ss[n].store.convs, cid) ==> Exists(ss[n + 1].store.convs, cid)
  {
    RunClearsExisting(ss, ls, n, cid, user);
    RunInv(ss, ls, n);
    if ReadsAt(ss[n], ls[n], cid, user).Some? {
      var tid := ls[n].tid;
      assert ThreadOk(ss[n].store, ss[n].grants, tid, ss[n].threads[tid]);
    }
  }

  lemma {:induction false} ReadExists(ss: seq<Sys>, ls: seq<Label>, n: nat, cid: string, user: string)
    requires Run(ss, ls) && n < |ss|
    ensures LatestRead(ss, ls, n, cid, user).Some? ==> Exists(ss[n].store.convs, cid)
  {
    if n > 0 {
      ReadExists(ss, ls, n - 1, cid, user);
      ReadsExisting(ss, ls, n - 1, cid, user);
    }
  }

  lemma {:induction false} ReadAtIsLatest(ss: seq<Sys>, ls: seq<Label>, n: nat, k: nat, user: string)
    requires Run(ss, ls) && n < |ss| && k < |ss[n].store.convs| && IsParticipant(ss[n].store.convs[k], user)
    ensures ReadAt(ss[n].store.convs[k], user) == LatestRead(ss, ls, n, ss[n].store.convs[k].id, user)
  {
    if n > 0 {
      RunStepReads(ss, ls, n - 1, k, user);
      if k < |ss[n - 1].store.convs| {
        ReadAtIsLatest(ss, ls, n - 1, k, user);
      } else {
        ReadExists(ss, ls, n - 1, ss[n].store.convs[k].id, user);
      }
    }
  }

  /** In every reachable state of either store a participant's row is what the last markRead and the last
      deleteConversation executed for that user wrote, and nobody else's calls have touched it. */
  lemma RowHoldsLatestMarks(ss: seq<Sys>, ls: seq<Label>, n: nat, k: nat, user: string)
    requires Run(ss, ls) && n < |ss| && k < |ss[n].store.convs| && IsParticipant(ss[n].store.convs[k], user)
    ensures var c := ss[n].store.convs[k];
      ParticipantOf(c, user) ==
        Some(Participant(user, LatestRead(ss, ls, n, c.id, user), LatestClear(ss, ls, n, c.id, user)))
  {
    ReadAtIsLatest(ss, ls, n, k, user);
    ClearedAtIsLatest(ss, ls, n, k, user);
  }
}
