/** Who gets what, however calls interleave: members are served, strangers are refused, senders can delete, and nobody
    else can. src/core/messaging-service.ts:57-230 */
module Served {
  import opened Domain
  import opened Rows
  import opened Stores
  import opened Service
  import opened Machine
  import opened Concurrency
  import opened Safety
  import opened Outcomes

  /** Where the requester of a call on one conversation stands: there is no such conversation; they are not in it; they
      are; and, if they want to delete a message of it, it is theirs, or somebody else's. */
  datatype Standing = Nowhere | Stranger | Insider | Sender | OtherSender

  ghost predicate SentByOther(s: Store, cid: string, mid: string, user: string) {
    exists k :: HasMessage(s, cid, mid, k) && s.msgs[k].senderId != user
  }

  ghost predicate Stands(st: Standing, s: Store, call: Call)
    requires AsksAbout(call)
  {
    match st
    case Nowhere => !Has(s, call.cid)
    case Stranger => Has(s, call.cid) && !Member(s.convs, call.cid, call.user)
    case Insider => Member(s.convs, call.cid, call.user)
    case Sender =>
      Member(s.convs, call.cid, call.user) && call.DeleteMessage? && Owns(s.msgs, call.cid, call.mid, call.user)
    case OtherSender =>
      Member(s.convs, call.cid, call.user) && call.DeleteMessage? && SentByOther(s, call.cid, call.mid, call.user)
  }

  /** What the lookup answers, or the message a deletion looks up, must fit that. */
  predicate Fitting(st: Standing, call: Call, ans: Answer)
    requires AsksAbout(call)
  {
    && (ans.FoundConversation? ==>
          match st
          case Nowhere => ans.found.None?
          case Stranger => ans.found.Some? && !IsParticipant(ans.found.value, call.user)
          case _ => ans.found.Some? && IsParticipant(ans.found.value, call.user))
    && (ans.FoundMessage? && (st.Sender? || st.OtherSender?) ==>
          && ans.message.Some? && ans.message.value.conversationId == call.cid
          && (ans.message.value.senderId == call.user <==> st.Sender?))
  }

  predicate ReplyDue(st: Standing, call: Call, r: Reply)
    requires AsksAbout(call)
  {
    match st
    case Nowhere => r == Refused(ConversationNotFound(call.cid))
    case Stranger => r == Refused(NotAParticipant(call.cid, call.user))
    case Sender => r.OneMessage?
    case OtherSender => call.DeleteMessage? && r == Refused(NotMessageAuthor(call.mid, call.user))
    case Insider =>
      (match call
       case Get(_, _) => r.OneConversation?
       case Send(_, _, _) => r.OneMessage? || (r.Refused? && r.error.ConversationNotAllowed?)
       case List(_, _, _) => r.Messages?
       case DeleteMessage(_, mid, user) =>
         r.OneMessage? || r == Refused(MessageNotFound(mid)) || r == Refused(NotMessageAuthor(mid, user))
       case _ => r == Nothing)
  }

  /** What a call may be doing; strangers never get beyond the lookup, other senders never beyond looking at the
      message. */
  ghost predicate Due(st: Standing, th: Thread)
    requires AsksAbout(th.call)
  {
    match th
    case Waiting(call, op, k) =>
      (st.Nowhere? || st.Stranger? ==> op.FindConversation?) && (st.OtherSender? ==> Looking(op))
    case Holding(call, ans, k) =>
      && Fitting(st, call, ans)
      && (st.Nowhere? || st.Stranger? ==> ans.FoundConversation?)
      && (st.OtherSender? ==> ans.FoundConversation? || ans.FoundMessage?)
    case Ended(call, reply) => ReplyDue(st, call, reply)
  }

  predicate Looking(op: Op) {
    op.FindConversation? || op.FindMessage?
  }

  // One step of the call.

  lemma StartDue(st: Standing, call: Call)
    requires AsksAbout(call)
    ensures Due(st, AsThread(call, Start(call)))
  {
  }

  lemma MessageAt(s: Store, k: int, mid: string)
    requires WellFormed(s) && 0 <= k < |s.msgs| && s.msgs[k].id == mid
    ensures FindById(s.msgs, mid) == Some(s.msgs[k])
  {
    FindByIdUnique(s.msgs, k);
  }

  /** The message a standing speaks of. */
  lemma Spoken(st: Standing, s: Store, call: Call) returns (k: nat)
    requires WellFormed(s) && AsksAbout(call) && Stands(st, s, call) && (st.Sender? || st.OtherSender?)
    ensures call.DeleteMessage? && HasMessage(s, call.cid, call.mid, k)
    ensures s.msgs[k].senderId == call.user <==> st.Sender?
    ensures FindById(s.msgs, call.mid) == Some(s.msgs[k])
  {
    if st.Sender? {
      k :| 0 <= k < |s.msgs| && s.msgs[k].id == call.mid && s.msgs[k].conversationId == call.cid
        && s.msgs[k].senderId == call.user;
    } else {
      k :| HasMessage(s, call.cid, call.mid, k) && s.msgs[k].senderId != call.user;
    }
    MessageAt(s, k, call.mid);
  }

  lemma ExecuteFitting(st: Standing, s: Store, call: Call, op: Op, env: Env, s': Store, ans: Answer)
    requires WellFormed(s) && AsksAbout(call) && Stands(st, s, call) && Exec(s, op, env, s', ans)
    requires op.FindConversation? ==> op.cid == call.cid
    requires op.FindMessage? ==> call.DeleteMessage? && op.mid == call.mid
    ensures Fitting(st, call, ans)
  {
    if op.FindConversation? {
      LookupMeans(s, call.cid, call.user, env, ans.found);
    } else if op.FindMessage? && (st.Sender? || st.OtherSender?) {
      var k := Spoken(st, s, call);
    }
  }

  lemma ExecuteDue(st: Standing, s: Store, grants: set<nat>, tid: nat, th: Thread, env: Env, s': Store, ans: Answer)
    requires WellFormed(s) && th.Waiting? && AsksAbout(th.call) && Stands(st, s, th.call)
    requires ThreadOk(s, grants, tid, th) && Due(st, th) && Exec(s, th.op, env, s', ans)
    ensures Due(st, Holding(th.call, ans, th.k))
  {
    LooksFor(s, grants, tid, th);
    ExecuteFitting(st, s, th.call, th.op, env, s', ans);
  }

  lemma LooksFor(s: Store, grants: set<nat>, tid: nat, th: Thread)
    requires th.Waiting? && AsksAbout(th.call) && ThreadOk(s, grants, tid, th)
    ensures th.op.FindConversation? ==> th.op.cid == th.call.cid
    ensures th.op.FindMessage? ==> th.call.DeleteMessage? && th.op.mid == th.call.mid
  {
  }

  /** The in-memory objects fit as well as what was answered. */
  lemma RefreshFitting(st: Standing, s: Store, grants: set<nat>, tid: nat, th: Thread)
    requires WellFormed(s) && th.Holding? && AsksAbout(th.call) && Stands(st, s, th.call)
    requires ThreadOk(s, grants, tid, th) && Fitting(st, th.call, th.ans)
    ensures Fitting(st, th.call, Refresh(s, th.ans))
  {
    if s.kind.InMemory? && th.ans.FoundConversation? && th.ans.found.Some? {
      HeldIsAsked(s, grants, tid, th);
      CurrentFits(s, th.ans.found.value, th.call.user);
    } else if s.kind.InMemory? && th.ans.FoundMessage? && th.ans.message.Some? {
      HeldIsLogged(s, grants, tid, th);
      CurrentIsLogged(s, th.ans.message.value);
    }
  }

  lemma HeldIsAsked(s: Store, grants: set<nat>, tid: nat, th: Thread)
    requires th.Holding? && AsksAbout(th.call) && ThreadOk(s, grants, tid, th)
    requires th.ans.FoundConversation? && th.ans.found.Some?
    ensures th.ans.found.value.id == th.call.cid
    ensures MembersAre(s.convs, th.call.cid, UserIds(th.ans.found.value.participants))
  {
  }

  lemma HeldIsLogged(s: Store, grants: set<nat>, tid: nat, th: Thread)
    requires th.Holding? && ThreadOk(s, grants, tid, th) && th.ans.FoundMessage? && th.ans.message.Some?
    ensures Logged(s.msgs, th.ans.message.value)
  {
  }

  lemma CurrentFits(s: Store, c: Conversation, user: string)
    requires WellFormed(s) && MembersAre(s.convs, c.id, UserIds(c.participants))
    ensures IsParticipant(CurrentConversation(s, c), user) <==> IsParticipant(c, user)
  {
    var i :| 0 <= i < |s.convs| && s.convs[i].id == c.id
      && multiset(UserIds(s.convs[i].participants)) == multiset(UserIds(c.participants));
    SameId(s.convs, s.convs[i], CurrentConversation(s, c));
    assert user in UserIds(c.participants) <==> user in multiset(UserIds(s.convs[i].participants));
  }

  lemma ResumeDue(st: Standing, s: Store, grants: set<nat>, tid: nat, call: Call, ans: Answer, k: Cont, now: int)
    requires AsksAbout(call) && HoldingOk(s, grants, tid, call, ans, k) && Due(st, Holding(call, ans, k))
    requires st.Sender? || st.OtherSender? ==> call.DeleteMessage?
    ensures Due(st, AsThread(call, Resume(k, ans, now).phase))
  {
    if ans.FoundConversation? {
      LookupDue(st, s, grants, tid, call, ans, k, now);
    }
  }

  lemma LookupDue(st: Standing, s: Store, grants: set<nat>, tid: nat, call: Call, ans: Answer, k: Cont, now: int)
    requires AsksAbout(call) && HoldingOk(s, grants, tid, call, ans, k) && Due(st, Holding(call, ans, k))
    requires (st.Sender? || st.OtherSender? ==> call.DeleteMessage?) && ans.FoundConversation?
    ensures Due(st, AsThread(call, Resume(k, ans, now).phase))
  {
  }

  lemma ContinueDue(st: Standing, s: Sys, tid: nat)
    requires Inv(s) && tid in s.threads && s.threads[tid].Holding? && AsksAbout(s.threads[tid].call)
    requires Stands(st, s.store, s.threads[tid].call) && Due(st, s.threads[tid])
    ensures Due(st, Continued(s, tid).threads[tid])
  {
    var th := s.threads[tid];
    assert ThreadOk(s.store, s.grants, tid, th);
    RefreshFitting(st, s.store, s.grants, tid, th);
    BothOk(s.store, s.grants, tid, th.call, th.ans, th.k);
    ResumeDue(st, s.store, s.grants, tid, th.call, Refresh(s.store, th.ans), RefreshKept(s.store, th.k), s.clock);
  }

  lemma StepDue(st: Standing, s: Sys, l: Label, s': Sys, tid: nat)
    requires Inv(s) && Next(s, l, s') && tid in s.threads && AsksAbout(s.threads[tid].call)
    requires Stands(st, s.store, s.threads[tid].call) && Due(st, s.threads[tid])
    ensures tid in s'.threads && s'.threads[tid].call == s.threads[tid].call && Due(st, s'.threads[tid])
  {
    if l.Execute? && l.tid == tid {
      var th := s.threads[tid];
      var env := Env(l.id, s.clock, l.gate);
      var ans :| Exec(s.store, th.op, env, s'.store, ans) && s' == Executed(s, tid, s'.store, ans);
      assert ThreadOk(s.store, s.grants, tid, th);
      ExecuteDue(st, s.store, s.grants, tid, th, env, s'.store, ans);
    } else if l.Continue? && l.tid == tid {
      ContinueDue(st, s, tid);
    }
  }

  // Whole runs.

  /** The call that begins at step b. */
  ghost predicate Begun(ss: seq<Sys>, ls: seq<Label>, b: nat, tid: nat, call: Call) {
    Run(ss, ls) && b < |ls| && ls[b] == Begin(tid, call)
  }

  ghost predicate StandsAt(st: Standing, ss: seq<Sys>, i: nat, call: Call) {
    i < |ss| && AsksAbout(call) && Stands(st, ss[i].store, call)
  }

  lemma {:induction false} DueAlong(st: Standing, ss: seq<Sys>, ls: seq<Label>, b: nat, j: nat, tid: nat, call: Call)
    requires Begun(ss, ls, b, tid, call) && b < j < |ss| && AsksAbout(call)
    requires forall i :: b <= i < j ==> StandsAt(st, ss, i, call)
    ensures tid in ss[j].threads && ss[j].threads[tid].call == call && Due(st, ss[j].threads[tid])
  {
    assert Moves(ss, ls, j - 1);
    if j == b + 1 {
      StartDue(st, call);
    } else {
      DueAlong(st, ss, ls, b, j - 1, tid, call);
      RunInv(ss, ls, j - 1);
      assert StandsAt(st, ss, j - 1, call);
      StepDue(st, ss[j - 1], ls[j - 1], ss[j], tid);
    }
  }

  /** Every standing but Nowhere is for good. */
  lemma StandingStays(st: Standing, ss: seq<Sys>, ls: seq<Label>, i: nat, j: nat, call: Call)
    requires Run(ss, ls) && i <= j < |ss| && StandsAt(st, ss, i, call) && !st.Nowhere?
    ensures StandsAt(st, ss, j, call)
  {
    RunAppends(ss, ls, i, j);
    SameKind(ss, ls, i, j);
    RunInv(ss, ls, j);
    var s, s' := ss[i].store, ss[j].store;
    MembersKeep(s.convs, s'.convs, call.cid, [], call.user);
    match st
    case Stranger => StrangerStays(s, s', call.cid, call.user);
    case Sender => OwnsKeep(s.msgs, s'.msgs, call.cid, call.mid, call.user);
    case OtherSender =>
      var k :| HasMessage(s, call.cid, call.mid, k) && s.msgs[k].senderId != call.user;
      assert Becomes(s.msgs[k], s'.msgs[k]);
      assert HasMessage(s', call.cid, call.mid, k);
    case Insider =>
  }

  lemma StrangerStays(s: Store, s': Store, cid: string, user: string)
    requires Keeps(s.convs, s'.convs) && s'.kind == s.kind && WellFormed(s')
    requires Has(s, cid) && !Member(s.convs, cid, user)
    ensures Has(s', cid) && !Member(s'.convs, cid, user)
  {
    var i :| 0 <= i < |s.convs| && s.convs[i].id == cid && (s.kind.Postgres? ==> s.convs[i].participants != []);
    assert SameMembers(s.convs[i], s'.convs[i]);
    assert |UserIds(s.convs[i].participants)| == |UserIds(s'.convs[i].participants)|;
    forall j | 0 <= j < |s'.convs| && s'.convs[j].id == cid
      ensures j == i && user !in UserIds(s'.convs[j].participants)
    {
    }
  }

  /** In any run over either store, a call that has ended was answered as its requester stood when it began: a stranger
      was refused as one, whatever they asked for; a member was served; a deletion of one's own message was reported
      done, one of somebody else's was refused as such. */
  lemma ServedByStanding(st: Standing, ss: seq<Sys>, ls: seq<Label>, b: nat, j: nat, tid: nat, call: Call)
    requires Begun(ss, ls, b, tid, call) && b < j < |ss| && StandsAt(st, ss, b, call) && !st.Nowhere?
    ensures tid in ss[j].threads && ss[j].threads[tid].call == call
    ensures ss[j].threads[tid].Ended? ==> ReplyDue(st, call, ss[j].threads[tid].reply)
  {
    forall i | b <= i < j
      ensures StandsAt(st, ss, i, call)
    {
      StandingStays(st, ss, ls, b, i, call);
    }
    DueAlong(st, ss, ls, b, j, tid, call);
  }

  /** What a stranger's call waits for is the lookup, and nothing else, ever. */
  lemma StrangersOnlyLook(ss: seq<Sys>, ls: seq<Label>, b: nat, j: nat, tid: nat, call: Call)
    requires Begun(ss, ls, b, tid, call) && b < j < |ss| && StandsAt(Stranger, ss, b, call)
    ensures tid in ss[j].threads
    ensures ss[j].threads[tid].Waiting? ==> ss[j].threads[tid].op == FindConversation(call.cid)
  {
    forall i | b <= i < j
      ensures StandsAt(Stranger, ss, i, call)
    {
      StandingStays(Stranger, ss, ls, b, i, call);
    }
    DueAlong(Stranger, ss, ls, b, j, tid, call);
    RunInv(ss, ls, j);
    var s, th := ss[j], ss[j].threads[tid];
    assert ThreadOk(s.store, s.grants, tid, th);
    if th.Waiting? {
      LooksFor(s.store, s.grants, tid, th);
    }
  }

  lemma HasStays(ss: seq<Sys>, ls: seq<Label>, i: nat, j: nat, cid: string)
    requires Run(ss, ls) && i <= j < |ss| && Has(ss[i].store, cid)
    ensures Has(ss[j].store, cid)
  {
    RunAppends(ss, ls, i, j);
    SameKind(ss, ls, i, j);
    var s, s' := ss[i].store, ss[j].store;
    var k :| 0 <= k < |s.convs| && s.convs[k].id == cid && (s.kind.Postgres? ==> s.convs[k].participants != []);
    assert SameMembers(s.convs[k], s'.convs[k]);
    assert |UserIds(s.convs[k].participants)| == |UserIds(s'.convs[k].participants)|;
  }

  /** A conversation is reported missing to everybody as long as there is none, and to nobody who asks once there is. */
  lemma MissingExactly(ss: seq<Sys>, ls: seq<Label>, b: nat, j: nat, tid: nat, call: Call)
    requires Begun(ss, ls, b, tid, call) && b < j < |ss| && AsksAbout(call)
    requires tid in ss[j].threads && ss[j].threads[tid].Ended?
    ensures var missing := ss[j].threads[tid].reply == Refused(ConversationNotFound(call.cid));
      && (!Has(ss[j].store, call.cid) ==> missing)
      && (missing ==> !Has(ss[b].store, call.cid))
  {
    if !Has(ss[j].store, call.cid) {
      forall i | b <= i < j
        ensures StandsAt(Nowhere, ss, i, call)
      {
        if Has(ss[i].store, call.cid) {
          HasStays(ss, ls, i, j, call.cid);
        }
      }
      DueAlong(Nowhere, ss, ls, b, j, tid, call);
    }
    if Has(ss[b].store, call.cid) {
      var st := if Member(ss[b].store.convs, call.cid, call.user) then Insider else Stranger;
      ServedByStanding(st, ss, ls, b, j, tid, call);
    }
  }

  // Deletions.

  /** A call that holds the requester's own message, found live, asks for its deletion at the clock; found deleted, it
      replies the tombstone. In memory it is found as it is by now. */
  lemma OwnMessageGoes(s: Sys, tid: nat, s': Sys, n: int)
    requires Inv(s) && Next(s, Continue(tid), s') && s.threads[tid].call.DeleteMessage?
    requires s.threads[tid].ans.FoundMessage? && s.threads[tid].ans.message.Some?
    requires var call := s.threads[tid].call;
      HasMessage(s.store, call.cid, call.mid, n) && s.store.msgs[n].senderId == call.user
    ensures var call := s.threads[tid].call;
      var held := if s.store.kind.InMemory? then s.store.msgs[n] else s.threads[tid].ans.message.value;
      s'.threads[tid] == if held.deletedAt.None? then Waiting(call, SoftDelete(call.mid, s.clock), TombstoneWritten)
                         else Ended(call, OneMessage(held))
  {
    var th := s.threads[tid];
    assert ThreadOk(s.store, s.grants, tid, th);
    OwnHeld(s.store, s.grants, tid, th, n);
    OwnResumes(th.call, CurrentAnswer(s.store, th.ans.message.value), s.clock);
  }

  function CurrentAnswer(s: Store, m: Message): Message {
    if s.kind.InMemory? then CurrentMessage(s, m) else m
  }

  lemma OwnHeld(s: Store, grants: set<nat>, tid: nat, th: Thread, n: int)
    requires WellFormed(s) && th.Holding? && th.call.DeleteMessage? && ThreadOk(s, grants, tid, th)
    requires th.ans.FoundMessage? && th.ans.message.Some?
    requires HasMessage(s, th.call.cid, th.call.mid, n) && s.msgs[n].senderId == th.call.user
    ensures th.k == MessageForDelete(th.call.cid, th.call.mid, th.call.user)
    ensures CurrentMessage(s, th.ans.message.value) == s.msgs[n]
    ensures th.ans.message.value.conversationId == th.call.cid && th.ans.message.value.senderId == th.call.user
  {
    MessageAt(s, n, th.call.mid);
    HeldIsLogged(s, grants, tid, th);
    var held := th.ans.message.value;
    var i :| 0 <= i < |s.msgs| && Becomes(held, s.msgs[i]);
    MessageAt(s, i, th.call.mid);
  }

  lemma OwnResumes(call: Call, m: Message, now: int)
    requires call.DeleteMessage? && m.conversationId == call.cid && m.senderId == call.user
    ensures AsThread(call, Resume(MessageForDelete(call.cid, call.mid, call.user), FoundMessage(Some(m)), now).phase) ==
      if m.deletedAt.None? then Waiting(call, SoftDelete(call.mid, now), TombstoneWritten)
      else Ended(call, OneMessage(m))
  {
  }

  // Marks.

  /** The operation stamps what the call asked for: the instant it was given, or one read from the clock meanwhile. */
  predicate Marks(call: Call, op: Op, from: int, to: int) {
    && (call.DeleteConversation? || call.MarkRead?)
    && op.MarkParticipant? && op.cid == call.cid && op.user == call.user
    && if call.MarkRead? then op.mark == Read(call.at) else op.mark.Cleared? && from <= op.mark.at <= to
  }

  ghost predicate MarksBy(ss: seq<Sys>, ls: seq<Label>, i: nat, tid: nat, from: int)
    requires i < |ls| < |ss|
  {
    && ls[i].Execute? && ls[i].tid == tid && tid in ss[i].threads && ss[i].threads[tid].Waiting?
    && Marks(ss[i].threads[tid].call, ss[i].threads[tid].op, from, ss[i].clock)
  }

  ghost predicate HasMarked(ss: seq<Sys>, ls: seq<Label>, b: nat, j: nat, tid: nat)
    requires b < j < |ss| == |ls| + 1
  {
    exists i :: b < i < j && MarksBy(ss, ls, i, tid, ss[b].clock)
  }

  /** Has been told that its mark is written. */
  predicate ToldMarked(th: Thread) {
    (th.Holding? && th.k.MarkWritten?) || (th.Ended? && th.reply == Nothing)
  }

  ghost predicate MarkDue(ss: seq<Sys>, ls: seq<Label>, b: nat, j: nat, tid: nat)
    requires b < j < |ss| == |ls| + 1 && tid in ss[j].threads
  {
    var th := ss[j].threads[tid];
    && (th.Waiting? && th.k.MarkWritten? ==> Marks(th.call, th.op, ss[b].clock, ss[j].clock))
    && (ToldMarked(th) ==> HasMarked(ss, ls, b, j, tid))
  }

  lemma {:induction false} ClockRises(ss: seq<Sys>, ls: seq<Label>, i: nat, j: nat)
    requires Run(ss, ls) && i <= j < |ss|
    ensures ss[i].clock <= ss[j].clock
    decreases j
  {
    if i < j {
      ClockRises(ss, ls, i, j - 1);
      assert Moves(ss, ls, j - 1);
    }
  }

  /** Only a lookup turns into a wait for a mark, and only the mark's answer into the news that it is written. */
  lemma MarkTurn(s: Sys, tid: nat)
    requires Inv(s) && tid in s.threads && s.threads[tid].Holding?
    ensures var th, th' := s.threads[tid], Continued(s, tid).threads[tid];
      && (ToldMarked(th') ==> th.k.MarkWritten?)
      && (th'.Waiting? && th'.k.MarkWritten? ==> Marks(th'.call, th'.op, s.clock, s.clock))
  {
    var th := s.threads[tid];
    assert ThreadOk(s.store, s.grants, tid, th);
    BothOk(s.store, s.grants, tid, th.call, th.ans, th.k);
    MarkResumes(s.store, s.grants, tid, th.call, Refresh(s.store, th.ans), RefreshKept(s.store, th.k), s.clock);
  }

  lemma MarkResumes(s: Store, grants: set<nat>, tid: nat, call: Call, ans: Answer, k: Cont, now: int)
    requires HoldingOk(s, grants, tid, call, ans, k)
    ensures var th := AsThread(call, Resume(k, ans, now).phase);
      && (ToldMarked(th) ==> k.MarkWritten?)
      && (th.Waiting? && th.k.MarkWritten? ==> Marks(call, th.op, now, now))
  {
  }

  lemma MarkStep(ss: seq<Sys>, ls: seq<Label>, b: nat, j: nat, tid: nat)
    requires Run(ss, ls) && b < j < |ls| && Inv(ss[j]) && tid in ss[j].threads && ss[b].clock <= ss[j].clock
    requires MarkDue(ss, ls, b, j, tid)
    ensures tid in ss[j + 1].threads && MarkDue(ss, ls, b, j + 1, tid)
  {
    assert Moves(ss, ls, j);
    var l, th := ls[j], ss[j].threads[tid];
    if ToldMarked(th) {
      var i :| b < i < j && MarksBy(ss, ls, i, tid, ss[b].clock);
      assert HasMarked(ss, ls, b, j + 1, tid);
    }
    if l.Continue? && l.tid == tid {
      MarkTurn(ss[j], tid);
    } else if l.Execute? && l.tid == tid && th.k.MarkWritten? {
      assert MarksBy(ss, ls, j, tid, ss[b].clock);
    }
  }

  lemma {:induction false} MarkAlong(ss: seq<Sys>, ls: seq<Label>, b: nat, j: nat, tid: nat, call: Call)
    requires Begun(ss, ls, b, tid, call) && b < j < |ss|
    ensures tid in ss[j].threads && MarkDue(ss, ls, b, j, tid)
  {
    if j == b + 1 {
      assert Moves(ss, ls, b);
    } else {
      MarkAlong(ss, ls, b, j - 1, tid, call);
      RunInv(ss, ls, j - 1);
      ClockRises(ss, ls, b, j - 1);
      MarkStep(ss, ls, b, j - 1, tid);
    }
  }

  /** A markRead or deleteConversation that reports success has been executed meanwhile, on the requester's row, with
      the instant it was given or one between its beginning and that execution. */
  lemma ReportedMarksAreWritten(ss: seq<Sys>, ls: seq<Label>, b: nat, j: nat, tid: nat, call: Call)
    requires Begun(ss, ls, b, tid, call) && b < j < |ss|
    ensures tid in ss[j].threads
    ensures ss[j].threads[tid].Ended? && ss[j].threads[tid].reply == Nothing ==>
      exists i :: b < i < j && MarksBy(ss, ls, i, tid, ss[b].clock)
  {
    MarkAlong(ss, ls, b, j, tid, call);
  }

  // Creations, and the gate.

  /** Thread `tid` is the creation that made conversation k, with the participants it asked for. */
  ghost predicate Founds(s: Sys, k: nat, tid: nat)
    requires k < |s.store.convs|
  {
    && tid in s.threads && tid in s.grants && s.threads[tid].call.Create?
    && UserIds(s.store.convs[k].participants) == s.threads[tid].call.pids
    && match s.threads[tid]
       case Waiting(_, _, _) => false
       case Holding(_, ans, _) => ans.Created? && ans.conversation.id == s.store.convs[k].id
       case Ended(_, reply) => reply.OneConversation? && reply.conversation.id == s.store.convs[k].id
  }

  lemma FoundsKeeps(s: Sys, l: Label, s': Sys, k: nat, tid: nat)
    requires Inv(s) && Next(s, l, s') && k < |s.store.convs| && Founds(s, k, tid)
    ensures k < |s'.store.convs| && Founds(s', k, tid)
  {
    StepKeeps(s, l, s');
    assert SameMembers(s.store.convs[k], s'.store.convs[k]);
  }

  lemma Founding(s: Sys, l: Label, s': Sys, k: nat)
    requires Inv(s) && Next(s, l, s') && |s.store.convs| <= k < |s'.store.convs|
    ensures l.Execute? && Founds(s', k, l.tid)
  {
    var th := s.threads[l.tid];
    var env := Env(l.id, s.clock, l.gate);
    var ans :| Exec(s.store, th.op, env, s'.store, ans) && s' == Executed(s, l.tid, s'.store, ans);
    assert ThreadOk(s.store, s.grants, l.tid, th);
    CreatesAsked(s.store, s.grants, l.tid, th, env, s'.store, ans, k);
  }

  lemma CreatesAsked(s: Store, grants: set<nat>, tid: nat, th: Thread, env: Env, s': Store, ans: Answer, k: nat)
    requires th.Waiting? && ThreadOk(s, grants, tid, th) && Exec(s, th.op, env, s', ans)
    requires |s.convs| <= k < |s'.convs|
    ensures th.call.Create? && tid in grants && ans == Created(s'.convs[k])
    ensures UserIds(s'.convs[k].participants) == th.call.pids
  {
    assert th.op.CreateConversation?;
    assert UserIds(Fresh(th.op.pids)) == th.op.pids;
  }

  /** Every conversation there is was made by one approved creation, has exactly the participants it asked for, in that
      order, and is what the creation replies. */
  lemma {:induction false} ConversationsAreFounded(ss: seq<Sys>, ls: seq<Label>, n: nat, k: nat) returns (tid: nat)
    requires Run(ss, ls) && n < |ss| && k < |ss[n].store.convs|
    ensures Founds(ss[n], k, tid)
  {
    var s, l := ss[n - 1], ls[n - 1];
    RunInv(ss, ls, n - 1);
    assert Moves(ss, ls, n - 1);
    if k < |s.store.convs| {
      tid := ConversationsAreFounded(ss, ls, n - 1, k);
      FoundsKeeps(s, l, ss[n], k, tid);
    } else {
      Founding(s, l, ss[n], k);
      tid := l.tid;
    }
  }

  /** The gate is only ever asked about the participants of a creation, for its requester, and about all members of the
      conversation a message is sent to, for its sender. */
  lemma GateIsAskedAboutAll(ss: seq<Sys>, ls: seq<Label>, n: nat, tid: nat)
    requires Run(ss, ls) && n < |ss| && tid in ss[n].threads
    requires ss[n].threads[tid].Waiting? && ss[n].threads[tid].op.AskGate?
    ensures var call, op := ss[n].threads[tid].call, ss[n].threads[tid].op;
      || (call.Create? && op == AskGate(call.requester, call.pids))
      || (call.Send? && op.requester == call.user && MembersAre(ss[n].store.convs, call.cid, op.pids))
  {
    RunInv(ss, ls, n);
    assert ThreadOk(ss[n].store, ss[n].grants, tid, ss[n].threads[tid]);
  }
}
