/** Safety over whole runs: what no interleaving of calls can break, over either store. */
module Safety {
  import opened Domain
  import opened Paging
  import opened Stores
  import opened Service
  import opened Machine
  import opened Concurrency

  lemma StepKeeps(s: Sys, l: Label, s': Sys)
    requires WellFormed(s.store) && Next(s, l, s')
    ensures Appends(s.store.msgs, s'.store.msgs) && Keeps(s.store.convs, s'.store.convs)
  {
    if l.Execute? {
      var th := s.threads[l.tid];
      var ans :| Exec(s.store, th.op, Env(l.id, s.clock, l.gate), s'.store, ans)
        && s' == Executed(s, l.tid, s'.store, ans);
      ExecKeeps(s.store, th.op, Env(l.id, s.clock, l.gate), s'.store, ans);
    }
  }

  lemma RunStep(ss: seq<Sys>, ls: seq<Label>, i: nat)
    requires Run(ss, ls) && i < |ls|
    ensures Appends(ss[i].store.msgs, ss[i + 1].store.msgs) && Keeps(ss[i].store.convs, ss[i + 1].store.convs)
  {
    RunInv(ss, ls, i);
    assert Moves(ss, ls, i);
    StepKeeps(ss[i], ls[i], ss[i + 1]);
  }

  /** Along every run the log only grows: ids, senders, conversations, instants and order never change, a
      deletion instant once written never moves; and conversations keep their members. */
  lemma {:induction false} RunAppends(ss: seq<Sys>, ls: seq<Label>, i: nat, j: nat)
    requires Run(ss, ls) && i <= j < |ss|
    ensures Appends(ss[i].store.msgs, ss[j].store.msgs)
    ensures Keeps(ss[i].store.convs, ss[j].store.convs)
    decreases j - i
  {
    if i < j {
      RunAppends(ss, ls, i, j - 1);
      RunStep(ss, ls, j - 1);
      AppendsTransitive(ss[i].store.msgs, ss[j - 1].store.msgs, ss[j].store.msgs);
      KeepsTransitive(ss[i].store.convs, ss[j - 1].store.convs, ss[j].store.convs);
    }
  }

  lemma {:induction false} SameKind(ss: seq<Sys>, ls: seq<Label>, i: nat, j: nat)
    requires Run(ss, ls) && i <= j < |ss|
    ensures ss[i].store.kind == ss[j].store.kind
    decreases j - i
  {
    if i < j {
      SameKind(ss, ls, i, j - 1);
      assert Moves(ss, ls, j - 1);
    }
  }

  lemma RunAppend(ss: seq<Sys>, ls: seq<Label>, l: Label, s': Sys)
    requires Run(ss, ls) && Next(ss[|ss| - 1], l, s')
    ensures Run(ss + [s'], ls + [l])
  {
    var longer, labels := ss + [s'], ls + [l];
    forall i | 0 <= i < |labels|
      ensures Moves(longer, labels, i)
    {
      if i < |ls| {
        assert Moves(ss, ls, i);
      }
    }
  }

  lemma AppendsTransitive(a: seq<Message>, b: seq<Message>, c: seq<Message>)
    requires Appends(a, b) && Appends(b, c)
    ensures Appends(a, c)
  {
    forall i | 0 <= i < |a|
      ensures Key(a[i]) == Key(c[i]) && (a[i].deletedAt.Some? ==> c[i] == a[i])
    {
      assert Key(a[i]) == Key(b[i]) && Key(b[i]) == Key(c[i]);
    }
  }

  lemma KeepsTransitive(a: seq<Conversation>, b: seq<Conversation>, c: seq<Conversation>)
    requires Keeps(a, b) && Keeps(b, c)
    ensures Keeps(a, c)
  {
    forall i | 0 <= i < |a|
      ensures SameMembers(a[i], c[i])
    {
      assert SameMembers(a[i], b[i]) && SameMembers(b[i], c[i]);
    }
  }

  // Tombstones.

  /** Somebody was told, by a reply or over the bus, that `m` is deleted. */
  ghost predicate ToldDeleted(s: Sys, m: Message) {
    && m.deletedAt.Some?
    && ((exists p :: p in s.published && p.message == m)
        || exists tid :: tid in s.threads && s.threads[tid].Ended? && s.threads[tid].reply == OneMessage(m))
  }

  /** However deletions race, everyone who is told of a deletion is told the same, which is what the log says. */
  lemma OneTombstone(ss: seq<Sys>, ls: seq<Label>, i: nat, j: nat, m: Message, n: Message)
    requires Run(ss, ls) && i <= j < |ss|
    requires ToldDeleted(ss[i], m) && ToldDeleted(ss[j], n) && m.id == n.id
    ensures m == n && FindById(ss[j].store.msgs, m.id) == Some(m)
  {
    var a := ToldIsLogged(ss, ls, i, m);
    var b := ToldIsLogged(ss, ls, j, n);
    RunAppends(ss, ls, i, j);
    RunInv(ss, ls, j);
    assert ss[j].store.msgs[a] == m;
    FindByIdUnique(ss[j].store.msgs, a);
    FindByIdUnique(ss[j].store.msgs, b);
  }

  lemma ToldIsLogged(ss: seq<Sys>, ls: seq<Label>, i: nat, m: Message) returns (k: nat)
    requires Run(ss, ls) && i < |ss| && ToldDeleted(ss[i], m)
    ensures k < |ss[i].store.msgs| && ss[i].store.msgs[k] == m
  {
    var s := ss[i];
    RunInv(ss, ls, i);
    if p :| p in s.published && p.message == m {
      assert PostOk(s, p);
    } else {
      var tid :| tid in s.threads && s.threads[tid].Ended? && s.threads[tid].reply == OneMessage(m);
      assert ThreadOk(s.store, s.grants, tid, s.threads[tid]);
    }
    assert Logged(s.store.msgs, m);
    k :| 0 <= k < |s.store.msgs| && Becomes(m, s.store.msgs[k]);
  }

  /** A call that reports a deletion reports it of its own requester's message, as it stands in the log. */
  lemma DeletersAreTold(ss: seq<Sys>, ls: seq<Label>, i: nat, tid: nat)
    requires Run(ss, ls) && i < |ss| && tid in ss[i].threads
    requires ss[i].threads[tid].Ended? && ss[i].threads[tid].call.DeleteMessage? && ss[i].threads[tid].reply.OneMessage?
    ensures var m := ss[i].threads[tid].reply.message;
      var call := ss[i].threads[tid].call;
      && ToldDeleted(ss[i], m)
      && m.id == call.mid && m.senderId == call.user && m.conversationId == call.cid && m.body == ""
  {
    var s := ss[i];
    RunInv(ss, ls, i);
    assert ThreadOk(s.store, s.grants, tid, s.threads[tid]);
    var m := s.threads[tid].reply.message;
    assert ToldDeleted(s, m);
    var k := ToldIsLogged(ss, ls, i, m);
    assert AuthoredBy(s, s.store.msgs[k], s.authors[k]);
  }

  /** Only the write of a soft deletion makes a tombstone, and it answers just that. */
  lemma OnlySoftDeletes(s: Store, op: Op, env: Env, s': Store, ans: Answer, k: nat)
    requires WellFormed(s) && Exec(s, op, env, s', ans) && k < |s.msgs| <= |s'.msgs|
    requires s.msgs[k].deletedAt.None? && s'.msgs[k].deletedAt.Some?
    ensures op.SoftDelete? && op.mid == s.msgs[k].id
    ensures ans == Stored(s'.msgs[k])
  {
    FindByIdUnique(s.msgs, k);
    if op.SoftDelete? {
      var m := FindById(s.msgs, op.mid).value;
      var i :| 0 <= i < |s.msgs| && s.msgs[i] == m;
    }
  }

  lemma OwnerOf(ms: seq<Message>, cid: string, mid: string, user: string, k: nat)
    requires DistinctIds(ms) && Owns(ms, cid, mid, user) && k < |ms| && ms[k].id == mid
    ensures ms[k].conversationId == cid && ms[k].senderId == user
  {
    var o :| 0 <= o < |ms| && ms[o].id == mid && ms[o].conversationId == cid && ms[o].senderId == user;
    assert o == k;
  }

  lemma DeletingStep(ss: seq<Sys>, ls: seq<Label>, i: nat, k: nat)
    requires Run(ss, ls) && i < |ls| && k < |ss[i].store.msgs| <= |ss[i + 1].store.msgs|
    requires ss[i].store.msgs[k].deletedAt.None? && ss[i + 1].store.msgs[k].deletedAt.Some?
    ensures ls[i].Execute? && ls[i].tid in ss[i].threads && ss[i].threads[ls[i].tid].Waiting?
    ensures var th := ss[i].threads[ls[i].tid];
      && th.op.SoftDelete? && th.op.mid == ss[i].store.msgs[k].id && ThreadOk(ss[i].store, ss[i].grants, ls[i].tid, th)
      && ss[i + 1] == Executed(ss[i], ls[i].tid, ss[i + 1].store, Stored(ss[i + 1].store.msgs[k]))
  {
    var s, s' := ss[i], ss[i + 1];
    RunInv(ss, ls, i);
    assert Moves(ss, ls, i);
    var th := s.threads[ls[i].tid];
    var env := Env(ls[i].id, s.clock, ls[i].gate);
    var ans :| Exec(s.store, th.op, env, s'.store, ans) && s' == Executed(s, ls[i].tid, s'.store, ans);
    OnlySoftDeletes(s.store, th.op, env, s'.store, ans, k);
  }

  /** A message becomes a tombstone only by a delete its own sender asked for, in the conversation it is in. */
  lemma OnlySendersDelete(ss: seq<Sys>, ls: seq<Label>, i: nat, k: nat)
    requires Run(ss, ls) && i < |ls| && k < |ss[i].store.msgs| <= |ss[i + 1].store.msgs|
    requires ss[i].store.msgs[k].deletedAt.None? && ss[i + 1].store.msgs[k].deletedAt.Some?
    ensures ls[i].Execute? && ls[i].tid in ss[i].threads
    ensures var m, call := ss[i].store.msgs[k], ss[i].threads[ls[i].tid].call;
      call == DeleteMessage(m.conversationId, m.id, m.senderId) && Member(ss[i].store.convs, call.cid, call.user)
  {
    DeletingStep(ss, ls, i, k);
    RunInv(ss, ls, i);
    var th := ss[i].threads[ls[i].tid];
    DeleterIs(ss[i].store, ss[i].grants, ls[i].tid, th.call, th.op, th.k);
    OwnerOf(ss[i].store.msgs, th.call.cid, th.call.mid, th.call.user, k);
  }

  lemma DeleterIs(s: Store, grants: set<nat>, tid: nat, call: Call, op: Op, k: Cont)
    requires WaitingOk(s, grants, tid, call, op, k) && op.SoftDelete?
    ensures call.DeleteMessage? && call.mid == op.mid
    ensures Owns(s.msgs, call.cid, call.mid, call.user) && Member(s.convs, call.cid, call.user)
  {
  }

  /** Every first deletion is published, by the one call that made it: from the step that made message k a
      tombstone on, the call holds the tombstone for its continuation, or has ended with it, posted it, and posted
      nothing else; no call that merely found a tombstone made stands in for it. */
  lemma {:induction false} FirstDeletionIsPublished(ss: seq<Sys>, ls: seq<Label>, i: nat, k: nat, j: nat)
    requires Run(ss, ls) && i < j < |ss| && k < |ss[i].store.msgs| <= |ss[i + 1].store.msgs|
    requires ss[i].store.msgs[k].deletedAt.None? && ss[i + 1].store.msgs[k].deletedAt.Some?
    ensures k < |ss[j].store.msgs| && ss[j].store.msgs[k] == ss[i + 1].store.msgs[k]
    ensures ls[i].Execute? && ls[i].tid in ss[i].threads && ls[i].tid in ss[j].threads
    ensures var tid, t := ls[i].tid, ss[i + 1].store.msgs[k];
      var th := ss[j].threads[tid];
      if th.Ended? then
        && th.reply == OneMessage(t) && Post(tid, t) in ss[j].published
        && forall p :: p in ss[j].published && p.tid == tid ==> p == Post(tid, t)
      else th == Holding(ss[i].threads[tid].call, Stored(t), TombstoneWritten)
  {
    DeletingStep(ss, ls, i, k);
    RunAppends(ss, ls, i + 1, j);
    var tid, t := ls[i].tid, ss[i + 1].store.msgs[k];
    if j > i + 1 {
      FirstDeletionIsPublished(ss, ls, i, k, j - 1);
      HeldTombstoneStep(ss, ls, j - 1, k, tid, ss[i].threads[tid].call);
    }
    PostsOnce(ss, ls, j, tid, t);
  }

  /** One more step of a call that holds or has posted the tombstone of message k. */
  lemma HeldTombstoneStep(ss: seq<Sys>, ls: seq<Label>, n: nat, k: nat, tid: nat, call: Call)
    requires Run(ss, ls) && n < |ls| && k < |ss[n].store.msgs| && ss[n].store.msgs[k].deletedAt.Some?
    requires tid in ss[n].threads
    requires var th, t := ss[n].threads[tid], ss[n].store.msgs[k];
      if th.Ended? then th.reply == OneMessage(t) && Post(tid, t) in ss[n].published
      else th == Holding(call, Stored(t), TombstoneWritten)
    ensures tid in ss[n + 1].threads
    ensures var th, t := ss[n + 1].threads[tid], ss[n].store.msgs[k];
      if th.Ended? then th.reply == OneMessage(t) && Post(tid, t) in ss[n + 1].published
      else th == Holding(call, Stored(t), TombstoneWritten)
  {
    assert Moves(ss, ls, n);
    if ls[n].Continue? && ls[n].tid == tid {
      RunInv(ss, ls, n);
      HeldContinues(ss[n], tid, k);
    }
  }

  lemma HeldContinues(s: Sys, tid: nat, k: nat)
    requires DistinctIds(s.store.msgs) && k < |s.store.msgs| && tid in s.threads
    requires s.threads[tid].Holding? && s.threads[tid].ans == Stored(s.store.msgs[k])
    requires s.threads[tid].k.TombstoneWritten?
    ensures var s', t := Continued(s, tid), s.store.msgs[k];
      s'.threads[tid] == Ended(s.threads[tid].call, OneMessage(t)) && Post(tid, t) in s'.published
  {
    FindByIdUnique(s.store.msgs, k);
    var t := s.store.msgs[k];
    assert Posts(tid, [t])[0] == Post(tid, t);
  }

  /** A call that ended posted nothing but its reply. */
  lemma PostsOnce(ss: seq<Sys>, ls: seq<Label>, j: nat, tid: nat, t: Message)
    requires Run(ss, ls) && j < |ss| && tid in ss[j].threads
    requires ss[j].threads[tid].Ended? ==> ss[j].threads[tid].reply == OneMessage(t)
    ensures ss[j].threads[tid].Ended? ==> forall p :: p in ss[j].published && p.tid == tid ==> p == Post(tid, t)
  {
    RunInv(ss, ls, j);
    forall p | p in ss[j].published && p.tid == tid && ss[j].threads[tid].Ended?
      ensures p == Post(tid, t)
    {
      assert PostOk(ss[j], p);
    }
  }

  /** The fallback SELECT of softDelete and the foreign key of messages never fail a call, and no call ever
      meets an answer it cannot use: the only store error a caller can see is a duplicated participant. */
  lemma NoStoreFailure(ss: seq<Sys>, ls: seq<Label>, i: nat, tid: nat)
    requires Run(ss, ls) && i < |ss| && tid in ss[i].threads
    ensures var s, th := ss[i], ss[i].threads[tid];
      && (th.Waiting? && th.op.SoftDelete? ==> FindById(s.store.msgs, th.op.mid).Some?)
      && (th.Waiting? && th.op.SelectDeleted? ==>
            FindById(s.store.msgs, th.op.mid).Some? && FindById(s.store.msgs, th.op.mid).value.deletedAt.Some?)
      && (th.Waiting? && th.op.CreateMessage? ==> Find(s.store.convs, th.op.cid).Some?)
      && (th.Ended? && th.reply.Refused? ==> th.reply.error != ProtocolError)
      && (th.Ended? && th.reply.Refused? && th.reply.error.StoreThrew? ==>
            th.call.Create? && th.reply.error.error == DuplicateParticipant)
  {
    RunInv(ss, ls, i);
    var s, th := ss[i].store, ss[i].threads[tid];
    assert ThreadOk(s, ss[i].grants, tid, th);
    match th
    case Waiting(call, op, k) => RowIsThere(s, ss[i].grants, tid, call, op, k);
    case Holding(_, _, _) =>
    case Ended(_, _) =>
  }

  lemma RowIsThere(s: Store, grants: set<nat>, tid: nat, call: Call, op: Op, k: Cont)
    requires WellFormed(s) && WaitingOk(s, grants, tid, call, op, k)
    ensures op.SoftDelete? || op.SelectDeleted? ==> FindById(s.msgs, op.mid).Some?
    ensures op.SelectDeleted? ==> FindById(s.msgs, op.mid).value.deletedAt.Some?
    ensures op.CreateMessage? ==> Find(s.convs, op.cid).Some?
  {
    if op.SelectDeleted? {
      var i :| 0 <= i < |s.msgs| && s.msgs[i].id == op.mid && s.msgs[i].deletedAt.Some?;
      FindByIdUnique(s.msgs, i);
    }
  }

  /** Whatever runs while a deletion waits for either of its statements: the row stays there to be found, and once
      it is a tombstone it stays the same one. */
  lemma RowStaysFound(ss: seq<Sys>, ls: seq<Label>, i: nat, j: nat, tid: nat)
    requires Run(ss, ls) && i <= j < |ss| && tid in ss[i].threads && ss[i].threads[tid].Waiting?
    requires ss[i].threads[tid].op.SoftDelete? || ss[i].threads[tid].op.SelectDeleted?
    ensures var op, a, b := ss[i].threads[tid].op, ss[i].store.msgs, ss[j].store.msgs;
      && FindById(a, op.mid).Some? && FindById(b, op.mid).Some?
      && (op.SelectDeleted? ==> FindById(a, op.mid).value.deletedAt.Some?)
      && (FindById(a, op.mid).value.deletedAt.Some? ==> FindById(b, op.mid) == FindById(a, op.mid))
  {
    NoStoreFailure(ss, ls, i, tid);
    RunAppends(ss, ls, i, j);
    RunInv(ss, ls, j);
    var a, b := ss[i].store.msgs, ss[j].store.msgs;
    var k :| 0 <= k < |a| && a[k] == FindById(a, ss[i].threads[tid].op.mid).value;
    assert Key(a[k]) == Key(b[k]);
    FindByIdUnique(b, k);
  }

  // Sends.

  /** A message enters the log only by a send of its sender that the gate let through, into a conversation the
      sender is in at that moment, with a body that is not blank. */
  lemma OnlyApprovedSends(ss: seq<Sys>, ls: seq<Label>, i: nat)
    requires Run(ss, ls) && i < |ls| && |ss[i].store.msgs| < |ss[i + 1].store.msgs|
    ensures ls[i].Execute? && ls[i].tid in ss[i].threads && ls[i].tid in ss[i].grants
    ensures var m := ss[i + 1].store.msgs[|ss[i].store.msgs|];
      && ss[i + 1].store.msgs == ss[i].store.msgs + [m]
      && ss[i].threads[ls[i].tid].call == Send(m.conversationId, m.senderId, m.body)
      && Trim(m.body) != [] && m.createdAt == ss[i].clock && m.deletedAt == None
      && Member(ss[i].store.convs, m.conversationId, m.senderId)
  {
    var s, s' := ss[i], ss[i + 1];
    RunInv(ss, ls, i);
    assert Moves(ss, ls, i);
    var tid := ls[i].tid;
    var th := s.threads[tid];
    assert ThreadOk(s.store, s.grants, tid, th);
    assert th.op.CreateMessage?;
    MemberOfMembers(s.store.convs, th.call.cid, th.k.pids, th.call.user);
  }

  /** Each stored message belongs to exactly one send, whose body it shows until it is deleted. */
  lemma MessagesHaveAuthors(ss: seq<Sys>, ls: seq<Label>, i: nat, k: nat)
    requires Run(ss, ls) && i < |ss| && k < |ss[i].store.msgs|
    ensures |ss[i].authors| == |ss[i].store.msgs| && AuthoredBy(ss[i], ss[i].store.msgs[k], ss[i].authors[k])
    ensures forall l :: 0 <= l < |ss[i].authors| && l != k ==> ss[i].authors[l] != ss[i].authors[k]
    ensures ss[i].store.msgs[k].body == "" <==> ss[i].store.msgs[k].deletedAt.Some?
  {
    RunInv(ss, ls, i);
    assert AuthoredBy(ss[i], ss[i].store.msgs[k], ss[i].authors[k]);
  }

  function Senders(s: Sys): set<nat> {
    set tid | tid in s.threads && Sent(s, tid)
  }

  lemma {:induction false} DistinctTids(ps: seq<Push>)
    requires forall i, j :: 0 <= i < j < |ps| ==> ps[i].tid != ps[j].tid
    ensures |set p | p in ps :: p.tid| == |ps|
  {
    if ps != [] {
      var front, last := ps[..|ps| - 1], ps[|ps| - 1];
      DistinctTids(front);
      assert ps == front + [last];
      assert (set p | p in ps :: p.tid) == (set p | p in front :: p.tid) + {last.tid};
    }
  }

  /** Notifications equal successful sends, one each, addressed to every participant but the sender; and every
      successful send was posted to the bus exactly once. */
  lemma NotifiedEqualsSent(ss: seq<Sys>, ls: seq<Label>, i: nat)
    requires Run(ss, ls) && i < |ss|
    ensures |ss[i].notified| == |Senders(ss[i])|
    ensures forall p :: p in ss[i].notified ==> PushOk(ss[i], p)
    ensures forall tid :: tid in Senders(ss[i]) ==> Posted(ss[i], tid) && Pushed(ss[i], tid)
    ensures forall j, k :: 0 <= j < k < |ss[i].published| ==> ss[i].published[j].tid != ss[i].published[k].tid
  {
    var s := ss[i];
    RunInv(ss, ls, i);
    DistinctTids(s.notified);
    var tids := set p | p in s.notified :: p.tid;
    forall tid | tid in tids
      ensures tid in Senders(s)
    {
      var p :| p in s.notified && p.tid == tid;
      assert PushOk(s, p);
    }
    forall tid | tid in Senders(s)
      ensures tid in tids
    {
      assert Pushed(s, tid);
    }
    assert tids == Senders(s);
  }
}
