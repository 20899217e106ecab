/** Runs over the in-memory stores as the code has them: an operation of a store executes when it is asked for. Only
    the host's gate, and the call's own continuation, take time.
    src/adapters/in-memory/conversation-store.ts, src/adapters/in-memory/message-store.ts */
module AtOnce {
  import opened Service
  import opened Machine
  import opened Safety
  import opened Cleared
  import opened Overlap

  /** A call that has asked a store for something, or for previews of which one is answered and others are not. */
  predicate Urgent(th: Thread) {
    || (th.Waiting? && !th.op.AskGate?)
    || (th.Holding? && th.ans.FoundPreview? && th.k.PreviewsRead? && th.ans.i < |th.k.entries|
        && !AllKnown(WithAnswer(th.k.entries, th.ans.i, th.ans.page)))
  }

  /** Nothing else happens before that has been answered. */
  predicate Heeds(s: Sys, l: Label) {
    forall tid :: tid in s.threads && Urgent(s.threads[tid]) ==> (l.Execute? || l.Continue?) && l.tid == tid
  }

  ghost predicate RunsAtOnce(ss: seq<Sys>, ls: seq<Label>) {
    Run(ss, ls) && ss[0].store.kind.InMemory? && forall i :: 0 <= i < |ls| ==> Heeds(ss[i], ls[i])
  }

  predicate AtRest(s: Sys) {
    forall tid :: tid in s.threads ==> !Urgent(s.threads[tid])
  }

  lemma GoesOn(ss: seq<Sys>, ls: seq<Label>, l: Label, s': Sys)
    requires RunsAtOnce(ss, ls) && Heeds(ss[|ls|], l) && Next(ss[|ls|], l, s')
    ensures RunsAtOnce(ss + [s'], ls + [l])
  {
    RunAppend(ss, ls, l, s');
    var ss', ls' := ss + [s'], ls + [l];
    forall i | 0 <= i < |ls'|
      ensures Heeds(ss'[i], ls'[i])
    {
      assert i < |ls| ==> Heeds(ss[i], ls[i]);
    }
  }

  /** So every clear executes at the instant it carries, and what is hidden stays hidden. */
  lemma ClearsAreAtOnce(ss: seq<Sys>, ls: seq<Label>, cid: string, user: string)
    requires RunsAtOnce(ss, ls)
    ensures Prompt(ss, ls, cid, user)
  {
    forall n | 0 <= n < |ls| && ClearsAt(ss[n], ls[n], cid, user).Some?
      ensures ClearsAt(ss[n], ls[n], cid, user).value == ss[n].clock
    {
      ClearIsAtOnce(ss, ls, n, cid, user);
    }
  }

  lemma ClearIsAtOnce(ss: seq<Sys>, ls: seq<Label>, n: nat, cid: string, user: string)
    requires RunsAtOnce(ss, ls) && n < |ls| && ClearsAt(ss[n], ls[n], cid, user).Some?
    ensures ClearsAt(ss[n], ls[n], cid, user).value == ss[n].clock
  {
    var tid := ls[n].tid;
    assert Clears(ss[n].threads[tid], cid, user);
    assert n > 0 && Moves(ss, ls, n - 1) && Heeds(ss[n - 1], ls[n - 1]);
    ClearsSince(ss[n - 1], ls[n - 1], ss[n], tid, cid, user);
  }

  /** In memory, cleared history stays gone, however calls overlap. */
  lemma HiddenInMemory(ss: seq<Sys>, ls: seq<Label>, i: nat, j: nat, k: nat, user: string)
    requires RunsAtOnce(ss, ls) && i <= j < |ss| && k < |ss[i].store.msgs| && Hidden(ss, ls, i, k, user)
    ensures k < |ss[j].store.msgs| && Hidden(ss, ls, j, k, user)
  {
    ClearsAreAtOnce(ss, ls, ss[i].store.msgs[k].conversationId, user);
    HiddenStaysHidden(ss, ls, i, j, k, user);
  }
}
