/** Deleting a conversation is invisible on the wire too: without u's deletions every socket of every instance is sent
    the same frames. src/websocket/websocket-server.ts:25-41, src/core/messaging-service.ts:199-212 */
module Unseen {
  import opened Domain
  import opened Stores
  import opened Machine
  import opened FanOut
  import opened Live
  import opened Purge

  /** The same happening, but for what else a lookup found beside whom to push to. */
  ghost predicate SameHappening(g: Happening, h: Happening) {
    g == h || (g.Handle? && h.Handle? && g.i == h.i && g.p == h.p && Recipients(g.found) == Recipients(h.found))
  }

  ghost predicate SameLogs(log: seq<Happening>, log': seq<Happening>) {
    |log| == |log'| && forall k :: 0 <= k < |log| ==> SameHappening(log[k], log'[k])
  }

  /** It leaves every instance in the same state. */
  lemma {:induction false} SameCluster(n: nat, log: seq<Happening>, log': seq<Happening>)
    requires Happens(n, log) && SameLogs(log, log')
    ensures Happens(n, log') && Reached(n, log') == Reached(n, log)
    decreases |log|
  {
    if log != [] {
      var k := |log| - 1;
      assert SameHappening(log[k], log'[k]);
      forall j | 0 <= j < k
        ensures SameHappening(log[..k][j], log'[..k][j])
      {
        assert SameHappening(log[j], log'[j]);
      }
      SameCluster(n, log[..k], log'[..k]);
    }
  }

  /** The purged run can answer a lookup so that the same users are pushed to. */
  lemma SameRecipients(a: Store, b: Store, cid: string, env: Env, s': Store, found: Option<Conversation>, u: string)
    returns (found': Option<Conversation>)
    requires StoreLow(a, b, u) && Exec(a, FindConversation(cid), env, s', FoundConversation(found))
    ensures Exec(b, FindConversation(cid), env, b, FoundConversation(found'))
    ensures Recipients(found') == Recipients(found)
  {
    var ans' := ReadLow(a, b, FindConversation(cid), FindConversation(cid), env, FoundConversation(found), u, false);
    found' := ans'.found;
    if found.Some? {
      LowIds(found.value.participants, found'.value.participants, u);
    }
  }

  /** Happening h, in place of the one at k, takes place in state p. */
  ghost predicate Fits(p: Sys, n: nat, log: seq<Happening>, k: nat, h: Happening)
    requires k < |log|
  {
    && SameHappening(log[k], h)
    && match h
       case Publish(m) => exists tid :: Post(tid, m) in p.published
       case Handle(_, q, found) =>
         && Happens(n, log[..k]) && q < |Reached(n, log[..k]).published|
         && exists env, s' ::
              Exec(p.store, FindConversation(Reached(n, log[..k]).published[q].conversationId), env, s',
                FoundConversation(found))
       case _ => true
  }

  lemma SameMoment(ss: seq<Sys>, n: nat, log: seq<Happening>, when: seq<nat>, k: nat, p: Sys, u: string)
    returns (h: Happening)
    requires k < |log| == |when| && TakesPlace(ss, n, log, when, k) && SysLow(ss[when[k]], p, u)
    ensures Fits(p, n, log, k, h)
  {
    h := log[k];
    var s := ss[when[k]];
    if h.Handle? {
      var cid := Reached(n, log[..k]).published[h.p].conversationId;
      var env, s' :| Exec(s.store, FindConversation(cid), env, s', FoundConversation(h.found));
      var found' := SameRecipients(s.store, p.store, cid, env, s', h.found, u);
      h := h.(found := found');
    }
  }

  lemma {:induction false} SameMoments(ss: seq<Sys>, ps: seq<Sys>, at: seq<nat>, u: string, n: nat,
      log: seq<Happening>, when: seq<nat>, k: nat)
    returns (log': seq<Happening>)
    requires Serves(ss, n, log, when) && k <= |log|
    requires |at| == |ss| && forall i :: 0 <= i < |ss| ==> Corresponds(ss, ps, at, u, i)
    ensures |log'| == k
    ensures forall j :: 0 <= j < k ==> when[j] < |at| && at[when[j]] < |ps| && Fits(ps[at[when[j]]], n, log, j, log'[j])
  {
    if k == 0 {
      log' := [];
    } else {
      log' := SameMoments(ss, ps, at, u, n, log, when, k - 1);
      assert TakesPlace(ss, n, log, when, k - 1) && Corresponds(ss, ps, at, u, when[k - 1]);
      var h := SameMoment(ss, n, log, when, k - 1, ps[at[when[k - 1]]], u);
      log' := log' + [h];
    }
  }

  lemma {:induction false} AtForward(ss: seq<Sys>, ps: seq<Sys>, at: seq<nat>, u: string, i: nat, j: nat)
    requires |at| == |ss| && i <= j < |ss| && forall k :: 0 <= k < |ss| ==> Corresponds(ss, ps, at, u, k)
    ensures at[i] <= at[j]
    decreases j - i
  {
    if i < j {
      AtForward(ss, ps, at, u, i, j - 1);
      assert Corresponds(ss, ps, at, u, j);
    }
  }

  /** Whatever instances do beside a run of the service, they can do beside the run without u's deletions, and end up
      in the same state, every frame on every socket included. */
  lemma NoFrameChanges(ss: seq<Sys>, ls: seq<Label>, u: string, n: nat, log: seq<Happening>, when: seq<nat>)
    returns (ps: seq<Sys>, log': seq<Happening>, when': seq<nat>)
    requires Run(ss, ls) && Serves(ss, n, log, when)
    ensures Run(ps, Purged(ls, u)) && ps[0] == ss[0]
    ensures Serves(ps, n, log', when') && SameLogs(log, log')
    ensures Reached(n, log') == Reached(n, log)
  {
    var at;
    assert ls[..|ls|] == ls;
    ps, at := PurgedRun(ss, ls, u, |ls|);
    log' := SameMoments(ss, ps, at, u, n, log, when, |log|);
    assert forall k :: 0 <= k < |log| ==> TakesPlace(ss, n, log, when, k);
    when' := seq(|log|, k requires 0 <= k < |log| => at[when[k]]);
    SameCluster(n, log, log');
    forall k | 0 <= k < |log|
      ensures TakesPlace(ps, n, log', when', k)
    {
      FitsTakesPlace(ps, n, log, log', when', k);
    }
    forall j, k | 0 <= j <= k < |when'|
      ensures when'[j] <= when'[k]
    {
      AtForward(ss, ps, at, u, when[j], when[k]);
    }
  }

  lemma FitsTakesPlace(ps: seq<Sys>, n: nat, log: seq<Happening>, log': seq<Happening>, when: seq<nat>, k: nat)
    requires Happens(n, log) && SameLogs(log, log') && k < |log| == |when| && when[k] < |ps|
    requires Fits(ps[when[k]], n, log, k, log'[k])
    ensures TakesPlace(ps, n, log', when, k)
  {
    if log'[k].Handle? {
      forall j | 0 <= j < k
        ensures SameHappening(log[..k][j], log'[..k][j])
      {
        assert SameHappening(log[j], log'[j]);
      }
      SameCluster(n, log[..k], log'[..k]);
    }
  }
}
