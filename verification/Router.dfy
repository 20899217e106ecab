/** The guards in front of the service that decide which calls it ever sees
    (src/http/conversations-router.ts:21, 41-62, 105-133). */
module Router {
  import opened Domain
  import opened Query
  import opened Paging
  import opened Rows
  import opened Stores
  import opened Service
  import opened Machine
  import opened Concurrency
  import opened Safety
  import opened Simulation
  import opened Served

  const MAX_PARTICIPANTS := 50

  /** What `Number` makes of a query parameter. */
  datatype Number = NotANumber | Fraction | Integer(value: int)

  datatype Routed = BadRequest | Forbidden | Accepted(call: Call)

  /** `participantIds` is None when the body holds anything but an array of strings. */
  function PostConversations(userId: string, participantIds: Option<seq<string>>): Routed {
    if participantIds.None? then BadRequest
    else if |participantIds.value| > MAX_PARTICIPANTS then BadRequest
    else if userId !in participantIds.value then Forbidden
    else Accepted(Create(userId, participantIds.value))
  }

  /** `before` is the parsed date, None inside if it is not one. */
  function GetMessages(cid: string, userId: string, limit: Option<Number>, before: Option<Option<int>>): Routed {
    if limit.Some? && (!limit.value.Integer? || limit.value.value <= 0) then BadRequest
    else if before == Some(None) then BadRequest
    else
      Accepted(List(cid, userId, ListOptions(
        if limit.Some? then Some(limit.value.value) else None,
        if before.Some? then before.value else None,
        None)))
  }

  /** Which requests to create a conversation become a call, and which call; the rest is refused, as what. */
  lemma CreationsRouted(userId: string, participantIds: Option<seq<string>>)
    ensures var r := PostConversations(userId, participantIds);
      var wellFormed := participantIds.Some? && |participantIds.value| <= 50;
      && (r.BadRequest? <==> !wellFormed)
      && (r.Forbidden? <==> wellFormed && userId !in participantIds.value)
      && (forall call :: r == Accepted(call) <==>
            wellFormed && userId in participantIds.value && call == Create(userId, participantIds.value))
  {
  }

  /** And which to list messages: a limit must be a positive integer and `before` a date, each if it is given. */
  lemma ListingsRouted(cid: string, userId: string, limit: Option<Number>, before: Option<Option<int>>)
    ensures var r := GetMessages(cid, userId, limit, before);
      && (r.BadRequest? <==>
            (limit.Some? && !exists n :: n > 0 && limit.value == Integer(n)) || before == Some(None))
      && (forall call :: r == Accepted(call) ==>
            && call.List? && call.cid == cid && call.user == userId && call.o.after == None
            && (if limit.None? then call.o.limit == None
                else call.o.limit.Some? && limit.value == Integer(call.o.limit.value))
            && (if before.None? then call.o.before == None else before == Some(call.o.before)))
      && !r.Forbidden?
  {
    if limit.Some? && limit.value.Integer? && limit.value.value > 0 {
      assert exists n :: n > 0 && limit.value == Integer(n);
    }
  }

  ghost predicate ThroughRouter(call: Call) {
    match call
    case Create(requester, pids) => PostConversations(requester, Some(pids)) == Accepted(call)
    case List(cid, user, _) => exists limit, before :: GetMessages(cid, user, limit, before) == Accepted(call)
    case _ => true
  }

  /** What of it the refinement of the stores does not cover: a creation that names a participant twice, and a listing
      without a limit or with one above the cap of the database. */
  lemma RoutedButNotGood(call: Call)
    requires ThroughRouter(call)
    ensures !GoodCall(call) <==>
      || (call.Create? && !NoDuplicates(call.pids))
      || (call.List? && (call.o.limit == None || call.o.limit.value > MAX_LIMIT))
    ensures call.List? ==> call.o.after == None
  {
    match call
    case Create(requester, pids) => assert requester in pids;
    case List(cid, user, _) =>
      var limit, before :| GetMessages(cid, user, limit, before) == Accepted(call);
    case _ =>
  }

  /** The same call, run alone on an in-memory and on a Postgres store of the same content. */
  datatype Twice = Twice(memory: Store, tables: Store, env: Env, inMemory: seq<Step>, inTables: seq<Step>,
    out: Outcome, out': Outcome)

  ghost predicate BothPerform(t: Twice, call: Call) {
    && WellFormed(t.memory) && WellFormed(t.tables) && StoreSim(t.memory, t.tables) && DistinctInstants(t.memory.msgs)
    && Performs(t.memory, Go(Start(call)), t.env, t.inMemory, t.out)
    && Performs(t.tables, Go(Start(call)), t.env, t.inTables, t.out')
  }

  /** One more answer of a call run alone. */
  lemma Prepend(s: Store, op: Op, k: Cont, env: Env, ans: Answer, s': Store, trace: seq<Step>, out: Outcome)
    requires Exec(s, op, env, s', ans)
    requires var u := Resume(k, ans, env.now);
      u.published == [] && u.notified == [] && Performs(s', Go(u.phase), env, trace, out)
    ensures Performs(s, Go(Asking(op, k)), env, [Step(ans, s')] + trace, out)
  {
    var longer := [Step(ans, s')] + trace;
    assert longer[1..] == trace && longer[0] == Step(ans, s');
    var none: seq<Message>, nobody: seq<Notice> := [], [];
    assert none + [] == [] && nobody + [] == [];
  }

  lemma DuplicatesDiffer(requester: string, pids: seq<string>) returns (t: Twice)
    requires !NoDuplicates(pids)
    ensures BothPerform(t, Create(requester, pids)) && t.out.reply.OneConversation?
    ensures t.out'.reply == Refused(StoreThrew(DuplicateParticipant))
  {
    var env, m, p := Env("c", 0, true), Store(InMemory, [], []), Store(Postgres, [], []);
    var c := Conversation("c", Fresh(pids), 0);
    var m' := Store(InMemory, [c], []);
    var out, out' :=
      Outcome(m', OneConversation(c), [], []), Outcome(p, Refused(StoreThrew(DuplicateParticipant)), [], []);
    var trace := CreatePerforms(m, requester, pids, env, Created(c), m', out);
    var trace' := CreatePerforms(p, requester, pids, env, Thrown(DuplicateParticipant), p, out');
    t := Twice(m, p, env, trace, trace', out, out');
  }

  lemma CreatePerforms(s: Store, requester: string, pids: seq<string>, env: Env, ans: Answer, s': Store, out: Outcome)
    returns (trace: seq<Step>)
    requires env.gate && Exec(s, CreateConversation(pids), env, s', ans)
    requires var u := Resume(CreateWritten, ans, env.now);
      u.phase.Finished? && u.published == [] && u.notified == [] && out == Outcome(s', u.phase.reply, [], [])
    ensures Performs(s, Go(Start(Create(requester, pids))), env, trace, out)
  {
    Prepend(s, CreateConversation(pids), CreateWritten, env, ans, s', [], out);
    var rest := [Step(ans, s')] + [];
    Prepend(s, AskGate(requester, pids), GateForCreate(requester, pids), env, GateSays(true), s, rest, out);
    trace := [Step(GateSays(true), s)] + rest;
  }

  /** n messages of one conversation at successive instants. */
  function Crowd(cid: string, user: string, n: nat, from: int): (ms: seq<Message>)
    ensures |ms| == n
    ensures forall i :: 0 <= i < n ==>
      ms[i] == Message(seq(i, _ => 'm'), cid, user, "x", from + i, None) && |ms[i].id| == i
  {
    seq(n, i requires 0 <= i < n => Message(seq(i, _ => 'm'), cid, user, "x", from + i, None))
  }

  /** A member who has cleared nothing is looked up and goes on to the query as asked. */
  lemma MemberGoesOn(s: Store, c: Conversation, user: string, o: ListOptions, env: Env)
    requires s.convs == [c] && c.participants == [Participant(user, None, None)]
    ensures Exec(s, FindConversation(c.id), env, s, FoundConversation(Some(c)))
    ensures Resume(LookupForList(c.id, user, o), FoundConversation(Some(c)), env.now) ==
      Go(Asking(ListMessages(c.id, o), ListRead))
  {
    assert UserIds(c.participants) == [user];
    assert Find(s.convs, c.id) == Some(c)
      && FindParticipant(c.participants, user) == Some(Participant(user, None, None));
  }

  lemma MemberLists(s: Store, c: Conversation, user: string, o: ListOptions, page: seq<Message>, env: Env)
    returns (trace: seq<Step>)
    requires s.convs == [c] && c.participants == [Participant(user, None, None)]
    requires Exec(s, ListMessages(c.id, o), env, s, FoundMessages(page))
    ensures Performs(s, Go(Start(List(c.id, user, o))), env, trace, Outcome(s, Messages(page), [], []))
  {
    var out := Outcome(s, Messages(page), [], []);
    MemberGoesOn(s, c, user, o, env);
    Prepend(s, ListMessages(c.id, o), ListRead, env, FoundMessages(page), s, [], out);
    var rest := [Step(FoundMessages(page), s)] + [];
    Prepend(s, FindConversation(c.id), LookupForList(c.id, user, o), env, FoundConversation(Some(c)), s, rest, out);
    trace := [Step(FoundConversation(Some(c)), s)] + rest;
  }

  lemma CrowdFacts(cid: string, user: string, n: nat, from: int, o: ListOptions)
    requires o.after == None && (o.before.Some? ==> from + n <= o.before.value)
    ensures var ms := Crowd(cid, user, n, from);
      DistinctIds(ms) && DistinctInstants(ms) && Filter(ms, Where(cid, o)) == ms
  {
    var ms := Crowd(cid, user, n, from);
    forall i, j | 0 <= i < j < n
      ensures ms[i].id != ms[j].id
    {
      assert |ms[i].id| == i && |ms[j].id| == j;
    }
    FilterAll(ms, Where(cid, o));
  }

  lemma PageSizes(ms: seq<Message>, cid: string, o: ListOptions, page: seq<Message>)
    requires Filter(ms, Where(cid, o)) == ms && ListPostgres(ms, cid, o, page)
    ensures |ListInMemory(ms, cid, o)| == SliceCount(o.limit, |ms|) && |page| == Min(Clamp(o.limit), |ms|)
  {
    InMemoryIsPage(ms, cid, o);
    PostgresIsPage(ms, cid, o, page);
  }

  /** Enough messages for the limits of the two stores to tell. */
  lemma CrowdedPages(cid: string, user: string, o: ListOptions) returns (ms: seq<Message>, page: seq<Message>)
    requires (o.limit == None || o.limit.value > MAX_LIMIT) && o.after == None
    ensures DistinctIds(ms) && DistinctInstants(ms) && ListPostgres(ms, cid, o, page)
    ensures |ListInMemory(ms, cid, o)| > |page|
  {
    var n := Clamp(o.limit) + 1;
    var from := if o.before.Some? then o.before.value - n else 0;
    CrowdFacts(cid, user, n, from, o);
    ms, page := CrowdedBy(Crowd(cid, user, n, from), cid, o);
  }

  lemma CrowdedBy(crowd: seq<Message>, cid: string, o: ListOptions) returns (ms: seq<Message>, page: seq<Message>)
    requires (o.limit == None || o.limit.value > MAX_LIMIT) && |crowd| == Clamp(o.limit) + 1
    requires Filter(crowd, Where(cid, o)) == crowd
    ensures ms == crowd && ListPostgres(ms, cid, o, page) && |ListInMemory(ms, cid, o)| > |page|
  {
    ms := crowd;
    page := SomePage(ms, cid, o);
    PageSizes(ms, cid, o, page);
  }

  lemma LimitsDiffer(cid: string, user: string, o: ListOptions) returns (t: Twice)
    requires (o.limit == None || o.limit.value > MAX_LIMIT) && o.after == None
    ensures BothPerform(t, List(cid, user, o)) && t.out.reply.Messages? && t.out'.reply.Messages?
    ensures |t.out.reply.messages| > |t.out'.reply.messages|
  {
    var ms, page' := CrowdedPages(cid, user, o);
    var page, env := ListInMemory(ms, cid, o), Env("", 0, true);
    var c := Conversation(cid, [Participant(user, None, None)], 0);
    assert UserIds(c.participants) == [user];
    var m, p := Store(InMemory, [c], ms), Store(Postgres, [c], ms);
    var trace := MemberLists(m, c, user, o, page, env);
    var trace' := MemberLists(p, c, user, o, page', env);
    t := Twice(m, p, env, trace, trace', Outcome(m, Messages(page), [], []), Outcome(p, Messages(page'), [], []));
  }

  /** And on each of those the stores do disagree: there is a content, the same in both and with distinct instants,
      on which the two replies differ. */
  lemma RoutedCallsTheStoresDisagreeOn(call: Call) returns (t: Twice)
    requires ThroughRouter(call) && !GoodCall(call)
    ensures BothPerform(t, call) && !ReplySim(t.out.reply, t.out'.reply)
  {
    RoutedButNotGood(call);
    match call
    case Create(requester, pids) => t := DuplicatesDiffer(requester, pids);
    case List(cid, user, o) => t := LimitsDiffer(cid, user, o);
  }

  ghost predicate AllRouted(ls: seq<Label>) {
    forall i :: 0 <= i < |ls| && ls[i].Begin? ==> ThroughRouter(ls[i].call)
  }

  ghost predicate RoutedState(s: Sys) {
    && (forall tid :: tid in s.threads ==> ThroughRouter(s.threads[tid].call))
    && (forall k :: 0 <= k < |s.store.convs| ==> 1 <= |s.store.convs[k].participants| <= MAX_PARTICIPANTS)
  }

  lemma RoutedStep(s: Sys, l: Label, s': Sys)
    requires Inv(s) && RoutedState(s) && Next(s, l, s') && (l.Begin? ==> ThroughRouter(l.call))
    ensures RoutedState(s')
  {
    StepKeeps(s, l, s');
    SameSizes(s.store.convs, s'.store.convs);
    if l.Execute? {
      var th := s.threads[l.tid];
      assert ThreadOk(s.store, s.grants, l.tid, th);
      var ans :| Exec(s.store, th.op, Env(l.id, s.clock, l.gate), s'.store, ans)
        && s' == Executed(s, l.tid, s'.store, ans);
      CreatesFew(s.store, s.grants, l.tid, th.call, th.op, th.k, Env(l.id, s.clock, l.gate), s'.store, ans);
    }
  }

  lemma CreatesFew(s: Store, grants: set<nat>, tid: nat, call: Call, op: Op, k: Cont, env: Env, s': Store, ans: Answer)
    requires WaitingOk(s, grants, tid, call, op, k) && ThroughRouter(call) && Exec(s, op, env, s', ans)
    ensures forall i :: |s.convs| <= i < |s'.convs| ==> 1 <= |s'.convs[i].participants| <= MAX_PARTICIPANTS
  {
    if op.CreateConversation? {
      CreatorIs(s, grants, tid, call, op, k);
    }
  }

  lemma SameSizes(a: seq<Conversation>, b: seq<Conversation>)
    requires Keeps(a, b)
    ensures forall k :: 0 <= k < |a| ==> |b[k].participants| == |a[k].participants|
  {
    forall k | 0 <= k < |a|
      ensures |b[k].participants| == |a[k].participants|
    {
      assert SameMembers(a[k], b[k]);
      assert |UserIds(a[k].participants)| == |UserIds(b[k].participants)|;
    }
  }

  lemma CreatorIs(s: Store, grants: set<nat>, tid: nat, call: Call, op: Op, k: Cont)
    requires WaitingOk(s, grants, tid, call, op, k) && op.CreateConversation? && ThroughRouter(call)
    ensures 1 <= |op.pids| <= MAX_PARTICIPANTS
  {
    assert call.Create? && op.pids == call.pids;
    assert call.requester in call.pids;
  }

  lemma {:induction false} RoutedRun(ss: seq<Sys>, ls: seq<Label>, n: nat)
    requires Run(ss, ls) && AllRouted(ls) && n < |ss|
    ensures RoutedState(ss[n])
  {
    if n > 0 {
      RoutedRun(ss, ls, n - 1);
      RunInv(ss, ls, n - 1);
      assert Moves(ss, ls, n - 1);
      RoutedStep(ss[n - 1], ls[n - 1], ss[n]);
    }
  }

  /** The JOIN loses a conversation without participants; behind the router there is none, so in every reachable
      state either store finds every conversation there is, with its members. */
  lemma NothingLostInTheJoin(ss: seq<Sys>, ls: seq<Label>, n: nat, k: nat, env: Env, s': Store, ans: Answer)
    requires Run(ss, ls) && AllRouted(ls) && n < |ss| && k < |ss[n].store.convs|
    requires Exec(ss[n].store, FindConversation(ss[n].store.convs[k].id), env, s', ans)
    ensures 1 <= |ss[n].store.convs[k].participants| <= MAX_PARTICIPANTS
    ensures ans.FoundConversation? && ans.found.Some? && Same(ans.found.value, ss[n].store.convs[k])
  {
    RoutedRun(ss, ls, n);
    RunInv(ss, ls, n);
    var cs := ss[n].store.convs;
    SameId(cs, cs[k], Find(cs, cs[k].id).value);
  }

  /** Nobody makes a conversation they are not part of: behind the router the creation that made a conversation was
      asked for by one of its members. */
  lemma FoundersAreMembers(ss: seq<Sys>, ls: seq<Label>, n: nat, k: nat) returns (tid: nat)
    requires Run(ss, ls) && AllRouted(ls) && n < |ss| && k < |ss[n].store.convs|
    ensures Founds(ss[n], k, tid)
    ensures ss[n].threads[tid].call.requester in UserIds(ss[n].store.convs[k].participants)
  {
    tid := ConversationsAreFounded(ss, ls, n, k);
    RoutedRun(ss, ls, n);
    var call := ss[n].threads[tid].call;
    CreationsRouted(call.requester, Some(call.pids));
  }
}
