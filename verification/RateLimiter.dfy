/** The fixed-window limiter on WebSocket connection attempts, with its background sweep
    (src/websocket/connection-rate-limiter.ts). Times are integers; every call is handed its `now`. */
module RateLimiter {

  datatype Window = Window(count: int, start: int)

  type Windows = map<string, Window>

  datatype Config = Config(limit: int, windowMs: int) {
    /** A window always admits the attempt that opens it, so a limit below one acts as one. */
    function Budget(): int {
      if limit < 1 then 1 else limit
    }
  }

  predicate Opens(ws: Windows, key: string, now: int, c: Config) {
    key !in ws || now - ws[key].start >= c.windowMs
  }

  predicate Admits(ws: Windows, key: string, now: int, c: Config) {
    Opens(ws, key, now, c) || ws[key].count < c.limit
  }

  function AfterAttempt(ws: Windows, key: string, now: int, c: Config): Windows {
    if Opens(ws, key, now, c) then ws[key := Window(1, now)]
    else if ws[key].count < c.limit then ws[key := Window(ws[key].count + 1, ws[key].start)]
    else ws
  }

  function AfterSweep(ws: Windows, now: int, c: Config): Windows {
    map k | k in ws && now - ws[k].start < c.windowMs :: ws[k]
  }

  class ConnectionRateLimiter {
    const config: Config
    var windows: Windows

    constructor (limit: int, windowMs: int)
      ensures config == Config(limit, windowMs) && windows == map[]
    {
      config := Config(limit, windowMs);
      windows := map[];
    }

    method Allow(key: string, now: int) returns (allowed: bool)
      modifies this
      ensures allowed == Admits(old(windows), key, now, config)
      ensures windows == AfterAttempt(old(windows), key, now, config)
    {
      if key !in windows || now - windows[key].start >= config.windowMs {
        windows := windows[key := Window(1, now)];
        return true;
      }
      var window := windows[key];
      if window.count >= config.limit {
        return false;
      }
      windows := windows[key := window.(count := window.count + 1)];
      return true;
    }

    method Sweep(now: int)
      modifies this
      ensures windows == AfterSweep(old(windows), now, config)
    {
      var todo := windows.Keys;
      while todo != {}
        invariant todo <= windows.Keys <= old(windows).Keys
        invariant forall k :: k in windows ==> windows[k] == old(windows)[k]
        invariant forall k :: k in old(windows) && k !in todo ==>
          (k in windows <==> now - old(windows)[k].start < config.windowMs)
        decreases todo
      {
        var key :| key in todo;
        todo := todo - {key};
        if now - windows[key].start >= config.windowMs {
          windows := windows - {key};
        }
      }
    }
  }

  // Runs: any mixture of attempts and sweeps on a limiter that starts empty.

  datatype Event = Attempt(key: string, at: int) | Sweep(at: int)

  function After(evs: seq<Event>, c: Config): Windows {
    if evs == [] then map[]
    else
      var ws := After(evs[..|evs| - 1], c);
      match evs[|evs| - 1]
      case Attempt(key, at) => AfterAttempt(ws, key, at, c)
      case Sweep(at) => AfterSweep(ws, at, c)
  }

  /** The verdicts on the attempts of a run, in order. */
  function Answers(evs: seq<Event>, c: Config): seq<bool> {
    if evs == [] then []
    else
      var before := evs[..|evs| - 1];
      match evs[|evs| - 1]
      case Attempt(key, at) => Answers(before, c) + [Admits(After(before, c), key, at, c)]
      case Sweep(_) => Answers(before, c)
  }

  function WithoutSweeps(evs: seq<Event>): seq<Event> {
    if evs == [] then []
    else WithoutSweeps(evs[..|evs| - 1]) + if evs[|evs| - 1].Sweep? then [] else [evs[|evs| - 1]]
  }

  /** How many attempts of `key` were admitted at a time in the half-open interval from lo to hi. */
  function Admitted(evs: seq<Event>, key: string, lo: int, hi: int, c: Config): nat {
    if evs == [] then 0
    else
      var before := evs[..|evs| - 1];
      var last := evs[|evs| - 1];
      Admitted(before, key, lo, hi, c) +
      if last.Attempt? && last.key == key && lo <= last.at < hi && Admits(After(before, c), key, last.at, c)
      then 1 else 0
  }

  /** How many windows of `key` were opened at or after lo. */
  function Opened(evs: seq<Event>, key: string, lo: int, c: Config): nat {
    if evs == [] then 0
    else
      var before := evs[..|evs| - 1];
      var last := evs[|evs| - 1];
      Opened(before, key, lo, c) +
      if last.Attempt? && last.key == key && lo <= last.at && Opens(After(before, c), key, last.at, c)
      then 1 else 0
  }

  datatype Start = Never | At(time: int)

  /** When the current window of `key` was opened, whether or not a sweep has dropped its entry since. */
  function LastOpened(evs: seq<Event>, key: string, c: Config): Start {
    if evs == [] then Never
    else
      var before := evs[..|evs| - 1];
      var last := evs[|evs| - 1];
      if last.Attempt? && last.key == key && Opens(After(before, c), key, last.at, c) then At(last.at)
      else LastOpened(before, key, c)
  }

  ghost predicate Monotone(evs: seq<Event>) {
    forall i, j :: 0 <= i < j < |evs| ==> evs[i].at <= evs[j].at
  }

  /** Weaker than Monotone: no attempt is timed before a sweep that already ran. */
  ghost predicate SweepsAreInThePast(evs: seq<Event>) {
    forall i, j :: 0 <= i < j < |evs| && evs[i].Sweep? && evs[j].Attempt? ==> evs[i].at <= evs[j].at
  }

  // Sweep transparency.

  ghost predicate SweptBefore(evs: seq<Event>, start: int, c: Config) {
    exists i :: 0 <= i < |evs| && evs[i].Sweep? && evs[i].at - start >= c.windowMs
  }

  lemma SweptBeforeMono(evs: seq<Event>, e: Event, start: int, c: Config)
    requires SweptBefore(evs, start, c)
    ensures SweptBefore(evs + [e], start, c)
  {
    var i :| 0 <= i < |evs| && evs[i].Sweep? && evs[i].at - start >= c.windowMs;
    assert (evs + [e])[i] == evs[i];
  }

  ghost predicate Swept(evs: seq<Event>, ws: Windows, bare: Windows, c: Config) {
    && (forall k :: k in ws ==> k in bare && bare[k] == ws[k])
    && (forall k :: k in bare && k !in ws ==> SweptBefore(evs, bare[k].start, c))
  }

  lemma SweptStep(evs: seq<Event>, e: Event, ws: Windows, bare: Windows, c: Config)
    requires Swept(evs, ws, bare, c) && SweepsAreInThePast(evs + [e])
    ensures e.Sweep? ==> Swept(evs + [e], AfterSweep(ws, e.at, c), bare, c)
    ensures e.Attempt? ==>
      && Admits(ws, e.key, e.at, c) == Admits(bare, e.key, e.at, c)
      && Swept(evs + [e], AfterAttempt(ws, e.key, e.at, c), AfterAttempt(bare, e.key, e.at, c), c)
  {
    var all := evs + [e];
    assert all[|evs|] == e;
    forall k | k in bare && k !in ws
      ensures SweptBefore(all, bare[k].start, c)
      ensures e.Attempt? ==> Opens(bare, k, e.at, c)
    {
      var i :| 0 <= i < |evs| && evs[i].Sweep? && evs[i].at - bare[k].start >= c.windowMs;
      assert all[i] == evs[i];
    }
  }

  /** Between a run and the same run without its sweeps, entries differ only by ones a sweep has expired. */
  lemma {:induction false} Coupled(evs: seq<Event>, c: Config)
    requires SweepsAreInThePast(evs)
    ensures Swept(evs, After(evs, c), After(WithoutSweeps(evs), c), c)
    ensures Answers(evs, c) == Answers(WithoutSweeps(evs), c)
  {
    if evs != [] {
      var before, e := evs[..|evs| - 1], evs[|evs| - 1];
      assert evs == before + [e];
      Coupled(before, c);
      SweptStep(before, e, After(before, c), After(WithoutSweeps(before), c), c);
      if e.Attempt? {
        assert WithoutSweeps(evs)[..|WithoutSweeps(evs)| - 1] == WithoutSweeps(before);
      } else {
        assert WithoutSweeps(evs) == WithoutSweeps(before);
      }
    }
  }

  /** Sweeping only saves memory: dropping every sweep from a run changes no verdict. */
  lemma SweepTransparency(evs: seq<Event>, c: Config)
    requires SweepsAreInThePast(evs)
    ensures Answers(evs, c) == Answers(WithoutSweeps(evs), c)
  {
    Coupled(evs, c);
  }

  /** The clock matters: an attempt timed before an earlier sweep can be admitted only because of that sweep. */
  lemma LateSweepChangesAnswer()
    ensures var evs := [Attempt("ip", 0), Sweep(1000), Attempt("ip", 500)];
      && Answers(evs, Config(1, 1000)) == [true, true]
      && Answers(WithoutSweeps(evs), Config(1, 1000)) == [true, false]
  {
    var c := Config(1, 1000);
    var e0, e1, e2 := Attempt("ip", 0), Sweep(1000), Attempt("ip", 500);
    assert [e0][..0] == [] && [e0, e1][..1] == [e0] && [e0, e1, e2][..2] == [e0, e1];
    assert [e0, e2][..1] == [e0];
    assert After([e0], c) == map["ip" := Window(1, 0)];
    assert After([e0, e1], c) == map[];
    assert WithoutSweeps([e0]) == [e0];
    assert WithoutSweeps([e0, e1]) == [e0];
    assert WithoutSweeps([e0, e1, e2]) == [e0, e2];
    assert Answers([e0], c) == [true];
    assert Answers([e0, e1], c) == [true];
  }

  // What an entry says about the history.

  /** An entry is the last opened window; a missing entry is one that never was or that a sweep expired. */
  lemma {:induction false} EntryIsLastWindow(evs: seq<Event>, key: string, c: Config)
    ensures var ws := After(evs, c);
      && (key in ws ==> LastOpened(evs, key, c) == At(ws[key].start) && 1 <= ws[key].count <= c.Budget())
      && (key !in ws && LastOpened(evs, key, c).At? ==> SweptBefore(evs, LastOpened(evs, key, c).time, c))
    ensures LastOpened(evs, key, c).At? ==>
      exists i :: 0 <= i < |evs| && evs[i].at == LastOpened(evs, key, c).time
  {
    if evs != [] {
      var before, e := evs[..|evs| - 1], evs[|evs| - 1];
      assert evs == before + [e];
      EntryIsLastWindow(before, key, c);
      if key !in After(before, c) && LastOpened(before, key, c).At? {
        SweptBeforeMono(before, e, LastOpened(before, key, c).time, c);
      }
      if LastOpened(before, key, c).At? {
        var i :| 0 <= i < |before| && before[i].at == LastOpened(before, key, c).time;
        assert evs[i].at == before[i].at;
      }
      assert evs[|evs| - 1] == e;
    }
  }

  /** After a sweep at `t` the map holds exactly the keys whose current window started less than a window ago. */
  lemma SweepIsExact(evs: seq<Event>, t: int, c: Config, key: string)
    requires Monotone(evs + [Sweep(t)])
    ensures key in After(evs + [Sweep(t)], c) <==>
      LastOpened(evs, key, c).At? && t - c.windowMs < LastOpened(evs, key, c).time
    ensures key in After(evs + [Sweep(t)], c) ==> LastOpened(evs, key, c).time <= t
  {
    var all := evs + [Sweep(t)];
    assert all[..|all| - 1] == evs;
    EntryIsLastWindow(evs, key, c);
    var ws := After(evs, c);
    if LastOpened(evs, key, c).At? {
      var i :| 0 <= i < |evs| && evs[i].at == LastOpened(evs, key, c).time;
      assert all[i].at <= all[|evs|].at;
      if key !in ws {
        var j :| 0 <= j < |evs| && evs[j].Sweep? && evs[j].at - LastOpened(evs, key, c).time >= c.windowMs;
        assert all[j].at <= all[|evs|].at;
      }
    }
  }

  /** The count of a live entry is exactly the number of attempts admitted since its window opened. */
  lemma {:induction false} CountIsAdmitted(evs: seq<Event>, key: string, hi: int, c: Config)
    requires Monotone(evs) && c.windowMs > 0
    requires forall i :: 0 <= i < |evs| ==> evs[i].at < hi
    ensures var ws := After(evs, c);
      key in ws ==> Admitted(evs, key, ws[key].start, hi, c) == ws[key].count
  {
    if evs != [] {
      var before, e := evs[..|evs| - 1], evs[|evs| - 1];
      CountIsAdmitted(before, key, hi, c);
      var ws := After(before, c);
      if e.Attempt? && e.key == key && Opens(ws, key, e.at, c) {
        NoneYet(before, key, e.at, hi, c);
      } else if key in ws {
        EntryIsLastWindow(before, key, c);
        var i :| 0 <= i < |before| && before[i].at == LastOpened(before, key, c).time;
        assert evs[i].at <= evs[|before|].at;
      }
    }
  }

  /** Nothing has been admitted from `lo` on when the current window closed by then. */
  lemma {:induction false} NoneYet(evs: seq<Event>, key: string, lo: int, hi: int, c: Config)
    requires Monotone(evs) && c.windowMs > 0
    requires forall i :: 0 <= i < |evs| ==> evs[i].at <= lo
    requires Opens(After(evs, c), key, lo, c)
    ensures Admitted(evs, key, lo, hi, c) == 0
  {
    if evs != [] {
      var before, e := evs[..|evs| - 1], evs[|evs| - 1];
      assert evs == before + [e];
      if e.at == lo {
        var ws := After(before, c);
        if e.Attempt? {
          assert Opens(ws, key, lo, c);
        } else {
          SweptThenOpen(before, key, e.at, c);
        }
        NoneYet(before, key, lo, hi, c);
      } else {
        AllEarlier(before, key, lo, hi, c);
      }
    }
  }

  lemma SweptThenOpen(evs: seq<Event>, key: string, t: int, c: Config)
    requires Opens(AfterSweep(After(evs, c), t, c), key, t, c)
    ensures Opens(After(evs, c), key, t, c)
  {
  }

  lemma {:induction false} AllEarlier(evs: seq<Event>, key: string, lo: int, hi: int, c: Config)
    requires forall i :: 0 <= i < |evs| ==> evs[i].at < lo
    ensures Admitted(evs, key, lo, hi, c) == 0
  {
    if evs != [] {
      AllEarlier(evs[..|evs| - 1], key, lo, hi, c);
    }
  }

  lemma {:induction false} AdmittedWiden(evs: seq<Event>, key: string, lo: int, lo': int, hi: int, c: Config)
    requires lo' <= lo
    ensures Admitted(evs, key, lo, hi, c) <= Admitted(evs, key, lo', hi, c)
  {
    if evs != [] {
      AdmittedWiden(evs[..|evs| - 1], key, lo, lo', hi, c);
    }
  }

  /** Every refusal is justified: a whole budget of that key was admitted less than a window ago. */
  lemma RefusalJustified(evs: seq<Event>, key: string, t: int, c: Config)
    requires Monotone(evs + [Attempt(key, t)])
    requires !Admits(After(evs, c), key, t, c)
    ensures Admitted(evs, key, t - c.windowMs + 1, t + 1, c) >= c.Budget()
  {
    var all := evs + [Attempt(key, t)];
    forall i | 0 <= i < |evs|
      ensures evs[i].at <= t
    {
      assert all[i].at <= all[|evs|].at;
    }
    forall i, j | 0 <= i < j < |evs|
      ensures evs[i].at <= evs[j].at
    {
      assert all[i].at <= all[j].at;
    }
    var w := After(evs, c)[key];
    EntryIsLastWindow(evs, key, c);
    CountIsAdmitted(evs, key, t + 1, c);
    AdmittedWiden(evs, key, w.start, t - c.windowMs + 1, t + 1, c);
  }

  // The rate bound.

  lemma MulLess(a: int, b: int, w: int)
    requires w > 0 && a * w < b * w
    ensures a < b
  {
  }

  lemma MulLeq(a: int, b: int, l: int)
    requires a <= b && l >= 0
    ensures a * l <= b * l
  {
  }

  lemma MulNext(a: int, l: int)
    ensures (a + 1) * l == a * l + l
  {
  }

  /** How much of the budget the current window of `key` may already have spent. */
  function Spent(evs: seq<Event>, key: string, c: Config): int {
    if key in After(evs, c) then After(evs, c)[key].count else c.Budget()
  }

  /** `n` admissions and `opens` opened windows, charged to the k windows from `a` on: a window opened
      earlier contributes all but its opening attempt, one opened inside contributes what it has spent. */
  ghost predicate Charged(n: int, opens: int, last: Start, spent: int, a: int, k: nat, c: Config) {
    && n <= (k + 1) * c.Budget() - 1
    && match last
       case Never => n == 0 && opens == 0
       case At(s) =>
         if s < a then opens == 0 && n <= spent - 1
         else
           && opens >= 1
           && a + (opens - 1) * c.windowMs <= s
           && n <= opens * c.Budget() - 1 + spent
  }

  lemma ChargeOpening(n: int, opens: int, last: Start, spent: int, t: int, a: int, k: nat, c: Config)
    requires Charged(n, opens, last, spent, a, k, c) && c.windowMs > 0 && k >= 1 && spent <= c.Budget()
    requires last.At? ==> t - last.time >= c.windowMs
    requires t < a ==> n == 0
    ensures Charged(n + if a <= t < a + k * c.windowMs then 1 else 0,
                    opens + if a <= t then 1 else 0, At(t), 1, a, k, c)
  {
    if a <= t {
      MulNext(opens - 1, c.windowMs);
      MulNext(opens, c.Budget());
      MulNext(k, c.Budget());
      if t < a + k * c.windowMs {
        MulLess(opens, k, c.windowMs);
        MulLeq(opens + 1, k, c.Budget());
      }
    } else {
      MulLeq(2, k + 1, c.Budget());
    }
  }

  lemma ChargeSpending(n: int, opens: int, last: Start, spent: int, t: int, a: int, k: nat, c: Config)
    requires Charged(n, opens, last, spent, a, k, c) && c.windowMs > 0 && k >= 1 && spent < c.Budget()
    requires last.At? && last.time <= t
    ensures Charged(n + if a <= t < a + k * c.windowMs then 1 else 0, opens, last, spent + 1, a, k, c)
  {
    MulNext(k, c.Budget());
    if last.time < a {
      MulLeq(2, k + 1, c.Budget());
    } else if t < a + k * c.windowMs {
      MulLess(opens - 1, k, c.windowMs);
      MulLeq(opens, k, c.Budget());
    }
  }

  lemma ChargeStep(before: seq<Event>, e: Event, key: string, a: int, k: nat, hi: int, c: Config)
    requires Monotone(before + [e]) && c.windowMs > 0 && k >= 1 && hi == a + k * c.windowMs
    requires Charged(Admitted(before, key, a, hi, c), Opened(before, key, a, c),
                     LastOpened(before, key, c), Spent(before, key, c), a, k, c)
    requires e.Attempt? && e.key == key
    ensures var evs := before + [e];
      Charged(Admitted(evs, key, a, hi, c), Opened(evs, key, a, c), LastOpened(evs, key, c), Spent(evs, key, c), a, k,
        c)
  {
    var evs := before + [e];
    assert evs[..|before|] == before;
    EntryIsLastWindow(before, key, c);
    var n, opens := Admitted(before, key, a, hi, c), Opened(before, key, a, c);
    var last, spent := LastOpened(before, key, c), Spent(before, key, c);
    forall i | 0 <= i < |before|
      ensures before[i].at <= e.at
    {
      assert evs[i].at <= evs[|before|].at;
    }
    if Opens(After(before, c), key, e.at, c) {
      OpensAfterWindow(before, e, key, c);
      if e.at < a {
        AllEarlier(before, key, a, hi, c);
      }
      ChargeOpening(n, opens, last, spent, e.at, a, k, c);
    } else if spent < c.limit {
      ChargeSpending(n, opens, last, spent, e.at, a, k, c);
    }
  }

  lemma {:induction false} Charge(evs: seq<Event>, key: string, a: int, k: nat, hi: int, c: Config)
    requires Monotone(evs) && c.windowMs > 0 && k >= 1 && hi == a + k * c.windowMs
    ensures Charged(Admitted(evs, key, a, hi, c), Opened(evs, key, a, c),
                    LastOpened(evs, key, c), Spent(evs, key, c), a, k, c)
  {
    if evs == [] {
      MulLeq(2, k + 1, c.Budget());
    } else {
      var before, e := evs[..|evs| - 1], evs[|evs| - 1];
      assert evs == before + [e];
      Charge(before, key, a, k, hi, c);
      if e.Attempt? && e.key == key {
        ChargeStep(before, e, key, a, k, hi, c);
      } else {
        EntryIsLastWindow(before, key, c);
      }
    }
  }

  /** Windows of one key start at least a window apart, swept or not. */
  lemma OpensAfterWindow(evs: seq<Event>, e: Event, key: string, c: Config)
    requires Monotone(evs + [e]) && Opens(After(evs, c), key, e.at, c)
    ensures LastOpened(evs, key, c).At? ==> e.at - LastOpened(evs, key, c).time >= c.windowMs
  {
    EntryIsLastWindow(evs, key, c);
    if LastOpened(evs, key, c).At? && key !in After(evs, c) {
      var i :| 0 <= i < |evs| && evs[i].Sweep? && evs[i].at - LastOpened(evs, key, c).time >= c.windowMs;
      assert (evs + [e])[i].at <= (evs + [e])[|evs|].at;
    }
  }

  /** The sliding rate bound: in every interval of k windows, with sweeps anywhere in the run,
      at most (k + 1) * limit - 1 attempts of one key are admitted. */
  lemma RateBound(evs: seq<Event>, key: string, a: int, k: nat, c: Config)
    requires Monotone(evs) && k >= 1
    ensures Admitted(evs, key, a, a + k * c.windowMs, c) <= (k + 1) * c.Budget() - 1
  {
    if c.windowMs > 0 {
      Charge(evs, key, a, k, a + k * c.windowMs, c);
    } else {
      MulLeq(2, k + 1, c.Budget());
      assert k * c.windowMs <= 0 by { MulLeq(1, k, -c.windowMs); }
      EmptyInterval(evs, key, a, a + k * c.windowMs, c);
    }
  }

  lemma {:induction false} EmptyInterval(evs: seq<Event>, key: string, lo: int, hi: int, c: Config)
    requires hi <= lo
    ensures Admitted(evs, key, lo, hi, c) == 0
  {
    if evs != [] {
      EmptyInterval(evs[..|evs| - 1], key, lo, hi, c);
    }
  }

  // The bound is the best possible.

  function Burst(key: string, t: int, n: nat): seq<Event> {
    seq(n, _ => Attempt(key, t))
  }

  /** A burst that fits in the rest of a live window is admitted whole. */
  lemma {:induction false} BurstAdmitted(evs: seq<Event>, key: string, t: int, n: nat, lo: int, hi: int, c: Config)
    requires key in After(evs, c) && !Opens(After(evs, c), key, t, c)
    requires After(evs, c)[key].count + n <= c.limit
    requires lo <= t < hi
    ensures var w := After(evs, c)[key];
      After(evs + Burst(key, t, n), c) == After(evs, c)[key := Window(w.count + n, w.start)]
    ensures Admitted(evs + Burst(key, t, n), key, lo, hi, c) == Admitted(evs, key, lo, hi, c) + n
  {
    var all := evs + Burst(key, t, n);
    if n == 0 {
      assert all == evs;
    } else {
      BurstAdmitted(evs, key, t, n - 1, lo, hi, c);
      assert all[..|all| - 1] == evs + Burst(key, t, n - 1);
      assert all[|all| - 1] == Attempt(key, t);
    }
  }

  /** A burst of a whole budget at the start of a new window is admitted whole. */
  lemma FreshBurst(evs: seq<Event>, key: string, t: int, lo: int, hi: int, c: Config)
    requires Opens(After(evs, c), key, t, c)
    requires c.limit >= 1 && c.windowMs > 0 && lo <= t < hi
    ensures var all := evs + Burst(key, t, c.limit);
      && key in After(all, c) && After(all, c)[key].start == t
      && Admitted(all, key, lo, hi, c) == Admitted(evs, key, lo, hi, c) + c.limit
  {
    var first := evs + [Attempt(key, t)];
    assert first[..|first| - 1] == evs;
    BurstAdmitted(first, key, t, c.limit - 1, lo, hi, c);
    assert evs + Burst(key, t, c.limit) == first + Burst(key, t, c.limit - 1);
  }

  /** One early attempt, the rest of its window at the last instant, then k full windows. */
  function Worst(key: string, k: nat, c: Config): seq<Event>
    requires c.limit >= 1
  {
    if k == 0 then [Attempt(key, 0)] + Burst(key, c.windowMs - 1, c.limit - 1)
    else Worst(key, k - 1, c) + Burst(key, k * c.windowMs, c.limit)
  }

  lemma {:induction false} WorstTimes(key: string, k: nat, c: Config)
    requires c.limit >= 1 && c.windowMs >= 2
    ensures var evs := Worst(key, k, c);
      && Monotone(evs)
      && forall e :: e in evs ==> e.at <= k * c.windowMs + if k == 0 then c.windowMs - 1 else 0
  {
    if k > 0 {
      MulNext(k - 1, c.windowMs);
      WorstTimes(key, k - 1, c);
      var evs: seq<Event> := Worst(key, k - 1, c);
      var all: seq<Event> := evs + Burst(key, k * c.windowMs, c.limit);
      forall i, j | 0 <= i < j < |all|
        ensures all[i].at <= all[j].at
      {
        assert i < |evs| ==> evs[i] in evs;
      }
    }
  }

  lemma {:induction false} WorstRun(key: string, k: nat, hi: int, c: Config)
    requires c.limit >= 1 && c.windowMs >= 2
    requires hi > k * c.windowMs + if k == 0 then c.windowMs - 1 else 0
    ensures var evs := Worst(key, k, c);
      && key in After(evs, c) && After(evs, c)[key].start == k * c.windowMs
      && Admitted(evs, key, c.windowMs - 1, hi, c) == k * c.limit + c.limit - 1
  {
    var W, lo := c.windowMs, c.windowMs - 1;
    if k == 0 {
      var one := [Attempt(key, 0)];
      assert one[..0] == [];
      assert After(one, c) == map[key := Window(1, 0)];
      BurstAdmitted(one, key, W - 1, c.limit - 1, lo, hi, c);
    } else {
      MulNext(k - 1, W);
      MulNext(k - 1, c.limit);
      MulLeq(1, k, W);
      WorstRun(key, k - 1, hi, c);
      FreshBurst(Worst(key, k - 1, c), key, k * W, lo, hi, c);
    }
  }

  /** For windows of at least two ticks, some monotone run meets the rate bound exactly. */
  lemma RateBoundIsTight(key: string, k: nat, c: Config)
    requires c.limit >= 1 && c.windowMs >= 2 && k >= 1
    ensures exists evs ::
      (Monotone(evs)
       && Admitted(evs, key, c.windowMs - 1, c.windowMs - 1 + k * c.windowMs, c) == (k + 1) * c.Budget() - 1)
  {
    var a := c.windowMs - 1;
    WorstTimes(key, k, c);
    WorstRun(key, k, a + k * c.windowMs, c);
    MulNext(k, c.limit);
    assert Monotone(Worst(key, k, c))
        && Admitted(Worst(key, k, c), key, a, a + k * c.windowMs, c) == (k + 1) * c.Budget() - 1;
  }
}
