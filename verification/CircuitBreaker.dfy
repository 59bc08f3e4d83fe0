/** The database circuit breaker, with the start and the completion of an operation as separate steps,
    so that completions of operations started earlier may arrive in any state. */
module CircuitBreaker {
  datatype Mode = Closed | Open | HalfOpen

  datatype Config = Config(enabled: bool, failureThreshold: int, successThreshold: int, openMs: int)

  datatype Breaker = Breaker(mode: Mode, failures: nat, successes: nat, openedAt: int)

  const INITIAL: Breaker := Breaker(Closed, 0, 0, 0)

  /** What reaches the breaker. */
  datatype Signal = Admit(now: int) | Success(now: int) | Failure(now: int)

  function Turn(b: Breaker, mode: Mode, now: int): Breaker {
    if b.mode == mode then b else Breaker(mode, 0, 0, if mode == Open then now else b.openedAt)
  }

  predicate Admits(c: Config, b: Breaker, now: int) { !c.enabled || b.mode != Open || now - b.openedAt >= c.openMs }

  function Step(c: Config, b: Breaker, s: Signal): Breaker {
    if !c.enabled then b else
      match s
      case Admit(now) => if b.mode == Open && now - b.openedAt >= c.openMs then Turn(b, HalfOpen, now) else b
      case Success(now) =>
        if b.mode == HalfOpen then
          var counted := b.(successes := b.successes + 1);
          if counted.successes >= c.successThreshold then Turn(counted, Closed, now) else counted
        else b.(failures := 0)
      case Failure(now) =>
        if b.mode == HalfOpen then Turn(b, Open, now)
        else
          var counted := b.(failures := b.failures + 1);
          if counted.failures >= c.failureThreshold then Turn(counted, Open, now) else counted
  }

  class DbCircuitBreaker {
    const config: Config
    var mode: Mode
    var failures: nat
    var successes: nat
    var openedAt: int

    ghost function Value(): Breaker
      reads this
    {
      Breaker(mode, failures, successes, openedAt)
    }

    constructor (config: Config)
      ensures Value() == INITIAL && this.config == config
    {
      this.config := config;
      mode, failures, successes, openedAt := Closed, 0, 0, 0;
    }

    /** The part of `execute` before the operation: whether it is started. */
    method Begin(now: int) returns (started: bool)
      modifies this
      ensures started == Admits(config, old(Value()), now)
      ensures Value() == Step(config, old(Value()), Admit(now))
    {
      if !config.enabled { return true; }
      if mode == Open {
        if now - openedAt >= config.openMs {
          TransitionTo(HalfOpen, now);
        } else {
          return false;
        }
      }
      return true;
    }

    method OnSuccess(now: int)
      requires config.enabled
      modifies this
      ensures Value() == Step(config, old(Value()), Success(now))
    {
      if mode == HalfOpen {
        successes := successes + 1;
        if successes >= config.successThreshold { TransitionTo(Closed, now); }
      } else {
        failures := 0;
      }
    }

    method OnFailure(now: int)
      requires config.enabled
      modifies this
      ensures Value() == Step(config, old(Value()), Failure(now))
    {
      if mode == HalfOpen {
        TransitionTo(Open, now);
        return;
      }
      failures := failures + 1;
      if failures >= config.failureThreshold { TransitionTo(Open, now); }
    }

    method TransitionTo(next: Mode, now: int)
      modifies this
      ensures Value() == Turn(old(Value()), next, now)
    {
      if mode == next { return; }
      mode, failures, successes := next, 0, 0;
      if next == Open { openedAt := now; }
    }
  }

  // ── Runs ──────────────────────────────────────────────────────────────────

  /** Operations are started and complete, each under its own number. */
  datatype Event = Start(op: nat, now: int) | Succeed(op: nat, now: int) | Fail(op: nat, now: int)

  /** The breaker, the operations it ever started, and those that have not completed. */
  datatype System = System(breaker: Breaker, started: set<nat>, inFlight: set<nat>)

  /** A number names one operation; only an operation in flight completes. Anything else is no event. */
  predicate Happens(sys: System, e: Event) { if e.Start? then e.op !in sys.started else e.op in sys.inFlight }

  function Next(c: Config, sys: System, e: Event): System {
    if !Happens(sys, e) then sys else
      match e
      case Start(op, now) =>
        var breaker := Step(c, sys.breaker, Admit(now));
        if Admits(c, sys.breaker, now) then System(breaker, sys.started + {op}, sys.inFlight + {op}) else sys.(breaker := breaker)
      case Succeed(op, now) => sys.(breaker := Step(c, sys.breaker, Success(now)), inFlight := sys.inFlight - {op})
      case Fail(op, now) => sys.(breaker := Step(c, sys.breaker, Failure(now)), inFlight := sys.inFlight - {op})
  }

  function Run(c: Config, events: seq<Event>): System {
    if events == [] then System(INITIAL, {}, {}) else Next(c, Run(c, events[..|events| - 1]), events[|events| - 1])
  }

  function ModeAfter(c: Config, events: seq<Event>): Mode { Run(c, events).breaker.mode }

  /** Event `k` turns the breaker from another mode to `mode`. */
  ghost predicate TurnsTo(c: Config, events: seq<Event>, k: nat, mode: Mode)
    requires k < |events|
  {
    ModeAfter(c, events[..k]) != mode && ModeAfter(c, events[..k + 1]) == mode
  }

  /** The breaker is in `mode` before every event from `m` on. */
  ghost predicate Throughout(c: Config, events: seq<Event>, m: nat, mode: Mode) {
    forall k :: m <= k < |events| ==> ModeAfter(c, events[..k]) == mode
  }

  /** How many operations fail, or succeed, from event `m` on. */
  function Failures(c: Config, events: seq<Event>, m: nat): nat
    requires m <= |events|
    decreases |events|
  {
    if m == |events| then 0 else
      var n := |events| - 1;
      Failures(c, events[..n], m) + (if events[n].Fail? && Happens(Run(c, events[..n]), events[n]) then 1 else 0)
  }

  function Successes(c: Config, events: seq<Event>, m: nat): nat
    requires m <= |events|
    decreases |events|
  {
    if m == |events| then 0 else
      var n := |events| - 1;
      Successes(c, events[..n], m) + (if events[n].Succeed? && Happens(Run(c, events[..n]), events[n]) then 1 else 0)
  }

  lemma RunLast(c: Config, events: seq<Event>)
    requires events != []
    ensures Run(c, events) == Next(c, Run(c, events[..|events| - 1]), events[|events| - 1])
  {
    hide Next;
  }

  lemma ThroughoutShorter(c: Config, events: seq<Event>, m: nat, mode: Mode)
    requires events != [] && m <= |events| - 1
    ensures Throughout(c, events, m, mode) <==>
            Throughout(c, events[..|events| - 1], m, mode) && ModeAfter(c, events[..|events| - 1]) == mode
  {
    hide ModeAfter;
    var most := events[..|events| - 1];
    if Throughout(c, events, m, mode) {
      forall k | m <= k < |most| ensures ModeAfter(c, most[..k]) == mode { assert events[..k] == most[..k]; }
    }
    if Throughout(c, most, m, mode) && ModeAfter(c, most) == mode {
      forall k | m <= k < |events| ensures ModeAfter(c, events[..k]) == mode {
        if k < |most| { assert events[..k] == most[..k]; }
      }
    }
  }

  function AtLeastOne(threshold: int): int { if threshold < 1 then 1 else threshold }

  // ── Closed ────────────────────────────────────────────────────────────────

  /** From `m` on the breaker is closed and no operation succeeds. */
  ghost predicate FailingStretch(c: Config, events: seq<Event>, m: nat) {
    m <= |events| && Throughout(c, events, m, Closed) && Successes(c, events, m) == 0
  }

  /** While closed, the failure count is that of a stretch without success, and below the threshold. */
  lemma {:induction false} ClosedCounts(c: Config, events: seq<Event>) returns (m: nat)
    requires c.enabled && ModeAfter(c, events) == Closed
    ensures FailingStretch(c, events, m) && Failures(c, events, m) == Run(c, events).breaker.failures
    ensures Run(c, events).breaker.failures < AtLeastOne(c.failureThreshold)
  {
    m := |events|;
    if events != [] {
      var n := |events| - 1;
      RunLast(c, events);
      if ModeAfter(c, events[..n]) == Closed && !(events[n].Succeed? && Happens(Run(c, events[..n]), events[n])) {
        m := ClosedCounts(c, events[..n]);
        ThroughoutShorter(c, events, m, Closed);
      }
    }
  }

  /** The breaker leaves closed only at a failure, and only when the failures since it closed, with no
      success among them, have reached the threshold. */
  lemma OpensOnlyAfterFailures(c: Config, events: seq<Event>) returns (m: nat)
    requires c.enabled && events != [] && ModeAfter(c, events[..|events| - 1]) == Closed && ModeAfter(c, events) != Closed
    ensures events[|events| - 1].Fail? && ModeAfter(c, events) == Open
    ensures FailingStretch(c, events, m) && Failures(c, events, m) == AtLeastOne(c.failureThreshold)
  {
    var n := |events| - 1;
    RunLast(c, events);
    m := ClosedCounts(c, events[..n]);
    ThroughoutShorter(c, events, m, Closed);
  }

  // ── Open ──────────────────────────────────────────────────────────────────

  /** An open breaker was opened by a failure, at the time it remembers, and has been open since: no
      later completion moves that time. */
  lemma {:induction false} OpenSince(c: Config, events: seq<Event>) returns (i: nat)
    requires c.enabled && ModeAfter(c, events) == Open
    ensures i < |events| && events[i].Fail? && TurnsTo(c, events, i, Open)
    ensures Throughout(c, events, i + 1, Open) && Run(c, events).breaker.openedAt == events[i].now
  {
    var n := |events| - 1;
    RunLast(c, events);
    if ModeAfter(c, events[..n]) == Open {
      i := OpenSince(c, events[..n]);
      ThroughoutShorter(c, events, i + 1, Open);
      assert events[..n][..i] == events[..i] && events[..n][..i + 1] == events[..i + 1];
    } else {
      i := n;
      assert events[..n + 1] == events;
    }
  }

  /** While the breaker is open, an operation is started exactly when it was opened at least `openMs` ago. */
  lemma AdmissionExact(c: Config, events: seq<Event>, now: int) returns (i: nat)
    requires c.enabled && ModeAfter(c, events) == Open
    ensures i < |events| && events[i].Fail? && TurnsTo(c, events, i, Open) && Throughout(c, events, i + 1, Open)
    ensures Admits(c, Run(c, events).breaker, now) <==> now >= events[i].now + c.openMs
  {
    i := OpenSince(c, events);
  }

  /** For `openMs` after the breaker opens it stays open and starts nothing, whatever completes. */
  lemma {:induction false} NothingStartsWhileOpen(c: Config, events: seq<Event>, i: nat)
    requires c.enabled && i < |events| && TurnsTo(c, events, i, Open)
    requires forall k :: i < k < |events| ==> events[k].now < events[i].now + c.openMs
    ensures ModeAfter(c, events) == Open && Run(c, events).breaker.openedAt == events[i].now
    ensures Run(c, events).started == Run(c, events[..i + 1]).started
    decreases |events|
  {
    var n := |events| - 1;
    RunLast(c, events);
    if i == n {
      assert events[..n + 1] == events;
    } else {
      var most := events[..n];
      assert most[..i] == events[..i] && most[..i + 1] == events[..i + 1];
      NothingStartsWhileOpen(c, most, i);
    }
  }

  // ── Half-open ─────────────────────────────────────────────────────────────

  /** The breaker turned half-open at event `h` and has been so since. */
  ghost predicate ProbingSince(c: Config, events: seq<Event>, h: nat) {
    h < |events| && events[h].Start? && TurnsTo(c, events, h, HalfOpen) && Throughout(c, events, h + 1, HalfOpen)
  }

  /** The operations in flight before the breaker turned half-open. */
  ghost function Stragglers(c: Config, events: seq<Event>, h: nat): set<nat>
    requires h < |events|
  {
    Run(c, events[..h]).inFlight
  }

  /** The stragglers that have completed since. */
  ghost function LateDone(c: Config, events: seq<Event>, h: nat): set<nat>
    requires h < |events|
  {
    Stragglers(c, events, h) - Run(c, events).inFlight
  }

  /** The operations started since that have completed. */
  ghost function ProbesDone(c: Config, events: seq<Event>, h: nat): set<nat>
    requires h < |events|
  {
    Run(c, events).started - Run(c, events[..h]).started - Run(c, events).inFlight
  }

  /** What is in flight was started, and what of it was started before `h` was in flight then. */
  lemma {:induction false} Flights(c: Config, events: seq<Event>, h: nat)
    requires h <= |events|
    ensures var at, now := Run(c, events[..h]), Run(c, events);
            at.inFlight <= at.started <= now.started && now.inFlight <= now.started && now.inFlight * at.started <= at.inFlight
    decreases |events|
  {
    hide Step;
    if h == |events| {
      assert events[..h] == events;
      if events != [] {
        RunLast(c, events);
        Flights(c, events[..h - 1], h - 1);
        assert events[..h - 1][..h - 1] == events[..h - 1];
      }
    } else {
      RunLast(c, events);
      var most := events[..|events| - 1];
      assert most[..h] == events[..h];
      Flights(c, most, h);
    }
  }

  /** While half-open, the success count is exactly that of the completed probes and the completed
      stragglers together, no operation has failed, and the count is below the threshold. */
  lemma {:induction false} ProbingCounts(c: Config, events: seq<Event>) returns (h: nat)
    requires c.enabled && ModeAfter(c, events) == HalfOpen
    ensures ProbingSince(c, events, h) && Failures(c, events, h) == 0
    ensures Run(c, events).breaker.successes == |ProbesDone(c, events, h)| + |LateDone(c, events, h)|
    ensures Run(c, events).breaker.successes < AtLeastOne(c.successThreshold)
  {
    hide ProbesDone, LateDone;
    var n := |events| - 1;
    var most := events[..n];
    RunLast(c, events);
    if ModeAfter(c, most) == HalfOpen {
      h := ProbingCounts(c, most);
      assert most[..h] == events[..h] && most[..h + 1] == events[..h + 1];
      ThroughoutShorter(c, events, h + 1, HalfOpen);
      ProbingMoves(c, events, h);
    } else {
      h := n;
      assert events[..n + 1] == events;
      ProbingStarts(c, events);
    }
  }

  lemma ProbingStarts(c: Config, events: seq<Event>)
    requires c.enabled && events != [] && ModeAfter(c, events[..|events| - 1]) != HalfOpen && ModeAfter(c, events) == HalfOpen
    ensures var h := |events| - 1;
            && events[h].Start? && Failures(c, events, h) == 0 && Run(c, events).breaker.successes == 0
            && ProbesDone(c, events, h) == {} && LateDone(c, events, h) == {}
  {
    RunLast(c, events);
    var h := |events| - 1;
    assert Failures(c, events[..h], h) == 0;
  }

  /** Along the stretch a completion moves one operation into one of the two groups, and a start moves
      none. */
  lemma ProbingMoves(c: Config, events: seq<Event>, h: nat)
    requires c.enabled && h < |events| - 1 && ModeAfter(c, events[..|events| - 1]) == HalfOpen
    ensures var n := |events| - 1; var most := events[..n]; var e := events[n];
            var done := |ProbesDone(c, events, h)| + |LateDone(c, events, h)|;
            var before := |ProbesDone(c, most, h)| + |LateDone(c, most, h)|;
            done == before + if !e.Start? && Happens(Run(c, most), e) then 1 else 0
  {
    hide Step, Run, Admits;
    var n := |events| - 1;
    var most, e := events[..n], events[n];
    assert most[..h] == events[..h];
    RunLast(c, events);
    Flights(c, most, h);
    var at, was := Run(c, most[..h]), Run(c, most);
    if Happens(was, e) {
      if e.Start? { StartMoves(at.started, at.inFlight, was.started, was.inFlight, e.op); }
      else { CompletionMoves(at.started, at.inFlight, was.started, was.inFlight, e.op); }
    }
  }

  lemma StartMoves(started0: set<nat>, flying0: set<nat>, started: set<nat>, flying: set<nat>, op: nat)
    requires flying0 <= started0 <= started && op !in started
    ensures started + {op} - started0 - (flying + {op}) == started - started0 - flying && flying0 - (flying + {op}) == flying0 - flying
  {
  }

  lemma CompletionMoves(started0: set<nat>, flying0: set<nat>, started: set<nat>, flying: set<nat>, op: nat)
    requires flying0 <= started0 <= started && flying <= started && flying * started0 <= flying0 && op in flying
    ensures |started - started0 - (flying - {op})| + |flying0 - (flying - {op})| == |started - started0 - flying| + |flying0 - flying| + 1
  {
    var probes, late := started - started0 - flying, flying0 - flying;
    if op in started0 {
      assert flying0 - (flying - {op}) == late + {op} && started - started0 - (flying - {op}) == probes;
    } else {
      assert started - started0 - (flying - {op}) == probes + {op} && flying0 - (flying - {op}) == late;
    }
  }

  /** A half-open breaker reopens exactly at a failure. It closes only at a success that makes the probes
      and the stragglers completed since it turned half-open, none of which failed, reach the threshold. */
  lemma ClosesOnlyAfterSuccesses(c: Config, events: seq<Event>) returns (h: nat)
    requires c.enabled && events != [] && ModeAfter(c, events[..|events| - 1]) == HalfOpen
    ensures ModeAfter(c, events) == Open <==> events[|events| - 1].Fail? && Happens(Run(c, events[..|events| - 1]), events[|events| - 1])
    ensures ProbingSince(c, events, h)
    ensures ModeAfter(c, events) == Closed ==>
              && events[|events| - 1].Succeed? && Failures(c, events, h) == 0
              && |ProbesDone(c, events, h)| + |LateDone(c, events, h)| == AtLeastOne(c.successThreshold)
  {
    hide ProbesDone, LateDone;
    var n := |events| - 1;
    RunLast(c, events);
    h := ProbingCounts(c, events[..n]);
    assert events[..n][..h] == events[..h] && events[..n][..h + 1] == events[..h + 1];
    ThroughoutShorter(c, events, h + 1, HalfOpen);
    ProbingMoves(c, events, h);
  }

  lemma NoneLate(before: set<nat>, now: set<nat>)
    ensures |before - now| == 0 <==> before <= now
  {
    if |before - now| == 0 { assert forall op :: op in before ==> op !in before - now; }
    if before <= now { assert before - now == {}; }
  }

  /** The breaker closes on a full threshold of successful probes exactly when every operation that was in
      flight when it turned half-open still is; in particular when none was. */
  lemma ClosedByProbesExactly(c: Config, events: seq<Event>) returns (h: nat)
    requires c.enabled && events != [] && ModeAfter(c, events[..|events| - 1]) == HalfOpen && ModeAfter(c, events) == Closed
    ensures ProbingSince(c, events, h)
    ensures |ProbesDone(c, events, h)| == AtLeastOne(c.successThreshold) <==> Stragglers(c, events, h) <= Run(c, events).inFlight
    ensures Stragglers(c, events, h) == {} ==> |ProbesDone(c, events, h)| == AtLeastOne(c.successThreshold)
  {
    hide Run, TurnsTo, Throughout;
    h := ClosesOnlyAfterSuccesses(c, events);
    NoneLate(Stragglers(c, events, h), Run(c, events).inFlight);
  }

  /** The failure that reopens a half-open breaker is that of a probe exactly when the operation was not
      in flight when the breaker turned half-open. */
  lemma ReopenedByProbeExactly(c: Config, events: seq<Event>) returns (h: nat)
    requires c.enabled && events != [] && ModeAfter(c, events[..|events| - 1]) == HalfOpen && ModeAfter(c, events) == Open
    ensures ProbingSince(c, events, h)
    ensures var op := events[|events| - 1].op;
            && op in ProbesDone(c, events, h) + LateDone(c, events, h)
            && (op in ProbesDone(c, events, h) <==> op !in Stragglers(c, events, h))
  {
    h := ClosesOnlyAfterSuccesses(c, events);
    var n := |events| - 1;
    RunLast(c, events);
    assert events[..n][..h] == events[..h];
    Flights(c, events[..n], h);
    Flights(c, events, h);
  }

  // ── Stragglers decide for the probe ───────────────────────────────────────

  /** Operations `a` and `b` start, `a` fails and opens the breaker, and after `openMs` the probe `p`
      starts while `b` is still running. */
  function Straggling(a: nat, b: nat, p: nat, t: int, u: int): seq<Event> { [Start(a, t), Start(b, t), Fail(a, t), Start(p, u)] }

  lemma StragglingHalfOpen(c: Config, a: nat, b: nat, p: nat, t: int, u: int)
    requires c.enabled && c.failureThreshold <= 1 && u - t >= c.openMs && a != b && a != p && b != p
    ensures Run(c, Straggling(a, b, p, t, u)) == System(Breaker(HalfOpen, 0, 0, t), {a, b, p}, {b, p})
  {
    var e := Straggling(a, b, p, t, u);
    assert e[..4] == e && e[..4][..3] == e[..3] && e[..3][..2] == e[..2] && e[..2][..1] == e[..1] && e[..1][..0] == [];
    RunLast(c, e[..1]);
    RunLast(c, e[..2]);
    RunLast(c, e[..3]);
    RunLast(c, e[..4]);
    assert Run(c, e[..1]) == System(INITIAL, {a}, {a});
    assert Run(c, e[..2]) == System(INITIAL, {a, b}, {a, b});
    assert Run(c, e[..3]) == System(Breaker(Open, 0, 0, t), {a, b}, {b});
  }

  lemma RunThen(c: Config, events: seq<Event>, e: Event)
    ensures Run(c, events + [e]) == Next(c, Run(c, events), e)
  {
    hide Next;
    assert (events + [e])[..|events|] == events;
  }

  /** If `b` then succeeds, a breaker that asks for one success closes with the probe still running. */
  lemma StragglerCloses(c: Config, a: nat, b: nat, p: nat, t: int, u: int, v: int)
    requires c.enabled && c.failureThreshold <= 1 && c.successThreshold <= 1 && u - t >= c.openMs && a != b && a != p && b != p
    ensures var sys := Run(c, Straggling(a, b, p, t, u) + [Succeed(b, v)]); sys.breaker.mode == Closed && sys.inFlight == {p}
  {
    hide Run, Straggling;
    StragglingHalfOpen(c, a, b, p, t, u);
    RunThen(c, Straggling(a, b, p, t, u), Succeed(b, v));
  }

  /** If `b` fails instead, the breaker opens for another period with the probe still running. */
  lemma StragglerReopens(c: Config, a: nat, b: nat, p: nat, t: int, u: int, v: int)
    requires c.enabled && c.failureThreshold <= 1 && u - t >= c.openMs && a != b && a != p && b != p
    ensures var sys := Run(c, Straggling(a, b, p, t, u) + [Fail(b, v)]);
            sys.breaker.mode == Open && sys.breaker.openedAt == v && sys.inFlight == {p}
  {
    hide Run, Straggling;
    StragglingHalfOpen(c, a, b, p, t, u);
    RunThen(c, Straggling(a, b, p, t, u), Fail(b, v));
  }
}
