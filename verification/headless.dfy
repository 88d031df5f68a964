/** The headless run loop (`run_headless` in src/main.rs): step the
    simulation, count steps, report a checkpoint every `checkpoint` steps,
    and stop after a step once interrupted or once `max_steps` is reached.
    The interrupt flag is a parameter: `interrupted(s)` is the flag's value
    as read right after step `s`. */
module Headless {
  import opened Wrappers
  import opened Rules
  import opened Engine

  /** A checkpoint report: its ordinal and the total step count at it. */
  datatype Checkpoint = Checkpoint(index: nat, steps: nat)

  /** What a headless run leaves behind: the final simulation, the counters
      and the checkpoints reported in order. */
  datatype Run = Run(sim: Simulation, steps: nat, sinceCheckpoint: nat, checkpoints: seq<Checkpoint>)

  /** `n` ticks of the engine; every intermediate simulation can be
      stepped. */
  function TickN(sim: Simulation, sqrt: real -> real, n: nat): (next: Simulation)
    requires WellFormed(sim) && IsSqrtFn(sqrt)
    ensures WellFormed(next)
    decreases n
  {
    if n == 0 then sim else Tick(TickN(sim, sqrt, n - 1), sqrt)
  }

  /** Any number of ticks keeps the ruleset, the number and order of the
      points and every point's type. */
  lemma {:induction false} TickNKeepsLayout(sim: Simulation, sqrt: real -> real, n: nat)
    requires WellFormed(sim) && IsSqrtFn(sqrt)
    ensures TickN(sim, sqrt, n).ruleset == sim.ruleset
    ensures |TickN(sim, sqrt, n).points| == |sim.points|
    ensures forall k :: 0 <= k < |sim.points| ==>
              TickN(sim, sqrt, n).points[k].pointType == sim.points[k].pointType
  {
    if n > 0 {
      TickNKeepsLayout(sim, sqrt, n - 1);
    }
  }

  /** The loop leaves after step `s`. */
  predicate Stops(s: nat, maxSteps: Option<nat>, interrupted: nat -> bool) {
    interrupted(s) || (maxSteps.Some? && s >= maxSteps.value)
  }

  /** `n` is the first step after which the loop leaves; no step is
      checked before the first one is taken. */
  predicate FirstStop(n: nat, maxSteps: Option<nat>, interrupted: nat -> bool) {
    && 1 <= n
    && Stops(n, maxSteps, interrupted)
    && forall s :: 1 <= s < n ==> !Stops(s, maxSteps, interrupted)
  }

  /** The checkpoints due within the first `steps` steps: the `k`-th falls
      at step `k * c`. */
  function Due(steps: nat, checkpoint: Option<nat>): seq<Checkpoint>
    requires checkpoint.Some? ==> checkpoint.value > 0
  {
    match checkpoint
    case None => []
    case Some(c) => seq(steps / c, k requires 0 <= k => Checkpoint(k + 1, (k + 1) * c))
  }

  /** The steps since the last checkpoint (or since the start). */
  function SinceLast(steps: nat, checkpoint: Option<nat>): nat
    requires checkpoint.Some? ==> checkpoint.value > 0
  {
    match checkpoint
    case None => steps
    case Some(c) => steps % c
  }

  /** Counting one more step: the quotient grows exactly when the remainder
      wraps to zero. */
  lemma {:induction false} DivModNext(n: nat, c: nat)
    requires c > 0
    ensures (n + 1) % c == 0 ==> (n + 1) / c == n / c + 1
    ensures (n + 1) % c != 0 ==> (n + 1) / c == n / c && (n + 1) % c == n % c + 1
  {
    var q, r := n / c, n % c;
    assert n == q * c + r && 0 <= r < c;
    if r + 1 == c {
      assert n + 1 == (q + 1) * c;
      DivModUnique(n + 1, c, q + 1, 0);
    } else {
      assert n + 1 == q * c + (r + 1);
      DivModUnique(n + 1, c, q, r + 1);
    }
  }

  /** Quotient and remainder are determined by `n == q * c + r` with
      `0 <= r < c`. */
  lemma {:induction false} DivModUnique(n: nat, c: nat, q: nat, r: nat)
    requires c > 0 && r < c && n == q * c + r
    ensures n / c == q && n % c == r
  {
    var q', r' := n / c, n % c;
    assert (q - q') * c == r' - r;
    SmallMultiple(q - q', c, r' - r);
  }

  /** The only multiple of `c` strictly between `-c` and `c` is zero. */
  lemma {:induction false} SmallMultiple(d: int, c: int, x: int)
    requires c > 0 && x == d * c && -c < x < c
    ensures d == 0
  {
  }

  /** The checkpoints due after one more step are those due before, plus one
      new checkpoint when the new count is a multiple of the interval. */
  lemma DueNext(n: nat, c: nat)
    requires c > 0
    ensures (n + 1) % c == 0 ==>
              Due(n + 1, Some(c)) == Due(n, Some(c)) + [Checkpoint((n + 1) / c, n + 1)]
    ensures (n + 1) % c != 0 ==> Due(n + 1, Some(c)) == Due(n, Some(c))
  {
    DivModNext(n, c);
    if (n + 1) % c == 0 {
      assert (n + 1) == ((n + 1) / c) * c;
    }
  }

  /** One more step updates the reported checkpoints and the count since
      the last one exactly as the loop body does. */
  lemma CountersNext(n: nat, checkpoint: Option<nat>)
    requires checkpoint.Some? ==> checkpoint.value > 0
    ensures checkpoint.None? ==>
              Due(n + 1, checkpoint) == Due(n, checkpoint) && SinceLast(n + 1, checkpoint) == SinceLast(n, checkpoint) + 1
    ensures checkpoint.Some? && (n + 1) % checkpoint.value == 0 ==>
              && Due(n + 1, checkpoint) == Due(n, checkpoint) + [Checkpoint((n + 1) / checkpoint.value, n + 1)]
              && SinceLast(n + 1, checkpoint) == 0
    ensures checkpoint.Some? && (n + 1) % checkpoint.value != 0 ==>
              && Due(n + 1, checkpoint) == Due(n, checkpoint)
              && SinceLast(n + 1, checkpoint) == SinceLast(n, checkpoint) + 1
  {
    if checkpoint.Some? {
      DivModNext(n, checkpoint.value);
      DueNext(n, checkpoint.value);
    }
  }

  /** One more step of the engine on a simulation that has already taken
      `n` steps. */
  method StepFrom(sim: Simulation, sqrt: real -> real, current: Simulation, n: nat)
    returns (next: Simulation)
    requires WellFormed(sim) && IsSqrtFn(sqrt) && current == TickN(sim, sqrt, n)
    ensures next == TickN(sim, sqrt, n + 1)
  {
    next := Step(current, sqrt);
  }

  /** The counter updates after a step: count it, and when the total is a
      multiple of the interval report a checkpoint numbered by the quotient
      and restart the count since the last one. */
  method CountStep(steps: nat, since: nat, reported: seq<Checkpoint>, checkpoint: Option<nat>)
    returns (steps': nat, since': nat, reported': seq<Checkpoint>)
    requires checkpoint.Some? ==> checkpoint.value > 0
    requires reported == Due(steps, checkpoint) && since == SinceLast(steps, checkpoint)
    ensures steps' == steps + 1
    ensures reported' == Due(steps', checkpoint)
    ensures since' == SinceLast(steps', checkpoint)
  {
    CountersNext(steps, checkpoint);
    steps' := steps + 1;
    since' := since + 1;
    reported' := reported;
    if checkpoint.Some? {
      var c := checkpoint.value;
      if steps' % c == 0 {
        reported' := reported' + [Checkpoint(steps' / c, steps')];
        since' := 0;
      }
    }
  }

  /** `run_headless` over the engine. The loop always takes a step before
      it tests for stopping. */
  method RunHeadless(sim: Simulation, sqrt: real -> real, checkpoint: Option<nat>,
                     maxSteps: Option<nat>, interrupted: nat -> bool)
    returns (run: Run)
    requires WellFormed(sim) && IsSqrtFn(sqrt)
    requires checkpoint.Some? ==> checkpoint.value > 0
    requires maxSteps.Some? || exists k :: 1 <= k && interrupted(k)
    ensures FirstStop(run.steps, maxSteps, interrupted)
    ensures run.sim == TickN(sim, sqrt, run.steps)
    ensures run.checkpoints == Due(run.steps, checkpoint)
    ensures run.sinceCheckpoint == SinceLast(run.steps, checkpoint)
  {
    ghost var bound: nat;
    if maxSteps.Some? {
      bound := if maxSteps.value < 1 then 1 else maxSteps.value;
    } else {
      var k :| 1 <= k && interrupted(k);
      bound := k;
    }
    assert 1 <= bound && Stops(bound, maxSteps, interrupted);
    var current := sim;
    var steps: nat := 0;
    var since: nat := 0;
    var reported: seq<Checkpoint> := [];
    while true
      invariant steps < bound
      invariant forall s :: 1 <= s <= steps ==> !Stops(s, maxSteps, interrupted)
      invariant current == TickN(sim, sqrt, steps)
      invariant reported == Due(steps, checkpoint)
      invariant since == SinceLast(steps, checkpoint)
      decreases bound - steps
    {
      current := StepFrom(sim, sqrt, current, steps);
      steps, since, reported := CountStep(steps, since, reported, checkpoint);
      if interrupted(steps) || (maxSteps.Some? && steps >= maxSteps.value) {
        break;
      }
    }
    run := Run(current, steps, since, reported);
  }

  /** With no interrupt and a step limit `m`, the loop runs exactly
      `max(m, 1)` steps. */
  lemma ExactStepCount(n: nat, m: nat, interrupted: nat -> bool)
    requires forall s :: !interrupted(s)
    ensures FirstStop(n, Some(m), interrupted) <==> n == (if m < 1 then 1 else m)
  {
    var expected := if m < 1 then 1 else m;
    assert Stops(expected, Some(m), interrupted);
    assert !Stops(n, Some(m), interrupted) <== n < m;
  }

  /** A run reports one checkpoint per full interval, numbered from 1, and
      the last report falls at the last multiple of the interval. */
  lemma CheckpointsCounted(steps: nat, c: nat)
    requires c > 0
    ensures |Due(steps, Some(c))| == steps / c
    ensures forall k :: 0 <= k < |Due(steps, Some(c))| ==>
              Due(steps, Some(c))[k].index == k + 1 && Due(steps, Some(c))[k].steps % c == 0
    ensures steps / c > 0 ==>
              Due(steps, Some(c))[steps / c - 1].steps == steps - SinceLast(steps, Some(c))
  {
    var due := Due(steps, Some(c));
    forall k | 0 <= k < |due|
      ensures due[k].steps % c == 0
    {
      DivModUnique((k + 1) * c, c, k + 1, 0);
    }
  }
}
