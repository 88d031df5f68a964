# Particle life: a Dafny model of the simulation engine

This project models the engine of a "particle life" simulator. A fixed
population of typed points moves in the plane. Each point attracts or
repels every other point according to a per-type-pair ruleset, and the
simulation advances in discrete ticks.

The model covers:

- **Rulesets** (`ruleset.dfy`, module `Rules`):
  - `RulesetTemplate::generate`, with its two matrix generators;
  - the `DIVERSITY_TEMPLATE` preset.

  Every random draw is a nondeterministic choice that is constrained only
  to the range it is drawn from.
- **The force law** (`force.dfy`, module `Force`), the closure mapped over
  all points in `get_velocity`:
  - zero outside the squared-distance band `[0.01, max_r²]`;
  - a tent profile scaled by the attraction above `min_r`;
  - a smoothed repulsive term with `R_SMOOTH = 2` at or below `min_r`.
- **The engine** (`engine.dfy`, module `Engine`):
  - `Point::generate` and `Simulation::new`;
  - the net force on a point, as the sum of the kernel over all points;
  - `step_velocities` and `step`, both as loops (`StepVelocities`, `Step`);
  - `Tick`, a snapshot definition of one tick that the loops are proved
    to compute.
- **The wall validator** (`walls.dfy`, module `WallsCli`): the conversion
  of a command-line wall kind plus an optional distance into a wall
  policy.
- **The headless loop** (`headless.dfy`, module `Headless`): the step,
  checkpoint and stop counters of `run_headless`.

Floats are modelled as reals (`vectors.dfy` holds the 2-D vector algebra).
A square root is not built into Dafny, so:

- the kernel takes the distance `r` together with the promise
  `r >= 0 && r * r == r2`;
- the engine takes a function `sqrt` as a parameter, with the promise that
  it returns that root for every non-negative argument.

A panic of the source becomes a precondition. This covers an empty range
in `gen_range`, a zero checkpoint interval, and a point generated with no
types.

Each tick overwrites every velocity with the net force
(src/simulation.rs:198) rather than adding to it.
`Engine.TickForgetsVelocities` and `Engine.LonePointStops` show the
consequence: the previous velocities have no effect on a tick, and a lone
moving point stops after one tick even without friction.

Wall handling exists in the engine only as commented-out code
(src/simulation.rs:141-153, 211-240), so the engine has no walls. Walls
appear only as the command-line validator.

## Model

| member | source | states |
|---|---|---|
| Rules.UniformMatrix | src/simulation.rs:61-71 | the result is `n` rows of length `n`, every entry in the inclusive range `[lo, hi]`; a non-empty range is needed only when `n > 0` |
| Rules.NormalMatrix | src/simulation.rs:73-89 | the result is `n` rows of length `n`; with a zero deviation every entry is the mean |
| Rules.Generate | src/simulation.rs:55-103 | the type count lies in `[min_types, max_types]`; the three matrices are square of that side; every `min_r` and `max_r` entry and the friction lie in their template ranges; needs only the ranges actually drawn from to be non-empty |
| Rules.DiversityIsFixed | src/simulation.rs:105-116 | every ruleset drawn from the diversity preset has exactly 12 types and friction 0.05 |
| Rules.DiversityAllowsInvertedRadii | src/simulation.rs:91-116 | nothing orders `min_r` below `max_r`: the diversity preset can yield a pair with `min_r = 15 > max_r = 12` |
| Engine.GeneratePoint | src/simulation.rs:20-28 | a generated point has a type below the type count and zero velocity; its position is unconstrained |
| Engine.NewSimulation | src/simulation.rs:126-132 | exactly `num_points` points, each with a valid type and zero velocity, over the given ruleset |
| Engine.GeneratedIsAdmissible | src/simulation.rs:169-175 | a drawn ruleset whose outer radii cannot be negative never makes the tent denominator zero, so any typed population over it can be stepped |
| Force.PairForce | src/simulation.rs:137-184 | the pair force is the zero vector whenever the squared distance is above `max_r²` or below 0.01 |
| Force.InRangeIsWellDefined | src/simulation.rs:160-175 | in the band the distance is positive, so `delta / r` is defined, and the tent branch never divides by zero |
| Force.PairForceInBand | src/simulation.rs:164-183 | in the band the force is the normalised displacement scaled by the signed magnitude `f` |
| Force.PairForceGeometry | src/simulation.rs:164-183 | in the band the force lies along the displacement: its projection on `delta` is `f * r` and its squared length `f²`, so `f > 0` attracts and `f < 0` repels |
| Force.SelfPairVanishes | src/simulation.rs:156-162 | a point's own term (zero displacement) falls below the distance floor and contributes nothing |
| Force.TentBounded | src/simulation.rs:169-176 | with `max_r >= 0`, the tent branch is reached only for `min_r < r <= max_r`; its denominator is positive, its factor lies in `[0, 1]` and `abs(f) <= abs(attraction)` |
| Force.TentPeaksAtMidpoint | src/simulation.rs:173-175 | at the middle of the band the magnitude is the full attraction |
| Force.TentVanishesAtMaxR | src/simulation.rs:173-175 | at `r = max_r` the magnitude is zero |
| Force.InnerIsRepulsive | src/simulation.rs:177-181 | for `0 <= r <= min_r` the magnitude is never positive |
| Force.ContinuousAtMinR | src/simulation.rs:169-181 | at `r = min_r` the inner term and the tent formula are both zero, so the two branches meet |
| Force.PairForceOdd | src/simulation.rs:139-183 | reversing the displacement reverses the force, in the band and outside it |
| Force.KernelAtFive | src/simulation.rs:156-183 | at displacement `(5, 0)` in a band from 1 to 10 with attraction 1 the force is `(8/9, 0)` |
| Engine.PairTerm | src/simulation.rs:137-184 | the term `q` contributes to `p` is the kernel at displacement `q - p` with the parameters of the type pair `[p][q]`; a pair outside the band contributes the zero vector |
| Engine.NetForce | src/simulation.rs:134-188 | the net force on `p` is the sum of its pair terms with every point, itself included; a point alone feels no force |
| Engine.SelfTermVanishes | src/simulation.rs:139-162 | the term of a point on itself is the zero vector |
| Engine.NetForceSplit | src/simulation.rs:134-188 | the net-force sum splits over any prefix/suffix partition of the points, so the model's right fold equals the source's sequential left fold `collect().iter().sum()` |
| Engine.NetForceExcludesSelf | src/simulation.rs:134-188 | summing over all points, the point itself included, equals summing over all the other points |
| Engine.NetForceOutOfRange | src/simulation.rs:156-162 | when every point is outside the band of `p`, the net force on `p` is zero |
| Engine.StepVelocities | src/simulation.rs:190-200 | every velocity is replaced by the net force computed from the unmodified points; positions, types, count and order are unchanged |
| Engine.MoveAll | src/simulation.rs:206-209 | every point moves by its own velocity, which is then damped by `1 - friction`; types and count are unchanged |
| Engine.Step | src/simulation.rs:190-209 | the in-place loops compute exactly the snapshot tick `Tick`: every point moves by its net force, computed on the pre-tick points, its velocity becomes that net force damped by `1 - friction`, and its type, the count and the ruleset are unchanged |
| Engine.Tick | src/simulation.rs:190-209 | a tick keeps the ruleset, the number and order of points and every type, and keeps the simulation steppable |
| Engine.TickForgetsVelocities | src/simulation.rs:197-199 | two simulations that differ only in their velocities are identical after one tick |
| Engine.TickPositionsIgnoreFriction | src/simulation.rs:190-209 | new positions depend on neither the previous velocities nor the friction |
| Engine.TickWhenAllOutOfRange | src/simulation.rs:190-209 | when every pair is out of range, a tick leaves every position unchanged and every velocity zero |
| Engine.LonePointStops | src/simulation.rs:197-209 | a single point keeps its position and comes to rest after one tick, whatever its velocity was |
| Engine.PairTermAntisymmetric | src/simulation.rs:137-183 | with symmetric pair parameters, `q` acts on `p` exactly opposite to how `p` acts on `q` |
| Engine.TwoPointsRecoilEqually | src/simulation.rs:190-209 | two points with symmetric pair parameters end a tick with opposite velocities |
| Engine.TwoParticleScenario | src/simulation.rs:134-209 | two points of one type 5 apart on the x-axis, band 1 to 10, attraction 1, no friction: after a tick their velocities are `(8/9, 0)` and `(-8/9, 0)` |
| Engine.ScenarioExists | src/simulation.rs:118-132 | points at rest at `(0, 0)` and `(5, 0)` in a one-type ruleset form such a scenario |
| WallsCli.ToWalls | src/main.rs:96-106 | the conversion succeeds exactly when the kind is none or a distance is given; without walls the result is no walls whatever the distance; every failure carries the fixed message |
| WallsCli.RequestRoundTrip | src/main.rs:100-102 | every wall policy is obtained back from its own kind and distance |
| WallsCli.ConversionPreservesRequest | src/main.rs:100-102 | a successful conversion keeps the requested kind, and a bounded kind keeps the requested distance |
| WallsCli.AnyDistanceAccepted | src/main.rs:101-102 | any given distance, negative or zero included, passes through unchanged |
| Headless.TickN | src/main.rs:159-161 | any number of ticks leaves a simulation that can still be stepped |
| Headless.TickNKeepsLayout | src/main.rs:159-161 | any number of ticks keeps the ruleset, the number and order of the points and every type |
| Headless.StepFrom | src/main.rs:160 | stepping a simulation that has taken `n` ticks yields the `n + 1`-tick simulation |
| Headless.CountStep | src/main.rs:161-176 | after a step the count grows by one; a checkpoint numbered `steps / c` is reported exactly when the count is a multiple of `c`; the count since the last checkpoint restarts there |
| Headless.RunHeadless | src/main.rs:154-185 | the loop stops at the first step after which it is interrupted or has reached `max_steps`, always taking at least one step; the final simulation is that many ticks; the reports are exactly the checkpoints due; the count since the last checkpoint is `steps mod c` |
| Headless.ExactStepCount | src/main.rs:159-184 | without an interrupt and with a limit `m`, the loop stops after exactly `max(m, 1)` steps |
| Headless.CheckpointsCounted | src/main.rs:163-176 | `steps / c` checkpoints are reported, numbered 1, 2, ... at multiples of `c`; the last falls `steps mod c` steps before the end |

## Left out

- src/serialize.rs: copying to and from a foreign array library whose API is not part of this model; it is also not compiled.
- src/visualization.rs: drawing, camera and key handling; it is commented out of the build.
- src/util.rs: GPU buffer and bind-group setup over a foreign GPU API.
- In src/main.rs:
  - argument parsing, GPU negotiation, timing, printing and save-file naming are left out;
  - the Ctrl-C handler is reduced to the `interrupted` parameter;
  - the `unimplemented!()` paths are left out.
- The GPU-side `Simulation::new` and `step` that src/main.rs calls are not part of this model. The headless loop steps the engine of src/simulation.rs instead.
- The commented-out wall and wrap code in the engine is not behaviour, so it is not modelled.
- Numerical representation:
  - f32 rounding, infinities and NaN are not modelled: values are reals;
  - the shapes of the normal and uniform distributions are not modelled: a uniform draw is any value in its range; a normal draw is any real, or the mean when the deviation is zero.
- Rayon parallelism: the parallel map over the points is modelled as a sequential one. The sum after it is sequential in the source (src/simulation.rs:185-187); `Engine.NetForceSplit` shows that the model's right fold equals that left fold.
- Engine.PairTerm: requires admissible radii, which excludes `min_r == max_r < 0`. There the source would divide by zero in floating point.
- Headless.RunHeadless: requires a positive checkpoint interval, because the source panics on `steps % 0`.
- Headless.RunHeadless: requires a step limit or an eventual interrupt, so that the loop terminates. Without them the source loops forever.
- Headless.RunHeadless: step counts are unbounded naturals; the 64-bit counter's overflow is not modelled.
- Rules.NormalMatrix: states nothing about a normal draw beyond the zero-deviation case. The library's rejection of a negative or non-finite deviation is not modelled.
- Engine.GeneratePoint: the normal position draw is any pair of reals.
