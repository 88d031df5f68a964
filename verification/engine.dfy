/** The simulation engine of src/simulation.rs: points, population
    construction, the net force on a point, and one tick. The parallel
    `par_iter` map is modelled as a sequential one. The sum of its results
    is sequential in the source, a left fold; `NetForce` is a right fold,
    and `NetForceSplit` shows that over the reals the two agree. */
module Engine {
  import opened Vectors
  import opened Rules
  import opened Force

  datatype Point = Point(position: Vec2, pointType: nat, velocity: Vec2)

  datatype Simulation = Simulation(points: seq<Point>, ruleset: Ruleset)

  /** `sqrt` returns the non-negative square root of every non-negative real. */
  ghost predicate IsSqrtFn(sqrt: real -> real) {
    forall x :: 0.0 <= x ==> IsSqrt(sqrt(x), x)
  }

  /** Every type pair has radii the force law can evaluate. */
  predicate RulesetAdmissible(rs: Ruleset)
    requires Shaped(rs)
  {
    forall i, j :: 0 <= i < rs.numTypes && 0 <= j < rs.numTypes ==>
      Admissible(rs.minR[i][j], rs.maxR[i][j])
  }

  /** Every point's type indexes the ruleset's matrices. */
  predicate Typed(points: seq<Point>, numTypes: nat) {
    forall k :: 0 <= k < |points| ==> points[k].pointType < numTypes
  }

  /** A simulation that can be stepped without an out-of-bounds index. */
  predicate WellFormed(sim: Simulation) {
    && Shaped(sim.ruleset)
    && RulesetAdmissible(sim.ruleset)
    && Typed(sim.points, sim.ruleset.numTypes)
  }

  /** `Point::generate`: a normally distributed position (any pair of
      reals), a type drawn from `[0, pointTypes)`, and zero velocity. */
  method GeneratePoint(pointTypes: nat) returns (p: Point)
    requires pointTypes > 0
    ensures p.pointType < pointTypes
    ensures p.velocity == Zero
  {
    var x: real, y: real := *, *;
    var t :| 0 <= t < pointTypes;
    p := Point(Vec2(x, y), t, Zero);
  }

  /** `Simulation::new`: `numPoints` freshly generated points. Generating a
      point draws from an empty range when there are no types, so a
      non-empty population needs at least one type. */
  method NewSimulation(numPoints: nat, ruleset: Ruleset) returns (sim: Simulation)
    requires numPoints == 0 || ruleset.numTypes > 0
    ensures sim.ruleset == ruleset
    ensures |sim.points| == numPoints
    ensures Typed(sim.points, ruleset.numTypes)
    ensures forall k :: 0 <= k < |sim.points| ==> sim.points[k].velocity == Zero
  {
    var points: seq<Point> := [];
    while |points| < numPoints
      invariant |points| <= numPoints
      invariant Typed(points, ruleset.numTypes)
      invariant forall k :: 0 <= k < |points| ==> points[k].velocity == Zero
    {
      var p := GeneratePoint(ruleset.numTypes);
      points := points + [p];
    }
    sim := Simulation(points, ruleset);
  }

  /** A sampled ruleset whose outer radii cannot be negative is admissible,
      so any population built on it can be stepped. */
  lemma GeneratedIsAdmissible(t: RulesetTemplate, rs: Ruleset, points: seq<Point>)
    requires Generable(t, rs) && 0.0 <= t.maxRLower
    requires Typed(points, rs.numTypes)
    ensures WellFormed(Simulation(points, rs))
  {
  }

  /** The term `q` contributes to the velocity of `p`: the kernel applied to
      `q.position - p.position` with the parameters of the pair
      `[p.pointType][q.pointType]`. A pair outside the band contributes
      nothing. */
  function PairTerm(rs: Ruleset, p: Point, q: Point, sqrt: real -> real): (term: Vec2)
    requires Shaped(rs) && RulesetAdmissible(rs)
    requires p.pointType < rs.numTypes && q.pointType < rs.numTypes
    requires IsSqrtFn(sqrt)
    ensures OutOfRange(rs, p, q) ==> term == Zero
  {
    var delta := Sub(q.position, p.position);
    var r2 := Norm2(delta);
    PairForce(delta,
              rs.minR[p.pointType][q.pointType],
              rs.maxR[p.pointType][q.pointType],
              rs.attractions[p.pointType][q.pointType],
              sqrt(r2))
  }

  /** The pair `(p, q)` lies outside the interaction band. */
  predicate OutOfRange(rs: Ruleset, p: Point, q: Point)
    requires Shaped(rs)
    requires p.pointType < rs.numTypes && q.pointType < rs.numTypes
  {
    !InRange(Norm2(Sub(q.position, p.position)), rs.maxR[p.pointType][q.pointType])
  }

  /** `get_velocity`: the sum of the pair terms of `p` with every point of
      `points`, `p` itself included. A point alone feels no force. */
  function NetForce(rs: Ruleset, points: seq<Point>, p: Point, sqrt: real -> real): (force: Vec2)
    requires Shaped(rs) && RulesetAdmissible(rs)
    requires Typed(points, rs.numTypes) && p.pointType < rs.numTypes
    requires IsSqrtFn(sqrt)
    ensures points == [p] ==> force == Zero
    decreases |points|
  {
    if |points| == 0 then Zero
    else
      Add(PairTerm(rs, p, points[0], sqrt), NetForce(rs, points[1..], p, sqrt))
  }

  /** A point exerts nothing on itself. */
  lemma SelfTermVanishes(rs: Ruleset, p: Point, sqrt: real -> real)
    requires Shaped(rs) && RulesetAdmissible(rs)
    requires p.pointType < rs.numTypes && IsSqrtFn(sqrt)
    ensures PairTerm(rs, p, p, sqrt) == Zero
  {
  }

  lemma NetForceSingleton(rs: Ruleset, p: Point, q: Point, sqrt: real -> real)
    requires Shaped(rs) && RulesetAdmissible(rs)
    requires p.pointType < rs.numTypes && q.pointType < rs.numTypes && IsSqrtFn(sqrt)
    ensures Typed([q], rs.numTypes)
    ensures NetForce(rs, [q], p, sqrt) == Add(PairTerm(rs, p, q, sqrt), Zero)
  {
  }

  /** The sum splits over any partition of the points into a prefix and a
      suffix. With a one-point suffix this is the step of a left fold, so
      the right fold `NetForce` equals the source's front-to-back sum. */
  lemma {:induction false} NetForceSplit(rs: Ruleset, a: seq<Point>, b: seq<Point>, p: Point, sqrt: real -> real)
    requires Shaped(rs) && RulesetAdmissible(rs)
    requires Typed(a, rs.numTypes) && Typed(b, rs.numTypes) && p.pointType < rs.numTypes
    requires IsSqrtFn(sqrt)
    ensures Typed(a + b, rs.numTypes)
    ensures NetForce(rs, a + b, p, sqrt) == Add(NetForce(rs, a, p, sqrt), NetForce(rs, b, p, sqrt))
    decreases |a|
  {
    assert Typed(a + b, rs.numTypes);
    if |a| == 0 {
      assert a + b == b;
      AddZero(NetForce(rs, b, p, sqrt));
    } else {
      assert (a + b)[1..] == a[1..] + b;
      NetForceSplit(rs, a[1..], b, p, sqrt);
      AddAssociative(PairTerm(rs, p, a[0], sqrt), NetForce(rs, a[1..], p, sqrt), NetForce(rs, b, p, sqrt));
    }
  }

  /** Including the point itself in its sum changes nothing: the net force
      equals the sum over all the other points. */
  lemma NetForceExcludesSelf(rs: Ruleset, points: seq<Point>, i: nat, sqrt: real -> real)
    requires Shaped(rs) && RulesetAdmissible(rs) && IsSqrtFn(sqrt)
    requires Typed(points, rs.numTypes) && i < |points|
    ensures Typed(points[..i] + points[i + 1..], rs.numTypes)
    ensures NetForce(rs, points, points[i], sqrt)
            == NetForce(rs, points[..i] + points[i + 1..], points[i], sqrt)
  {
    var p := points[i];
    var pre, post := points[..i], points[i + 1..];
    assert Typed(pre, rs.numTypes) && Typed(post, rs.numTypes);
    assert Typed([p], rs.numTypes);
    assert points == pre + ([p] + post);
    NetForceSplit(rs, [p], post, p, sqrt);
    NetForceSplit(rs, pre, [p] + post, p, sqrt);
    NetForceSplit(rs, pre, post, p, sqrt);
    AddZero(NetForce(rs, post, p, sqrt));
  }

  /** When every point is out of range of `p`, the net force is zero. */
  lemma {:induction false} NetForceOutOfRange(rs: Ruleset, points: seq<Point>, p: Point, sqrt: real -> real)
    requires Shaped(rs) && RulesetAdmissible(rs) && IsSqrtFn(sqrt)
    requires Typed(points, rs.numTypes) && p.pointType < rs.numTypes
    requires forall k :: 0 <= k < |points| ==> OutOfRange(rs, p, points[k])
    ensures NetForce(rs, points, p, sqrt) == Zero
    decreases |points|
  {
    if |points| > 0 {
      NetForceOutOfRange(rs, points[1..], p, sqrt);
      AddZero(Zero);
    }
  }

  /** What one tick does to a single point, given the net force `force`
      computed for it: the velocity is replaced by `force`, the position
      moves by that velocity, and the velocity is then damped. */
  function Advance(p: Point, force: Vec2, friction: real): Point {
    Move(p.(velocity := force), friction)
  }

  /** The update loop of `step` on one point: move by the velocity, then
      damp the velocity. */
  function Move(p: Point, friction: real): Point {
    p.(position := Add(p.position, p.velocity), velocity := Scale(p.velocity, 1.0 - friction))
  }

  /** One tick as a whole: every net force is taken from the points as they
      were before the tick, then every point advances by its own force. */
  function Tick(sim: Simulation, sqrt: real -> real): (next: Simulation)
    requires WellFormed(sim) && IsSqrtFn(sqrt)
    ensures WellFormed(next)
    ensures next.ruleset == sim.ruleset
    ensures |next.points| == |sim.points|
    ensures forall k :: 0 <= k < |sim.points| ==>
              next.points[k].pointType == sim.points[k].pointType
  {
    var rs := sim.ruleset;
    var pts := sim.points;
    Simulation(
      seq(|pts|, k requires 0 <= k < |pts| =>
        Advance(pts[k], NetForce(rs, pts, pts[k], sqrt), rs.friction)),
      rs)
  }

  /** `step_velocities`: all net forces are first collected from the
      unmodified points, and only then written over the velocities.
      Positions and types are left alone. */
  method StepVelocities(sim: Simulation, sqrt: real -> real) returns (next: Simulation)
    requires WellFormed(sim) && IsSqrtFn(sqrt)
    ensures next.ruleset == sim.ruleset
    ensures |next.points| == |sim.points|
    ensures forall k :: 0 <= k < |sim.points| ==>
              && next.points[k].position == sim.points[k].position
              && next.points[k].pointType == sim.points[k].pointType
              && next.points[k].velocity
                 == NetForce(sim.ruleset, sim.points, sim.points[k], sqrt)
  {
    var rs := sim.ruleset;
    var velocities: seq<Vec2> := [];
    while |velocities| < |sim.points|
      invariant |velocities| <= |sim.points|
      invariant forall k :: 0 <= k < |velocities| ==>
                  velocities[k] == NetForce(rs, sim.points, sim.points[k], sqrt)
    {
      var i := |velocities|;
      velocities := velocities + [NetForce(rs, sim.points, sim.points[i], sqrt)];
    }
    var points := sim.points;
    var i := 0;
    while i < |points|
      invariant 0 <= i <= |points| && |points| == |sim.points|
      invariant forall k :: 0 <= k < i ==>
                  points[k] == sim.points[k].(velocity := velocities[k])
      invariant forall k :: i <= k < |points| ==> points[k] == sim.points[k]
    {
      points := points[i := points[i].(velocity := velocities[i])];
      i := i + 1;
    }
    next := Simulation(points, rs);
  }

  /** `step`: overwrite the velocities, then move every point by its new
      velocity and damp the velocity by `1 - friction`. The result is the
      snapshot tick. */
  method Step(sim: Simulation, sqrt: real -> real) returns (next: Simulation)
    requires WellFormed(sim) && IsSqrtFn(sqrt)
    ensures next == Tick(sim, sqrt)
    ensures next.ruleset == sim.ruleset && |next.points| == |sim.points|
    ensures forall k :: 0 <= k < |sim.points| ==>
              && next.points[k].position
                 == Add(sim.points[k].position, NetForce(sim.ruleset, sim.points, sim.points[k], sqrt))
              && next.points[k].velocity
                 == Scale(NetForce(sim.ruleset, sim.points, sim.points[k], sqrt), 1.0 - sim.ruleset.friction)
              && next.points[k].pointType == sim.points[k].pointType
  {
    var stepped := StepVelocities(sim, sqrt);
    var moved := MoveAll(stepped.points, stepped.ruleset.friction);
    next := Simulation(moved, sim.ruleset);
    MovedIsTick(sim, sqrt, stepped, next);
  }

  /** The position-update loop of `step`: every point moves by its
      velocity, which is then damped; nothing else changes. */
  method MoveAll(points: seq<Point>, friction: real) returns (moved: seq<Point>)
    ensures |moved| == |points|
    ensures forall k :: 0 <= k < |points| ==>
              && moved[k].position == Add(points[k].position, points[k].velocity)
              && moved[k].velocity == Scale(points[k].velocity, 1.0 - friction)
              && moved[k].pointType == points[k].pointType
  {
    moved := points;
    var i := 0;
    while i < |moved|
      invariant 0 <= i <= |moved| && |moved| == |points|
      invariant forall k :: 0 <= k < i ==> moved[k] == Move(points[k], friction)
      invariant forall k :: i <= k < |moved| ==> moved[k] == points[k]
    {
      var p := moved[i];
      moved := moved[i := p.(position := Add(p.position, p.velocity),
                             velocity := Scale(p.velocity, 1.0 - friction))];
      i := i + 1;
    }
  }

  /** Moving every point of the velocity pass gives the snapshot tick. */
  lemma MovedIsTick(sim: Simulation, sqrt: real -> real, stepped: Simulation, next: Simulation)
    requires WellFormed(sim) && IsSqrtFn(sqrt)
    requires stepped.ruleset == sim.ruleset && |stepped.points| == |sim.points|
    requires forall k :: 0 <= k < |sim.points| ==>
               && stepped.points[k].position == sim.points[k].position
               && stepped.points[k].pointType == sim.points[k].pointType
               && stepped.points[k].velocity == NetForce(sim.ruleset, sim.points, sim.points[k], sqrt)
    requires next.ruleset == sim.ruleset && |next.points| == |sim.points|
    requires forall k :: 0 <= k < |sim.points| ==>
               && next.points[k].position == Add(stepped.points[k].position, stepped.points[k].velocity)
               && next.points[k].velocity == Scale(stepped.points[k].velocity, 1.0 - sim.ruleset.friction)
               && next.points[k].pointType == stepped.points[k].pointType
    ensures next == Tick(sim, sqrt)
  {
  }

  /** The two point sequences have the same positions and types, in the same
      order; velocities may differ. */
  predicate SameLayout(a: seq<Point>, b: seq<Point>) {
    && |a| == |b|
    && forall k :: 0 <= k < |a| ==>
         a[k].position == b[k].position && a[k].pointType == b[k].pointType
  }

  /** The two rulesets have the same interaction matrices; frictions may
      differ. */
  predicate SameRules(r1: Ruleset, r2: Ruleset) {
    && r1.numTypes == r2.numTypes
    && r1.minR == r2.minR && r1.maxR == r2.maxR && r1.attractions == r2.attractions
  }

  /** A net force depends only on the positions and types of the points and
      on the interaction matrices. */
  lemma {:induction false} NetForceCongruent(r1: Ruleset, r2: Ruleset, a: seq<Point>, b: seq<Point>,
                                             p1: Point, p2: Point, sqrt: real -> real)
    requires Shaped(r1) && RulesetAdmissible(r1) && IsSqrtFn(sqrt)
    requires SameRules(r1, r2) && SameLayout(a, b)
    requires Typed(a, r1.numTypes) && p1.pointType < r1.numTypes
    requires p1.position == p2.position && p1.pointType == p2.pointType
    ensures Shaped(r2) && RulesetAdmissible(r2) && Typed(b, r2.numTypes)
    ensures NetForce(r1, a, p1, sqrt) == NetForce(r2, b, p2, sqrt)
    decreases |a|
  {
    assert Typed(b, r2.numTypes);
    if |a| > 0 {
      assert SameLayout(a[1..], b[1..]);
      NetForceCongruent(r1, r2, a[1..], b[1..], p1, p2, sqrt);
      assert PairTerm(r1, p1, a[0], sqrt) == PairTerm(r2, p2, b[0], sqrt);
    }
  }

  /** Velocities are overwritten, not accumulated: two simulations that
      differ only in their velocities are identical after one tick. */
  lemma TickForgetsVelocities(s1: Simulation, s2: Simulation, sqrt: real -> real)
    requires WellFormed(s1) && IsSqrtFn(sqrt)
    requires s1.ruleset == s2.ruleset && SameLayout(s1.points, s2.points)
    ensures WellFormed(s2)
    ensures Tick(s1, sqrt) == Tick(s2, sqrt)
  {
    var rs := s1.ruleset;
    assert WellFormed(s2);
    forall k | 0 <= k < |s1.points|
      ensures Tick(s1, sqrt).points[k] == Tick(s2, sqrt).points[k]
    {
      NetForceCongruent(rs, rs, s1.points, s2.points, s1.points[k], s2.points[k], sqrt);
    }
  }

  /** New positions depend on neither the previous velocities nor the
      friction: only on the pre-tick positions, types and matrices. */
  lemma TickPositionsIgnoreFriction(s1: Simulation, s2: Simulation, sqrt: real -> real)
    requires WellFormed(s1) && IsSqrtFn(sqrt)
    requires SameRules(s1.ruleset, s2.ruleset) && SameLayout(s1.points, s2.points)
    ensures WellFormed(s2)
    ensures SameLayout(Tick(s1, sqrt).points, Tick(s2, sqrt).points)
  {
    assert WellFormed(s2) by {
      assert Shaped(s2.ruleset) && RulesetAdmissible(s2.ruleset);
      assert Typed(s2.points, s2.ruleset.numTypes);
    }
    forall k | 0 <= k < |s1.points|
      ensures Tick(s1, sqrt).points[k].position == Tick(s2, sqrt).points[k].position
    {
      NetForceCongruent(s1.ruleset, s2.ruleset, s1.points, s2.points, s1.points[k], s2.points[k], sqrt);
    }
  }

  /** Every pair of points is outside its interaction band. */
  predicate AllOutOfRange(sim: Simulation)
    requires WellFormed(sim)
  {
    forall i, j :: 0 <= i < |sim.points| && 0 <= j < |sim.points| ==>
      OutOfRange(sim.ruleset, sim.points[i], sim.points[j])
  }

  /** A point advanced by a zero force stays put and comes to rest. */
  lemma AdvanceByZero(p: Point, friction: real)
    ensures Advance(p, Zero, friction).position == p.position
    ensures Advance(p, Zero, friction).velocity == Zero
  {
  }

  /** With every pair out of range, a tick leaves every position where it
      was and sets every velocity to zero, whatever it was before. */
  lemma TickWhenAllOutOfRange(sim: Simulation, sqrt: real -> real)
    requires WellFormed(sim) && IsSqrtFn(sqrt)
    requires AllOutOfRange(sim)
    ensures forall k :: 0 <= k < |sim.points| ==>
              && Tick(sim, sqrt).points[k].position == sim.points[k].position
              && Tick(sim, sqrt).points[k].velocity == Zero
  {
    var next := Tick(sim, sqrt);
    forall k | 0 <= k < |sim.points|
      ensures next.points[k].position == sim.points[k].position
      ensures next.points[k].velocity == Zero
    {
      var p := sim.points[k];
      assert forall j :: 0 <= j < |sim.points| ==> OutOfRange(sim.ruleset, p, sim.points[j]);
      NetForceOutOfRange(sim.ruleset, sim.points, p, sqrt);
      assert next.points[k] == Advance(p, Zero, sim.ruleset.friction);
      AdvanceByZero(p, sim.ruleset.friction);
    }
  }

  /** A lone point feels no force, so one tick leaves it where it was and
      at rest, whatever velocity it had: velocities are not carried over. */
  lemma LonePointStops(sim: Simulation, sqrt: real -> real)
    requires WellFormed(sim) && IsSqrtFn(sqrt) && |sim.points| == 1
    ensures Tick(sim, sqrt).points[0].position == sim.points[0].position
    ensures Tick(sim, sqrt).points[0].velocity == Zero
  {
    var p := sim.points[0];
    assert sim.points == [p];
    assert Typed([p], sim.ruleset.numTypes);
    assert Tick(sim, sqrt).points[0] == Advance(p, Zero, sim.ruleset.friction);
    AdvanceByZero(p, sim.ruleset.friction);
  }

  /** The pair parameters of types `a` and `b` are the same in both orders. */
  predicate SymmetricAt(rs: Ruleset, a: nat, b: nat)
    requires Shaped(rs) && a < rs.numTypes && b < rs.numTypes
  {
    && rs.minR[a][b] == rs.minR[b][a]
    && rs.maxR[a][b] == rs.maxR[b][a]
    && rs.attractions[a][b] == rs.attractions[b][a]
  }

  /** Action and reaction: with symmetric pair parameters, `q` acts on `p`
      exactly opposite to how `p` acts on `q`. */
  lemma PairTermAntisymmetric(rs: Ruleset, p: Point, q: Point, sqrt: real -> real)
    requires Shaped(rs) && RulesetAdmissible(rs) && IsSqrtFn(sqrt)
    requires p.pointType < rs.numTypes && q.pointType < rs.numTypes
    requires SymmetricAt(rs, p.pointType, q.pointType)
    ensures PairTerm(rs, p, q, sqrt) == Neg(PairTerm(rs, q, p, sqrt))
  {
    var d := Sub(p.position, q.position);
    assert Sub(q.position, p.position) == Neg(d);
    NegNorm2(d);
    var r := sqrt(Norm2(d));
    var a, b := p.pointType, q.pointType;
    PairForceOdd(d, rs.minR[a][b], rs.maxR[a][b], rs.attractions[a][b], r);
  }

  /** After a tick, point `k` has moved by its net force, computed on the
      pre-tick points, and its velocity is that net force damped by
      `1 - friction`; its type is unchanged. */
  lemma TickUpdatesPoint(sim: Simulation, sqrt: real -> real, k: nat)
    requires WellFormed(sim) && IsSqrtFn(sqrt) && k < |sim.points|
    ensures Tick(sim, sqrt).points[k].position
            == Add(sim.points[k].position, NetForce(sim.ruleset, sim.points, sim.points[k], sqrt))
    ensures Tick(sim, sqrt).points[k].pointType == sim.points[k].pointType
    ensures Tick(sim, sqrt).points[k].velocity
            == Scale(NetForce(sim.ruleset, sim.points, sim.points[k], sqrt), 1.0 - sim.ruleset.friction)
  {
  }

  /** With two points, each one's net force is the other's pair term. */
  lemma NetForceOfPair(rs: Ruleset, p: Point, q: Point, sqrt: real -> real)
    requires Shaped(rs) && RulesetAdmissible(rs) && IsSqrtFn(sqrt)
    requires p.pointType < rs.numTypes && q.pointType < rs.numTypes
    ensures Typed([p, q], rs.numTypes)
    ensures NetForce(rs, [p, q], p, sqrt) == PairTerm(rs, p, q, sqrt)
  {
    assert [p, q] == [p] + [q];
    NetForceSplit(rs, [p], [q], p, sqrt);
    assert Typed([p], rs.numTypes);
    NetForceSingleton(rs, p, q, sqrt);
    var f := PairTerm(rs, p, q, sqrt);
    calc {
      NetForce(rs, [p, q], p, sqrt);
      Add(NetForce(rs, [p], p, sqrt), NetForce(rs, [q], p, sqrt));
      Add(Zero, Add(f, Zero));
      { AddZero(Add(f, Zero)); }
      Add(f, Zero);
      { AddZero(f); }
      f;
    }
  }

  /** The same with the two points in the other order. */
  lemma NetForceOfPairSecond(rs: Ruleset, p: Point, q: Point, sqrt: real -> real)
    requires Shaped(rs) && RulesetAdmissible(rs) && IsSqrtFn(sqrt)
    requires p.pointType < rs.numTypes && q.pointType < rs.numTypes
    ensures Typed([p, q], rs.numTypes)
    ensures NetForce(rs, [p, q], q, sqrt) == PairTerm(rs, q, p, sqrt)
  {
    assert [p, q] == [p] + [q];
    NetForceSplit(rs, [p], [q], q, sqrt);
    assert Typed([q], rs.numTypes);
    NetForceSingleton(rs, q, p, sqrt);
    var g := PairTerm(rs, q, p, sqrt);
    calc {
      NetForce(rs, [p, q], q, sqrt);
      Add(NetForce(rs, [p], q, sqrt), NetForce(rs, [q], q, sqrt));
      Add(Add(g, Zero), Zero);
      { AddZero(Add(g, Zero)); }
      Add(g, Zero);
      { AddZero(g); }
      g;
    }
  }

  /** Two points with symmetric pair parameters receive opposite net
      forces, and so opposite damped velocities. */
  lemma OppositeNetForces(rs: Ruleset, p: Point, q: Point, sqrt: real -> real, k: real)
    requires Shaped(rs) && RulesetAdmissible(rs) && IsSqrtFn(sqrt)
    requires p.pointType < rs.numTypes && q.pointType < rs.numTypes
    requires SymmetricAt(rs, p.pointType, q.pointType)
    ensures Typed([p, q], rs.numTypes)
    ensures Scale(NetForce(rs, [p, q], q, sqrt), k) == Neg(Scale(NetForce(rs, [p, q], p, sqrt), k))
  {
    NetForceOfPair(rs, p, q, sqrt);
    NetForceOfPairSecond(rs, p, q, sqrt);
    PairTermAntisymmetric(rs, q, p, sqrt);
    NegScale(PairTerm(rs, p, q, sqrt), k);
  }

  /** With two points whose pair parameters are symmetric, a tick leaves
      them with opposite velocities: equal in magnitude, opposite in
      direction. */
  lemma TwoPointsRecoilEqually(sim: Simulation, sqrt: real -> real)
    requires WellFormed(sim) && IsSqrtFn(sqrt) && |sim.points| == 2
    requires SymmetricAt(sim.ruleset, sim.points[0].pointType, sim.points[1].pointType)
    ensures Tick(sim, sqrt).points[1].velocity == Neg(Tick(sim, sqrt).points[0].velocity)
  {
    var rs, p, q := sim.ruleset, sim.points[0], sim.points[1];
    assert sim.points == [p, q];
    OppositeNetForces(rs, p, q, sqrt, 1.0 - rs.friction);
    TickUpdatesPoint(sim, sqrt, 0);
    TickUpdatesPoint(sim, sqrt, 1);
  }

  /** Two points of a single type five units apart along the x-axis, in a
      band from 1 to 10 with attraction 1 and no friction: after one tick
      they move towards each other along the x-axis with equal and opposite
      velocities of magnitude 8/9, whatever their previous velocities. */
  lemma TwoParticleScenario(sim: Simulation, sqrt: real -> real)
    requires WellFormed(sim) && IsSqrtFn(sqrt) && ScenarioShape(sim)
    ensures Tick(sim, sqrt).points[0].velocity == Vec2(8.0 / 9.0, 0.0)
    ensures Tick(sim, sqrt).points[1].velocity == Vec2(-8.0 / 9.0, 0.0)
  {
    ScenarioFirstVelocity(sim, sqrt);
    TwoPointsRecoilEqually(sim, sqrt);
    NegOf(8.0 / 9.0, 0.0);
  }

  /** The scenario is inhabited: points at rest at (0, 0) and (5, 0) in a
      one-type ruleset form such a simulation. */
  lemma ScenarioExists()
    ensures var sim := Simulation([Point(Vec2(0.0, 0.0), 0, Zero), Point(Vec2(5.0, 0.0), 0, Zero)],
                                  Ruleset(1, [[1.0]], [[10.0]], [[1.0]], 0.0));
            WellFormed(sim) && ScenarioShape(sim)
  {
  }

  /** The facts about the two-point scenario that the first velocity
      depends on. */
  predicate ScenarioShape(sim: Simulation)
    requires WellFormed(sim)
  {
    && |sim.points| == 2 && sim.ruleset.friction == 0.0 && 0 < sim.ruleset.numTypes
    && sim.points[0].pointType == 0 && sim.points[1].pointType == 0
    && Sub(sim.points[1].position, sim.points[0].position) == Vec2(5.0, 0.0)
    && sim.ruleset.minR[0][0] == 1.0 && sim.ruleset.maxR[0][0] == 10.0
    && sim.ruleset.attractions[0][0] == 1.0
  }

  lemma ScenarioFirstVelocity(sim: Simulation, sqrt: real -> real)
    requires WellFormed(sim) && IsSqrtFn(sqrt) && ScenarioShape(sim)
    ensures Tick(sim, sqrt).points[0].velocity == Vec2(8.0 / 9.0, 0.0)
    ensures SymmetricAt(sim.ruleset, sim.points[0].pointType, sim.points[1].pointType)
  {
    var rs, p, q := sim.ruleset, sim.points[0], sim.points[1];
    assert sim.points == [p, q];
    ScenarioPairTerm(rs, p, q, sqrt);
    NetForceOfPair(rs, p, q, sqrt);
    TickUpdatesPoint(sim, sqrt, 0);
    assert 1.0 - rs.friction == 1.0;
    ScaleByOne(Vec2(8.0 / 9.0, 0.0));
  }

  lemma ScenarioPairTerm(rs: Ruleset, p: Point, q: Point, sqrt: real -> real)
    requires Shaped(rs) && RulesetAdmissible(rs) && 0 < rs.numTypes
    requires p.pointType == 0 && q.pointType == 0
    requires Sub(q.position, p.position) == Vec2(5.0, 0.0)
    requires rs.minR[0][0] == 1.0 && rs.maxR[0][0] == 10.0 && rs.attractions[0][0] == 1.0
    requires IsSqrtFn(sqrt)
    ensures PairTerm(rs, p, q, sqrt) == Vec2(8.0 / 9.0, 0.0)
  {
    var delta := Sub(q.position, p.position);
    SqrtOfSquare(sqrt, Norm2(delta), 5.0);
    PairTermUnfold(rs, p, q, sqrt);
    KernelAtFive(delta, rs.minR[0][0], rs.maxR[0][0], rs.attractions[0][0], sqrt(Norm2(delta)));
  }

  /** A pair term is the kernel applied to the pair's displacement and
      parameters. */
  lemma PairTermUnfold(rs: Ruleset, p: Point, q: Point, sqrt: real -> real)
    requires Shaped(rs) && RulesetAdmissible(rs)
    requires p.pointType < rs.numTypes && q.pointType < rs.numTypes
    requires IsSqrtFn(sqrt)
    ensures var delta := Sub(q.position, p.position);
            var a, b := p.pointType, q.pointType;
            PairTerm(rs, p, q, sqrt)
            == PairForce(delta, rs.minR[a][b], rs.maxR[a][b], rs.attractions[a][b], sqrt(Norm2(delta)))
  {
  }

  /** A square-root function returns `a` on `a * a` for `a >= 0`. */
  lemma SqrtOfSquare(sqrt: real -> real, x: real, a: real)
    requires IsSqrtFn(sqrt) && 0.0 <= a && x == a * a
    ensures sqrt(x) == a
  {
    assert IsSqrt(sqrt(x), a * a);
    RootOfSquare(sqrt(x), a);
  }
}
