/** The pairwise force law: the closure mapped over all points inside
    `Simulation::get_velocity` (src/simulation.rs). Square roots are not
    computed here: the caller passes the distance `r` together with the
    promise that it is the non-negative square root of the squared
    distance. */
module Force {
  import opened Vectors

  /** Softening constant of the short-range branch, `Simulation::R_SMOOTH`. */
  const R_SMOOTH: real := 2.0

  /** Squared-distance floor below which a pair contributes nothing. */
  const MIN_R2: real := 0.01

  function Abs(x: real): real {
    if x < 0.0 then -x else x
  }

  /** `r` is the non-negative square root of `x`. */
  predicate IsSqrt(r: real, x: real) {
    0.0 <= r && r * r == x
  }

  /** The pair is inside the interaction band: neither
      `r2 > max_r * max_r` nor `r2 < 0.01`. */
  predicate InRange(r2: real, maxR: real) {
    !(r2 > maxR * maxR || r2 < MIN_R2)
  }

  /** The tent denominator `max_r - min_r` can only be zero on a reachable
      path when `min_r == max_r < 0`; such radii are excluded. */
  predicate Admissible(minR: real, maxR: real) {
    minR != maxR || 0.0 <= maxR
  }

  /** `1 - numer / denom` of the tent branch. */
  function TentFactor(r: real, minR: real, maxR: real): real
    requires minR != maxR
  {
    var numer := 2.0 * Abs(r - 0.5 * (maxR + minR));
    var denom := maxR - minR;
    1.0 - numer / denom
  }

  /** Outer branch (`r > min_r`): a tent scaled by the attraction. */
  function Tent(r: real, minR: real, maxR: real, attraction: real): real
    requires minR != maxR
  {
    attraction * TentFactor(r, minR, maxR)
  }

  /** Inner branch (`r <= min_r`): the smoothed short-range term. */
  function Inner(r: real, minR: real): real
    requires 0.0 <= r <= minR
  {
    R_SMOOTH * minR * (1.0 / (minR + R_SMOOTH) - 1.0 / (r + R_SMOOTH))
  }

  /** The signed magnitude `f` of the force at distance `r`. */
  function Magnitude(r: real, minR: real, maxR: real, attraction: real): real
    requires 0.0 <= r
    requires r > minR ==> minR != maxR
  {
    if r > minR then Tent(r, minR, maxR, attraction) else Inner(r, minR)
  }

  /** With a non-negative outer radius, a distance whose square is at most
      `maxR * maxR` is at most `maxR`. */
  lemma {:induction false} RootBelowMaxR(r: real, maxR: real)
    requires 0.0 <= r && 0.0 <= maxR
    requires r * r <= maxR * maxR
    ensures r <= maxR
  {
    var s := r + maxR;
    var p := (r - maxR) * s;
    assert p == r * r - maxR * maxR;
    if s != 0.0 {
      assert r - maxR == p / s;
    }
  }

  /** A pair in range is at a positive distance, and when it reaches the
      tent branch the tent denominator is non-zero. */
  lemma {:induction false} InRangeIsWellDefined(delta: Vec2, minR: real, maxR: real, r: real)
    requires IsSqrt(r, Norm2(delta)) && Admissible(minR, maxR)
    requires InRange(Norm2(delta), maxR)
    ensures 0.0 < r
    ensures r > minR ==> minR != maxR
  {
    if r > minR && minR == maxR {
      RootBelowMaxR(r, maxR);
      assert false;
    }
  }

  /** The force on `p` exerted by `q` at displacement `delta = q - p`:
      zero outside the band, otherwise `(delta / r) * f`. */
  function PairForce(delta: Vec2, minR: real, maxR: real, attraction: real, r: real): (force: Vec2)
    requires IsSqrt(r, Norm2(delta)) && Admissible(minR, maxR)
    ensures !InRange(Norm2(delta), maxR) ==> force == Zero
  {
    if !InRange(Norm2(delta), maxR) then Zero
    else
      InRangeIsWellDefined(delta, minR, maxR, r);
      Scale(Div(delta, r), Magnitude(r, minR, maxR, attraction))
  }

  /** In the band the force is the normalized displacement scaled by `f`. */
  lemma PairForceInBand(delta: Vec2, minR: real, maxR: real, attraction: real, r: real)
    requires IsSqrt(r, Norm2(delta)) && Admissible(minR, maxR)
    requires InRange(Norm2(delta), maxR)
    ensures 0.0 < r && (r > minR ==> minR != maxR)
    ensures PairForce(delta, minR, maxR, attraction, r)
            == Scale(Div(delta, r), Magnitude(r, minR, maxR, attraction))
  {
  }

  /** A point's own term: a zero displacement is below the distance floor,
      so it contributes the zero vector. */
  lemma SelfPairVanishes(minR: real, maxR: real, attraction: real)
    requires Admissible(minR, maxR)
    ensures IsSqrt(0.0, Norm2(Zero))
    ensures PairForce(Zero, minR, maxR, attraction, 0.0) == Zero
  {
  }

  lemma {:induction false} CancelSquare(x: real, r: real)
    requires 0.0 < r && r * r * x == r * r
    ensures x == 1.0
  {
  }

  lemma {:induction false} CancelFactor(x: real, r: real)
    requires 0.0 < r && r * x == r * r
    ensures x == r
  {
  }

  /** Scaling by `f` scales projections by `f` and squared lengths by `f * f`. */
  lemma ScaledVector(u: Vec2, f: real, d: Vec2)
    ensures Dot(Scale(u, f), d) == f * Dot(u, d)
    ensures Norm2(Scale(u, f)) == f * f * Norm2(u)
  {
  }

  /** `delta / r` is a unit vector whose projection on `delta` is `r`. */
  lemma {:induction false} NormalizedDelta(delta: Vec2, r: real)
    requires 0.0 < r && Norm2(delta) == r * r
    ensures Norm2(Div(delta, r)) == 1.0
    ensures Dot(Div(delta, r), delta) == r
  {
    var u := Div(delta, r);
    var n := Norm2(u);
    assert Scale(u, r) == delta;
    ScaledVector(u, r, u);
    ScaledVector(u, r, delta);
    calc {
      r * r * n;
      Norm2(Scale(u, r));
      Norm2(delta);
      r * r;
    }
    CancelSquare(n, r);
    calc {
      r * Dot(u, delta);
      Dot(Scale(u, r), delta);
      Norm2(delta);
      r * r;
    }
    CancelFactor(Dot(u, delta), r);
  }

  /** A unit vector `u` whose projection on `delta` is `r`, scaled by `f`,
      projects to `f * r` on `delta` and has squared length `f * f`. */
  lemma {:induction false} AlongDirection(u: Vec2, f: real, delta: Vec2, r: real)
    requires Norm2(u) == 1.0 && Dot(u, delta) == r
    ensures Dot(Scale(u, f), delta) == f * r
    ensures Norm2(Scale(u, f)) == f * f
  {
  }

  /** In range, the force points along `delta` with signed magnitude `f`:
      its projection on `delta` is `f * r` and its squared length `f * f`.
      So a positive `f` pulls `p` towards `q` and a negative one pushes it
      away. */
  lemma {:induction false} PairForceGeometry(delta: Vec2, minR: real, maxR: real, attraction: real, r: real)
    requires IsSqrt(r, Norm2(delta)) && Admissible(minR, maxR)
    requires InRange(Norm2(delta), maxR)
    ensures 0.0 < r && (r > minR ==> minR != maxR)
    ensures Dot(PairForce(delta, minR, maxR, attraction, r), delta)
            == Magnitude(r, minR, maxR, attraction) * r
    ensures Norm2(PairForce(delta, minR, maxR, attraction, r))
            == Magnitude(r, minR, maxR, attraction) * Magnitude(r, minR, maxR, attraction)
  {
    PairForceInBand(delta, minR, maxR, attraction, r);
    NormalizedDelta(delta, r);
    AlongDirection(Div(delta, r), Magnitude(r, minR, maxR, attraction), delta, r);
  }

  /** A ratio of a non-negative number to a positive one at least as large
      lies in `[0, 1]`. */
  lemma {:induction false} UnitFraction(n: real, d: real)
    requires 0.0 <= n <= d && 0.0 < d
    ensures 0.0 <= n / d <= 1.0
  {
  }

  /** With a non-negative outer radius, the tent branch is entered only for
      `minR < r <= maxR`; there the denominator is positive, the tent factor
      lies in `[0, 1]` and `|f| <= |attraction|`. */
  lemma {:induction false} TentBounded(r: real, minR: real, maxR: real, attraction: real)
    requires 0.0 <= maxR && 0.0 <= r && r * r <= maxR * maxR
    requires r > minR
    ensures minR < r <= maxR
    ensures 0.0 < maxR - minR
    ensures 0.0 <= TentFactor(r, minR, maxR) <= 1.0
    ensures Abs(Magnitude(r, minR, maxR, attraction)) <= Abs(attraction)
  {
    RootBelowMaxR(r, maxR);
    var numer := 2.0 * Abs(r - 0.5 * (maxR + minR));
    var denom := maxR - minR;
    assert 0.0 <= numer <= denom;
    var q := numer / denom;
    UnitFraction(numer, denom);
    var k := TentFactor(r, minR, maxR);
    assert k == 1.0 - q;
    if attraction >= 0.0 {
      assert attraction * k <= attraction;
      assert attraction * k >= 0.0;
    } else {
      assert attraction * k >= attraction;
      assert attraction * k <= 0.0;
    }
  }

  /** The tent peaks at the midpoint of the band, where `f` is the full
      attraction. */
  lemma TentPeaksAtMidpoint(minR: real, maxR: real, attraction: real)
    requires minR < maxR && 0.0 <= minR + maxR
    ensures Magnitude(0.5 * (minR + maxR), minR, maxR, attraction) == attraction
  {
  }

  /** At the outer radius the tent has fallen to zero. */
  lemma TentVanishesAtMaxR(minR: real, maxR: real, attraction: real)
    requires 0.0 <= maxR && minR < maxR
    ensures Magnitude(maxR, minR, maxR, attraction) == 0.0
  {
  }

  /** The inner branch is repulsive: for `0 <= r <= minR` the magnitude is
      never positive, whatever the outer radius and attraction. */
  lemma {:induction false} InnerIsRepulsive(r: real, minR: real, maxR: real, attraction: real)
    requires 0.0 <= r <= minR
    ensures Magnitude(r, minR, maxR, attraction) <= 0.0
  {
  }

  /** The two branches meet at `r == minR`: the inner term is zero there and
      so is the tent formula, so `f` is continuous across the boundary. */
  lemma ContinuousAtMinR(minR: real, maxR: real, attraction: real)
    requires 0.0 <= minR < maxR
    ensures Inner(minR, minR) == 0.0
    ensures Tent(minR, minR, maxR, attraction) == 0.0
    ensures Magnitude(minR, minR, maxR, attraction) == 0.0
  {
  }

  lemma {:induction false} ZeroProduct(x: real, y: real)
    requires x * y == 0.0 && y != 0.0
    ensures x == 0.0
  {
  }

  /** The non-negative root of `a * a` is `a` itself when `a >= 0`. */
  lemma {:induction false} RootOfSquare(r: real, a: real)
    requires IsSqrt(r, a * a) && 0.0 <= a
    ensures r == a
  {
    assert (r - a) * (r + a) == r * r - a * a;
    if r + a != 0.0 {
      ZeroProduct(r - a, r + a);
    }
  }

  /** The kernel is odd in the displacement: reversing `delta` reverses the
      force, so two points with the same pair parameters push or pull each
      other equally and oppositely. */
  lemma PairForceOdd(delta: Vec2, minR: real, maxR: real, attraction: real, r: real)
    requires IsSqrt(r, Norm2(delta)) && Admissible(minR, maxR)
    ensures IsSqrt(r, Norm2(Neg(delta)))
    ensures PairForce(Neg(delta), minR, maxR, attraction, r)
            == Neg(PairForce(delta, minR, maxR, attraction, r))
  {
    NegNorm2(delta);
    var n := Norm2(delta);
    assert Norm2(Neg(delta)) == n;
    assert IsSqrt(r, Norm2(Neg(delta)));
    if InRange(n, maxR) {
      OddInBand(delta, minR, maxR, attraction, r);
    } else {
      OddOutside(delta, minR, maxR, attraction, r);
    }
  }

  lemma OddOutside(delta: Vec2, minR: real, maxR: real, attraction: real, r: real)
    requires IsSqrt(r, Norm2(delta)) && Admissible(minR, maxR)
    requires !InRange(Norm2(delta), maxR)
    requires IsSqrt(r, Norm2(Neg(delta))) && Norm2(Neg(delta)) == Norm2(delta)
    ensures PairForce(Neg(delta), minR, maxR, attraction, r)
            == Neg(PairForce(delta, minR, maxR, attraction, r))
  {
    NegZero();
  }

  lemma OddInBand(delta: Vec2, minR: real, maxR: real, attraction: real, r: real)
    requires IsSqrt(r, Norm2(delta)) && Admissible(minR, maxR)
    requires InRange(Norm2(delta), maxR)
    requires IsSqrt(r, Norm2(Neg(delta))) && Norm2(Neg(delta)) == Norm2(delta)
    ensures PairForce(Neg(delta), minR, maxR, attraction, r)
            == Neg(PairForce(delta, minR, maxR, attraction, r))
  {
    InRangeIsWellDefined(delta, minR, maxR, r);
    var m := Magnitude(r, minR, maxR, attraction);
    PairForceInBand(delta, minR, maxR, attraction, r);
    PairForceInBand(Neg(delta), minR, maxR, attraction, r);
    NegDiv(delta, r);
    NegScale(Div(delta, r), m);
  }

  /** At distance 5 in a band from 1 to 10 with attraction 1 the tent gives
      `f = 1 - 1/9`, pulling along the displacement. */
  lemma KernelAtFive(delta: Vec2, minR: real, maxR: real, attraction: real, r: real)
    requires delta == Vec2(5.0, 0.0) && r == 5.0
    requires minR == 1.0 && maxR == 10.0 && attraction == 1.0
    ensures IsSqrt(r, Norm2(delta)) && Admissible(minR, maxR)
    ensures PairForce(delta, minR, maxR, attraction, r) == Vec2(8.0 / 9.0, 0.0)
  {
  }
}
