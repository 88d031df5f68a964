/** Rulesets and their random generation from a template
    (`Ruleset`, `RulesetTemplate::generate` and `DIVERSITY_TEMPLATE` in
    src/simulation.rs). Every random draw is a nondeterministic choice that
    is constrained only to the range the draw is taken from. */
module Rules {

  /** Per-type-pair interaction parameters: three `numTypes` x `numTypes`
      matrices indexed `[type of p][type of q]`, and one friction. */
  datatype Ruleset = Ruleset(
    numTypes: nat,
    minR: seq<seq<real>>,
    maxR: seq<seq<real>>,
    attractions: seq<seq<real>>,
    friction: real)

  /** The descriptors a ruleset is drawn from. */
  datatype RulesetTemplate = RulesetTemplate(
    minTypes: nat,
    maxTypes: nat,
    minFriction: real,
    maxFriction: real,
    minRLower: real,
    minRUpper: real,
    maxRLower: real,
    maxRUpper: real,
    attractionsMean: real,
    attractionsStd: real)

  /** The "diverse ecosystem" preset. */
  const DIVERSITY_TEMPLATE: RulesetTemplate := RulesetTemplate(
    minTypes := 12,
    maxTypes := 12,
    minFriction := 0.05,
    maxFriction := 0.05,
    minRLower := 0.0,
    minRUpper := 20.0,
    maxRLower := 10.0,
    maxRUpper := 60.0,
    attractionsMean := -0.01,
    attractionsStd := 0.04)

  /** `m` has exactly `n` rows, each of length `n`. */
  predicate IsSquare(m: seq<seq<real>>, n: nat) {
    |m| == n && forall i :: 0 <= i < n ==> |m[i]| == n
  }

  /** `v` lies in the closed interval `[lo, hi]`, the range of an inclusive
      uniform draw. */
  predicate InInterval(v: real, lo: real, hi: real) {
    lo <= v <= hi
  }

  /** Every entry of `m` lies in the closed interval `[lo, hi]`. */
  predicate Within(m: seq<seq<real>>, lo: real, hi: real) {
    forall i, j :: 0 <= i < |m| && 0 <= j < |m[i]| ==> lo <= m[i][j] <= hi
  }

  /** Every entry of `m` equals `v`. */
  predicate Constant(m: seq<seq<real>>, v: real) {
    forall i, j :: 0 <= i < |m| && 0 <= j < |m[i]| ==> m[i][j] == v
  }

  /** The three matrices are square of side `numTypes`. */
  predicate Shaped(rs: Ruleset) {
    && IsSquare(rs.minR, rs.numTypes)
    && IsSquare(rs.maxR, rs.numTypes)
    && IsSquare(rs.attractions, rs.numTypes)
  }

  /** The template can be sampled without a panic: every inclusive range
      that is actually drawn from is non-empty. The radius ranges are drawn
      from only when some type count above zero can be chosen. */
  predicate Drawable(t: RulesetTemplate) {
    && t.minTypes <= t.maxTypes
    && t.minFriction <= t.maxFriction
    && (t.maxTypes > 0 ==> t.minRLower <= t.minRUpper && t.maxRLower <= t.maxRUpper)
  }

  /** `rs` is one of the rulesets that sampling `t` can produce. */
  predicate Generable(t: RulesetTemplate, rs: Ruleset) {
    && t.minTypes <= rs.numTypes <= t.maxTypes
    && Shaped(rs)
    && Within(rs.minR, t.minRLower, t.minRUpper)
    && Within(rs.maxR, t.maxRLower, t.maxRUpper)
    && (t.attractionsStd == 0.0 ==> Constant(rs.attractions, t.attractionsMean))
    && t.minFriction <= rs.friction <= t.maxFriction
  }

  /** `gen_2d_vec_uniform`: `n` rows of `n` independent draws from `[lo, hi]`. */
  method UniformMatrix(n: nat, lo: real, hi: real) returns (m: seq<seq<real>>)
    requires n > 0 ==> lo <= hi
    ensures IsSquare(m, n)
    ensures Within(m, lo, hi)
  {
    m := [];
    var i := 0;
    while i < n
      invariant 0 <= i <= n
      invariant |m| == i
      invariant forall k :: 0 <= k < i ==> |m[k]| == n
      invariant Within(m, lo, hi)
    {
      var row: seq<real> := [];
      var j := 0;
      while j < n
        invariant 0 <= j <= n
        invariant |row| == j
        invariant forall k :: 0 <= k < j ==> lo <= row[k] <= hi
      {
        assert InInterval(lo, lo, hi);
        var v :| InInterval(v, lo, hi);
        assert InInterval(v, lo, hi);
        row := row + [v];
        j := j + 1;
      }
      m := m + [row];
      i := i + 1;
    }
  }

  /** `gen_2d_vec_normal`: `n` rows of `n` independent normal draws. A normal
      draw can be any real; with a zero deviation it is the mean. */
  method NormalMatrix(n: nat, mean: real, std: real) returns (m: seq<seq<real>>)
    ensures IsSquare(m, n)
    ensures std == 0.0 ==> Constant(m, mean)
  {
    m := [];
    var i := 0;
    while i < n
      invariant 0 <= i <= n
      invariant |m| == i
      invariant forall k :: 0 <= k < i ==> |m[k]| == n
      invariant std == 0.0 ==> Constant(m, mean)
    {
      var row: seq<real> := [];
      var j := 0;
      while j < n
        invariant 0 <= j <= n
        invariant |row| == j
        invariant std == 0.0 ==> forall k :: 0 <= k < j ==> row[k] == mean
      {
        var v :| std == 0.0 ==> v == mean;
        row := row + [v];
        j := j + 1;
      }
      m := m + [row];
      i := i + 1;
    }
  }

  /** `RulesetTemplate::generate`: draw the type count, then the three
      matrices, then one friction. */
  method Generate(t: RulesetTemplate) returns (rs: Ruleset)
    requires Drawable(t)
    ensures t.minTypes <= rs.numTypes <= t.maxTypes
    ensures Shaped(rs)
    ensures Within(rs.minR, t.minRLower, t.minRUpper)
    ensures Within(rs.maxR, t.maxRLower, t.maxRUpper)
    ensures t.attractionsStd == 0.0 ==> Constant(rs.attractions, t.attractionsMean)
    ensures t.minFriction <= rs.friction <= t.maxFriction
    ensures Generable(t, rs)
  {
    var n :| t.minTypes <= n <= t.maxTypes;
    var minR := UniformMatrix(n, t.minRLower, t.minRUpper);
    var maxR := UniformMatrix(n, t.maxRLower, t.maxRUpper);
    var attractions := NormalMatrix(n, t.attractionsMean, t.attractionsStd);
    assert InInterval(t.minFriction, t.minFriction, t.maxFriction);
    var friction :| InInterval(friction, t.minFriction, t.maxFriction);
    assert InInterval(friction, t.minFriction, t.maxFriction);
    rs := Ruleset(n, minR, maxR, attractions, friction);
  }

  /** The preset can be sampled, and every ruleset it yields has exactly
      12 types and friction 0.05. */
  lemma DiversityIsFixed(rs: Ruleset)
    requires Generable(DIVERSITY_TEMPLATE, rs)
    ensures Drawable(DIVERSITY_TEMPLATE)
    ensures rs.numTypes == 12 && rs.friction == 0.05
    ensures |rs.minR| == 12 && |rs.maxR| == 12 && |rs.attractions| == 12
  {
  }

  /** Nothing orders `minR` below `maxR`: the preset's two radius ranges
      overlap on `[10, 20]`, so it can yield a pair whose inner radius
      exceeds its outer radius. */
  lemma DiversityAllowsInvertedRadii()
    ensures exists rs :: Generable(DIVERSITY_TEMPLATE, rs) && rs.minR[0][0] > rs.maxR[0][0]
  {
    var row := seq(12, j => 15.0);
    var minR := seq(12, i => row);
    var maxR := seq(12, i => seq(12, j => 12.0));
    var attractions := seq(12, i => seq(12, j => -0.01));
    var rs := Ruleset(12, minR, maxR, attractions, 0.05);
    assert Generable(DIVERSITY_TEMPLATE, rs);
  }
}
