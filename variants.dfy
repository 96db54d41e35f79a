/** The two environments, NavToCenter and NavToEdges: their configuration,
    their scale, their goal tests, their shaped rewards, their random
    placements and the radii of their low-discrepancy placements.

    All positions are normalised: a physical position divided by the
    variant's world scale. */
module Variants {
  import opened Geometry

  /** Which subclass of the environment is meant. */
  datatype Variant = NavToCenter | NavToEdges

  /** The constructor arguments. Nothing about them is checked when an
      environment is built. */
  datatype Config = Config(
    variant: Variant,
    isEval: bool,
    goalRadius: real,
    worldRadius: real,
    maxStepScale: real,
    sparsity: real,
    biasedRewardShaping: bool)

  /** The world radius for NavToCenter, the goal radius for NavToEdges. */
  function WorldScale(c: Config): real
  {
    match c.variant
    case NavToCenter => c.worldRadius
    case NavToEdges => c.goalRadius
  }

  /** What the arithmetic of the environment divides by must not be zero:
      the world scale always, the sparsity in training mode. */
  ghost predicate Divisible(c: Config)
  {
    WorldScale(c) != 0.0 && (c.isEval || c.sparsity != 0.0)
  }

  /** Python's `int` of a float: truncation toward zero. */
  function Truncate(x: real): (n: int)
    ensures 0.0 <= x ==> 0 <= n && n as real <= x < n as real + 1.0
    ensures x < 0.0 ==> n <= 0 && n as real - 1.0 < x <= n as real
  {
    if 0.0 <= x then x.Floor else -((-x).Floor)
  }

  /** The step budget, fixed when the environment is built. */
  function MaxSteps(c: Config): int
  {
    Truncate(WorldScale(c) * c.maxStepScale)
  }

  /** The normalised goal radius of NavToCenter. */
  function GoalFraction(c: Config): real
    requires WorldScale(c) != 0.0
  {
    c.goalRadius / WorldScale(c)
  }

  /** `_at_goal`: inside the goal disc (NavToCenter) or on or beyond the
      normalised world boundary (NavToEdges). */
  function AtGoal(c: Config, sqrt: real -> real, loc: Vec): bool
    requires IsSqrt(sqrt) && WorldScale(c) != 0.0
  {
    match c.variant
    case NavToCenter => Norm(sqrt, loc) <= GoalFraction(c)
    case NavToEdges => Norm(sqrt, loc) >= 1.0
  }

  /** Both goal tests in squared lengths, so without a square root. */
  lemma AtGoalSquared(c: Config, sqrt: real -> real, loc: Vec)
    requires IsSqrt(sqrt) && WorldScale(c) != 0.0
    ensures c.variant == NavToCenter ==>
      (AtGoal(c, sqrt, loc) <==>
        0.0 <= GoalFraction(c) && SqNorm(loc) <= GoalFraction(c) * GoalFraction(c))
    ensures c.variant == NavToEdges ==> (AtGoal(c, sqrt, loc) <==> SqNorm(loc) >= 1.0)
  {
    var n := Norm(sqrt, loc);
    match c.variant
    case NavToCenter =>
      var g := GoalFraction(c);
      if 0.0 <= g { RootLe(n, g); }
    case NavToEdges =>
      RootLe(1.0, n);
  }

  /** `_get_shaped_reward`: progress since the previous location, positive
      toward the goal, in physical units. In biased mode NavToEdges measures
      only the first coordinate, and the norm of one number is its absolute
      value. NavToCenter ignores the biased flag. */
  function ShapedReward(c: Config, sqrt: real -> real, loc: Vec, prev: Vec): real
    requires IsSqrt(sqrt)
  {
    match c.variant
    case NavToCenter =>
      (Norm(sqrt, prev) - Norm(sqrt, loc)) * WorldScale(c)
    case NavToEdges =>
      if c.biasedRewardShaping then
        (ScalarNorm(sqrt, loc.x) - ScalarNorm(sqrt, prev.x)) * WorldScale(c)
      else
        (Norm(sqrt, loc) - Norm(sqrt, prev)) * WorldScale(c)
  }

  lemma MulSign(d: real, w: real)
    requires 0.0 < w
    ensures 0.0 < d * w <==> 0.0 < d
    ensures d * w < 0.0 <==> d < 0.0
  {
    if 0.0 < d { MulPositive(d, w); }
    if d < 0.0 { MulPositive(-d, w); }
  }

  /** With a positive scale, NavToCenter's shaped reward is positive exactly
      when the agent got nearer the origin and negative exactly when it got
      farther from it. */
  lemma CenterRewardSign(c: Config, sqrt: real -> real, loc: Vec, prev: Vec)
    requires IsSqrt(sqrt) && 0.0 < WorldScale(c) && c.variant == NavToCenter
    ensures 0.0 < ShapedReward(c, sqrt, loc, prev) <==> SqNorm(loc) < SqNorm(prev)
    ensures ShapedReward(c, sqrt, loc, prev) < 0.0 <==> SqNorm(prev) < SqNorm(loc)
  {
    var cur, before := Norm(sqrt, loc), Norm(sqrt, prev);
    RootLess(cur, before);
    RootLess(before, cur);
    MulSign(before - cur, WorldScale(c));
  }

  /** With a positive scale, NavToEdges' shaped reward is positive exactly
      when the agent moved outward and negative exactly when it moved inward. */
  lemma EdgesRewardSign(c: Config, sqrt: real -> real, loc: Vec, prev: Vec)
    requires IsSqrt(sqrt) && 0.0 < WorldScale(c)
    requires c.variant == NavToEdges && !c.biasedRewardShaping
    ensures 0.0 < ShapedReward(c, sqrt, loc, prev) <==> SqNorm(prev) < SqNorm(loc)
    ensures ShapedReward(c, sqrt, loc, prev) < 0.0 <==> SqNorm(loc) < SqNorm(prev)
  {
    var cur, before := Norm(sqrt, loc), Norm(sqrt, prev);
    RootLess(cur, before);
    RootLess(before, cur);
    MulSign(cur - before, WorldScale(c));
  }

  /** In biased mode only the first coordinate counts: the reward is
      positive exactly when its absolute value grew. */
  lemma BiasedRewardSign(c: Config, sqrt: real -> real, loc: Vec, prev: Vec)
    requires IsSqrt(sqrt) && 0.0 < WorldScale(c)
    requires c.variant == NavToEdges && c.biasedRewardShaping
    ensures 0.0 < ShapedReward(c, sqrt, loc, prev) <==> Abs(prev.x) < Abs(loc.x)
    ensures ShapedReward(c, sqrt, loc, prev) < 0.0 <==> Abs(loc.x) < Abs(prev.x)
    ensures ShapedReward(c, sqrt, loc, prev) == (Abs(loc.x) - Abs(prev.x)) * WorldScale(c)
  {
    var d := Abs(loc.x) - Abs(prev.x);
    assert ShapedReward(c, sqrt, loc, prev) == d * WorldScale(c);
    MulSign(d, WorldScale(c));
  }

  /** The interval `rng.uniform` draws the squared radius from in
      `_reset_location`: from the squared goal fraction to 1 for NavToCenter,
      from 0 to the normalised world radius for NavToEdges. */
  function DrawBounds(c: Config): (real, real)
    requires WorldScale(c) != 0.0
  {
    match c.variant
    case NavToCenter => (GoalFraction(c) * GoalFraction(c), 1.0)
    case NavToEdges => (0.0, c.worldRadius / WorldScale(c))
  }

  /** `rng.uniform(lo, hi)` of a numpy `Generator` refuses bounds with
      lo > hi. */
  predicate OrderedBounds(bounds: (real, real))
  {
    bounds.0 <= bounds.1
  }

  /** A value `rng.uniform(lo, hi)` can return for ordered bounds. */
  ghost predicate UniformDraw(bounds: (real, real), s: real)
  {
    bounds.0 <= s <= bounds.1
  }

  /** Both lower bounds are squares or zero, so an accepted draw is never
      negative. */
  lemma DrawNonNegative(c: Config, draw: real)
    requires WorldScale(c) != 0.0 && UniformDraw(DrawBounds(c), draw)
    ensures 0.0 <= draw
  {
    if c.variant == NavToCenter {
      SquareNonNegative(GoalFraction(c));
    }
  }

  /** `_reset_location` of both variants: the normal sample `u` gives the
      direction, the square root of the uniform draw the radius. */
  function ResetLocation(sqrt: real -> real, u: Vec, draw: real): Vec
    requires IsSqrt(sqrt) && 0.0 < SqNorm(u) && 0.0 <= draw
  {
    u.Scale(sqrt(draw)).Div(Norm(sqrt, u))
  }

  lemma CancelInverse(d: real, s: real)
    requires s != 0.0
    ensures (1.0 / s) * (d * s) == d
  {}

  /** The placed point lies at squared distance `draw` from the origin, in
      the direction of the normal sample. */
  lemma ResetLocationSqNorm(sqrt: real -> real, u: Vec, draw: real)
    requires IsSqrt(sqrt) && 0.0 < SqNorm(u) && 0.0 <= draw
    ensures SqNorm(ResetLocation(sqrt, u, draw)) == draw
    ensures exists k: real :: 0.0 <= k && ResetLocation(sqrt, u, draw) == u.Scale(k)
  {
    var r, n := sqrt(draw), Norm(sqrt, u);
    SqNormScale(u, r);
    SqNormDiv(u.Scale(r), n);
    assert SqNorm(u.Scale(r)) == draw * SqNorm(u);
    CancelInverse(draw, SqNorm(u));
    ScaleDivIsScale(u, r, n);
    assert 0.0 <= r / n;
  }

  /** NavToCenter's random placement avoids the goal disc except on its
      boundary: a draw above the squared goal fraction is never at the goal,
      and the lowest draw numpy can return puts a non-negative goal fraction
      exactly on the boundary, which counts as reached. */
  lemma CenterResetAvoidsGoal(c: Config, sqrt: real -> real, u: Vec, draw: real)
    requires IsSqrt(sqrt) && WorldScale(c) != 0.0 && c.variant == NavToCenter
    requires 0.0 < SqNorm(u) && UniformDraw(DrawBounds(c), draw) && 0.0 <= draw
    ensures var loc := ResetLocation(sqrt, u, draw);
      var g := GoalFraction(c);
      (g * g < draw ==> !AtGoal(c, sqrt, loc)) &&
      (0.0 <= g && draw == g * g ==> AtGoal(c, sqrt, loc))
  {
    var loc := ResetLocation(sqrt, u, draw);
    ResetLocationSqNorm(sqrt, u, draw);
    AtGoalSquared(c, sqrt, loc);
  }

  /** NavToEdges excludes nothing: its random placement is at the goal
      exactly when the draw is at least 1. */
  lemma EdgesResetAtGoal(c: Config, sqrt: real -> real, u: Vec, draw: real)
    requires IsSqrt(sqrt) && WorldScale(c) != 0.0 && c.variant == NavToEdges
    requires 0.0 < SqNorm(u) && 0.0 <= draw
    ensures AtGoal(c, sqrt, ResetLocation(sqrt, u, draw)) <==> 1.0 <= draw
  {
    ResetLocationSqNorm(sqrt, u, draw);
    AtGoalSquared(c, sqrt, ResetLocation(sqrt, u, draw));
  }

  /** Python's `int(np.ceil(x))`: the least integer not below `x`. */
  function Ceil(x: real): (n: int)
    ensures x <= n as real < x + 1.0
  {
    -((-x).Floor)
  }

  /** An integer within less than 1 above `x` is its ceiling. */
  lemma CeilAt(x: real, k: int)
    requires k as real - 1.0 < x <= k as real
    ensures Ceil(x) == k
  {
    var m := Ceil(x);
    assert (m - k) as real < 1.0 && -1.0 < (m - k) as real;
  }

  /** The goal radius over the world radius, as `fib_disc_init` of
      NavToCenter computes it. */
  function SweepRatio(c: Config): real
    requires c.worldRadius != 0.0
  {
    c.goalRadius / c.worldRadius
  }

  /** The sweep bounds of NavToCenter's `fib_disc_init` for `n` points:
      `lo` is ⌈n·g²⌉ and `hi` is ⌈n / (1 - g²)⌉, where g is the goal radius
      over the world radius. */
  function CenterSweepBounds(c: Config, n: int): (int, int)
    requires c.worldRadius != 0.0
    requires SweepRatio(c) * SweepRatio(c) != 1.0
  {
    var g2 := SweepRatio(c) * SweepRatio(c);
    assert 1.0 - g2 != 0.0;
    (Ceil(n as real * g2), Ceil(n as real / (1.0 - g2)))
  }

  /** The radius NavToCenter's `fib_disc_init` computes for index `i` from
      its sweep bounds `lo` and `hi`. */
  function CenterSweepRadius(sqrt: real -> real, i: int, lo: int, hi: int): real
    requires IsSqrt(sqrt) && hi != 0 && 0.0 <= (i + lo) as real / hi as real
  {
    sqrt((i + lo) as real / hi as real)
  }

  /** The radius NavToEdges' `fib_disc_init` computes for index `i` of `n`. */
  function EdgesSweepRadius(c: Config, sqrt: real -> real, i: int, n: int): real
    requires IsSqrt(sqrt) && WorldScale(c) != 0.0 && n != 0 && 0.0 <= i as real / n as real
  {
    sqrt(i as real / n as real) * c.worldRadius / WorldScale(c)
  }

  lemma ProductSquare(q: real, t: real)
    ensures (q * t) * (q * t) == (q * q) * (t * t)
  {}

  lemma MulDivAssoc(q: real, w: real, d: real)
    requires d != 0.0
    ensures q * w / d == q * (w / d)
  {}

  /** The squared sweep radii: (i + lo) / hi for NavToCenter, and
      (i / n)·(world radius / world scale)² for NavToEdges. */
  lemma CenterSweepRadiusSquared(sqrt: real -> real, i: int, lo: int, hi: int)
    requires IsSqrt(sqrt) && hi != 0 && 0.0 <= (i + lo) as real / hi as real
    ensures CenterSweepRadius(sqrt, i, lo, hi) * CenterSweepRadius(sqrt, i, lo, hi)
      == (i + lo) as real / hi as real
  {}

  lemma EdgesSweepRadiusSquared(c: Config, sqrt: real -> real, i: int, n: int)
    requires IsSqrt(sqrt) && WorldScale(c) != 0.0 && n != 0 && 0.0 <= i as real / n as real
    ensures var t := c.worldRadius / WorldScale(c);
      EdgesSweepRadius(c, sqrt, i, n) * EdgesSweepRadius(c, sqrt, i, n)
        == (i as real / n as real) * (t * t)
  {
    var q, t := sqrt(i as real / n as real), c.worldRadius / WorldScale(c);
    MulDivAssoc(q, c.worldRadius, WorldScale(c));
    ProductSquare(q, t);
  }

  lemma DivMonotone(a: real, b: real, d: real)
    requires a <= b && 0.0 < d
    ensures a / d <= b / d
  {}

  lemma SqrtMonotone(sqrt: real -> real, x: real, y: real)
    requires IsSqrt(sqrt) && 0.0 <= x <= y
    ensures sqrt(x) <= sqrt(y)
  {
    RootLe(sqrt(x), sqrt(y));
  }

  /** The sweep radii grow with the index. */
  lemma CenterSweepMonotone(sqrt: real -> real, i: int, j: int, lo: int, hi: int)
    requires IsSqrt(sqrt) && 0 < hi && 0 <= i + lo && i <= j
    ensures 0.0 <= (i + lo) as real / hi as real <= (j + lo) as real / hi as real
    ensures CenterSweepRadius(sqrt, i, lo, hi) <= CenterSweepRadius(sqrt, j, lo, hi)
  {
    DivMonotone(0.0, (i + lo) as real, hi as real);
    DivMonotone((i + lo) as real, (j + lo) as real, hi as real);
    SqrtMonotone(sqrt, (i + lo) as real / hi as real, (j + lo) as real / hi as real);
  }

  lemma EdgesSweepMonotone(c: Config, sqrt: real -> real, i: int, j: int, n: int)
    requires IsSqrt(sqrt) && 0.0 < WorldScale(c) && 0.0 <= c.worldRadius
    requires 0 < n && 0 <= i <= j
    ensures 0.0 <= i as real / n as real <= j as real / n as real
    ensures EdgesSweepRadius(c, sqrt, i, n) <= EdgesSweepRadius(c, sqrt, j, n)
  {
    var x, y := i as real / n as real, j as real / n as real;
    assert 0.0 <= x by { DivMonotone(0.0, i as real, n as real); }
    assert x <= y by { DivMonotone(i as real, j as real, n as real); }
    var p, q := sqrt(x), sqrt(y);
    assert p <= q by { SqrtMonotone(sqrt, x, y); }
    assert p * c.worldRadius <= q * c.worldRadius by { MulMonotone(p, q, c.worldRadius); }
    assert EdgesSweepRadius(c, sqrt, i, n) == p * c.worldRadius / WorldScale(c);
    assert EdgesSweepRadius(c, sqrt, j, n) == q * c.worldRadius / WorldScale(c);
    DivMonotone(p * c.worldRadius, q * c.worldRadius, WorldScale(c));
  }

}
