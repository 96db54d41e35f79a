/** The episode lifecycle of `Navigation` on values: what `step`, `reset`
    and `fib_disc_init` do to the per-episode fields and what `step`
    returns. The class in module `Env` is proved to follow these functions;
    the lemmas here state what the lifecycle guarantees. */
module Episode {
  import opened Geometry
  import opened Variants

  /** The ways a call can fail: `step` after the episode stopped,
      `fib_disc_init` while the agent is at the goal, and `reset` when the
      bounds of its uniform draw are inverted. */
  datatype Error = InvalidState | InvalidInitialization | InvalidDrawBounds

  datatype Result<T> = Ok(value: T) | Err(error: Error)

  /** The per-episode fields `location`, `prev_location`, `num_steps` and
      `stop`. */
  datatype EpisodeState = EpisodeState(location: Vec, prevLocation: Vec, numSteps: nat, stop: bool)

  /** What `step` returns: the observation, the reward, the done flag and
      the `at_goal` entry of the info dictionary. */
  datatype StepResult = StepResult(observation: Vec, reward: real, done: bool, atGoal: bool)

  /** The fields as the constructor leaves them. */
  const Initial := EpisodeState(Origin, Origin, 0, false)

  /** How far one action moves the agent: the clipped action divided by the
      world scale. */
  function Displacement(c: Config, sqrt: real -> real, a: Vec): Vec
    requires IsSqrt(sqrt) && WorldScale(c) != 0.0
  {
    Clip(sqrt, a).Div(WorldScale(c))
  }

  /** One step never moves the agent farther than 1 / world scale; a short
      enough action moves it by exactly the action over the world scale. */
  lemma DisplacementBounded(c: Config, sqrt: real -> real, a: Vec)
    requires IsSqrt(sqrt) && WorldScale(c) != 0.0
    ensures SqNorm(Displacement(c, sqrt, a)) <= 1.0 / (WorldScale(c) * WorldScale(c))
    ensures SqNorm(a) <= 1.0 ==> Displacement(c, sqrt, a) == a.Div(WorldScale(c))
  {
    var w := WorldScale(c);
    ClipSpec(sqrt, a);
    SqNormDiv(Clip(sqrt, a), w);
    SquarePositive(w);
    MulMonotone(SqNorm(Clip(sqrt, a)), 1.0, 1.0 / (w * w));
  }

  /** Stretching an action that is already longer than 1 does not change
      where the agent goes. */
  lemma DisplacementScaleInvariant(c: Config, sqrt: real -> real, a: Vec, k: real)
    requires IsSqrt(sqrt) && WorldScale(c) != 0.0
    requires Norm(sqrt, a) > 1.0 && k >= 1.0
    ensures Displacement(c, sqrt, a.Scale(k)) == Displacement(c, sqrt, a)
  {
    ClipScaleInvariant(sqrt, a, k);
  }

  /** The termination condition of `_get_step_result`. */
  function Terminated(c: Config, numSteps: int, atGoal: bool): bool
  {
    (numSteps > 0 && atGoal) || numSteps > MaxSteps(c)
  }

  /** The reward of `_get_step_result`, from the fields after the action and
      after `stop` was updated. */
  function Reward(c: Config, sqrt: real -> real, s: EpisodeState, atGoal: bool): real
    requires IsSqrt(sqrt) && Divisible(c)
  {
    if c.isEval then
      if atGoal then 1.0 else 0.0
    else
      0.0 + ShapedReward(c, sqrt, s.location, s.prevLocation) / c.sparsity
        + if s.stop && atGoal then 1.0 else 0.0
  }

  /** `_get_step_result`: sets `stop` once the episode is over (it never
      clears it) and computes what `step` returns. */
  function GetStepResult(c: Config, sqrt: real -> real, s: EpisodeState): (EpisodeState, StepResult)
    requires IsSqrt(sqrt) && Divisible(c)
  {
    var atGoal := AtGoal(c, sqrt, s.location);
    var after := if Terminated(c, s.numSteps, atGoal) then s.(stop := true) else s;
    (after, StepResult(s.location, Reward(c, sqrt, after, atGoal), after.stop, atGoal))
  }

  /** `step`: refuse after the stop, else count the step, remember the
      location, move, and evaluate. */
  function Step(c: Config, sqrt: real -> real, s: EpisodeState, a: Vec): Result<(EpisodeState, StepResult)>
    requires IsSqrt(sqrt) && Divisible(c)
  {
    if s.stop then Err(InvalidState)
    else
      var moved := EpisodeState(s.location.Add(Displacement(c, sqrt, a)), s.location, s.numSteps + 1, s.stop);
      Ok(GetStepResult(c, sqrt, moved))
  }

  /** `reset`: a fresh random placement with cleared counters, or the
      error `rng.uniform` raises when the variant's draw bounds are inverted
      (before any field is assigned). */
  function Reset(c: Config, sqrt: real -> real, u: Vec, draw: real): Result<EpisodeState>
    requires IsSqrt(sqrt) && WorldScale(c) != 0.0 && 0.0 < SqNorm(u)
    requires OrderedBounds(DrawBounds(c)) ==> UniformDraw(DrawBounds(c), draw)
  {
    if !OrderedBounds(DrawBounds(c)) then Err(InvalidDrawBounds)
    else
      DrawNonNegative(c, draw);
      var loc := ResetLocation(sqrt, u, draw);
      Ok(EpisodeState(loc, loc, 0, false))
  }

  /** `fib_disc_init` with its radius `r` and its golden-angle direction
      `dir` already computed: the goal test is made on the location BEFORE
      the new point is placed, and only `location` changes. */
  function FibDiscInit(c: Config, sqrt: real -> real, s: EpisodeState, r: real, dir: Vec): Result<EpisodeState>
    requires IsSqrt(sqrt) && WorldScale(c) != 0.0
  {
    if AtGoal(c, sqrt, s.location) then Err(InvalidInitialization)
    else Ok(s.(location := dir.Scale(r)))
  }

  /** The results of feeding `actions` to `step` one after the other. */
  function Rollout(c: Config, sqrt: real -> real, s: EpisodeState, actions: seq<Vec>): (rs: seq<Result<StepResult>>)
    requires IsSqrt(sqrt) && Divisible(c)
    ensures |rs| == |actions|
    decreases |actions|
  {
    if actions == [] then []
    else
      match Step(c, sqrt, s, actions[0])
      case Err(e) => [Err(e)] + Rollout(c, sqrt, s, actions[1..])
      case Ok((next, r)) => [Ok(r)] + Rollout(c, sqrt, next, actions[1..])
  }

  /** A step after the stop fails and changes nothing. */
  lemma StepAfterStop(c: Config, sqrt: real -> real, s: EpisodeState, a: Vec)
    requires IsSqrt(sqrt) && Divisible(c) && s.stop
    ensures Step(c, sqrt, s, a) == Err(InvalidState)
  {}

  /** A step before the stop succeeds: it counts one more step, keeps the
      old location as the previous one, moves by the displacement, and
      reports what it set `stop` to, the new location and the goal test. */
  lemma StepEffect(c: Config, sqrt: real -> real, s: EpisodeState, a: Vec)
    requires IsSqrt(sqrt) && Divisible(c) && !s.stop
    ensures Step(c, sqrt, s, a).Ok?
    ensures var (next, r) := Step(c, sqrt, s, a).value;
      && next.numSteps == s.numSteps + 1
      && next.prevLocation == s.location
      && next.location == s.location.Add(Displacement(c, sqrt, a))
      && r.observation == next.location
      && r.done == next.stop
      && r.atGoal == AtGoal(c, sqrt, next.location)
  {}

  /** After the step the episode is over exactly when the agent is at the
      goal or the step count exceeds the budget; the count is positive after
      the increment, so the first condition reduces to the goal test. */
  lemma StepTermination(c: Config, sqrt: real -> real, s: EpisodeState, a: Vec)
    requires IsSqrt(sqrt) && Divisible(c) && !s.stop
    ensures var (next, r) := Step(c, sqrt, s, a).value;
      r.done <==> r.atGoal || s.numSteps + 1 > MaxSteps(c)
  {}

  /** `_get_step_result` sets `stop` but never clears it. */
  lemma StopNeverCleared(c: Config, sqrt: real -> real, s: EpisodeState)
    requires IsSqrt(sqrt) && Divisible(c)
    ensures s.stop ==> GetStepResult(c, sqrt, s).0.stop
    ensures GetStepResult(c, sqrt, s).0 == s.(stop := GetStepResult(c, sqrt, s).0.stop)
  {}

  /** The reward rule: in evaluation mode 1 at the goal and 0 elsewhere; in
      training mode the shaped reward over the sparsity, plus a bonus of 1
      exactly when the step ends the episode at the goal. Running out of
      steps away from the goal earns no bonus. */
  lemma StepReward(c: Config, sqrt: real -> real, s: EpisodeState, a: Vec)
    requires IsSqrt(sqrt) && Divisible(c) && !s.stop
    ensures var (next, r) := Step(c, sqrt, s, a).value;
      c.isEval ==> r.reward == if r.atGoal then 1.0 else 0.0
    ensures var (next, r) := Step(c, sqrt, s, a).value;
      !c.isEval ==>
        var shaped := ShapedReward(c, sqrt, next.location, s.location) / c.sparsity;
        && (r.done && r.atGoal ==> r.reward == shaped + 1.0)
        && (!(r.done && r.atGoal) ==> r.reward == shaped)
        && (!r.atGoal ==> r.reward == shaped)
  {}

  /** Once `step` has reported done, the next `step` fails. */
  lemma DoneIsFinal(c: Config, sqrt: real -> real, s: EpisodeState, a: Vec, b: Vec)
    requires IsSqrt(sqrt) && Divisible(c) && !s.stop
    ensures var (next, r) := Step(c, sqrt, s, a).value;
      r.done ==> Step(c, sqrt, next, b) == Err(InvalidState)
  {}

  /** Every step after the stop fails. */
  lemma {:induction false} RolloutAfterStop(c: Config, sqrt: real -> real, s: EpisodeState, actions: seq<Vec>)
    requires IsSqrt(sqrt) && Divisible(c) && s.stop
    ensures forall j :: 0 <= j < |actions| ==> Rollout(c, sqrt, s, actions)[j] == Err(InvalidState)
    decreases |actions|
  {
    if actions != [] {
      RolloutAfterStop(c, sqrt, s, actions[1..]);
    }
  }

  /** None of the steps that succeeded found the agent at the goal. */
  ghost predicate NeverAtGoal(rs: seq<Result<StepResult>>)
  {
    forall j :: 0 <= j < |rs| && rs[j].Ok? ==> !rs[j].value.atGoal
  }

  /** The step budget: from a running episode that has taken `n` steps, an
      agent that never reaches the goal is told "not done" on every step up
      to the budget and "done" on step `MaxSteps + 1`. */
  lemma {:induction false} BudgetExhaustion(c: Config, sqrt: real -> real, s: EpisodeState, actions: seq<Vec>)
    requires IsSqrt(sqrt) && Divisible(c) && !s.stop
    requires s.numSteps <= MaxSteps(c) && |actions| == MaxSteps(c) + 1 - s.numSteps
    requires NeverAtGoal(Rollout(c, sqrt, s, actions))
    ensures forall j :: 0 <= j < |actions| ==> Rollout(c, sqrt, s, actions)[j].Ok?
    ensures forall j :: 0 <= j < |actions| ==>
      (Rollout(c, sqrt, s, actions)[j].value.done <==> j == |actions| - 1)
    decreases |actions|
  {
    var rs := Rollout(c, sqrt, s, actions);
    StepEffect(c, sqrt, s, actions[0]);
    StepTermination(c, sqrt, s, actions[0]);
    var (next, r) := Step(c, sqrt, s, actions[0]).value;
    assert rs == [Ok(r)] + Rollout(c, sqrt, next, actions[1..]);
    assert !r.atGoal by { assert rs[0] == Ok(r); }
    if |actions| > 1 {
      var tail := Rollout(c, sqrt, next, actions[1..]);
      assert NeverAtGoal(tail) by {
        forall j | 0 <= j < |tail| && tail[j].Ok? ensures !tail[j].value.atGoal {
          assert tail[j] == rs[j + 1];
        }
      }
      BudgetExhaustion(c, sqrt, next, actions[1..]);
      forall j | 0 <= j < |actions|
        ensures rs[j].Ok? && (rs[j].value.done <==> j == |actions| - 1)
      {
        if j > 0 { assert rs[j] == tail[j - 1]; }
      }
    }
  }

  /** From `reset`, with a budget of at least zero, an agent that never
      reaches the goal is done exactly on step `MaxSteps + 1`. */
  lemma ResetThenBudget(c: Config, sqrt: real -> real, u: Vec, draw: real, s: EpisodeState, actions: seq<Vec>)
    requires IsSqrt(sqrt) && Divisible(c) && 0.0 < SqNorm(u)
    requires OrderedBounds(DrawBounds(c)) ==> UniformDraw(DrawBounds(c), draw)
    requires Reset(c, sqrt, u, draw) == Ok(s)
    requires 0 <= MaxSteps(c) && |actions| == MaxSteps(c) + 1
    requires NeverAtGoal(Rollout(c, sqrt, s, actions))
    ensures forall j :: 0 <= j < |actions| ==>
      var r := Rollout(c, sqrt, s, actions)[j];
      r.Ok? && (r.value.done <==> j == MaxSteps(c))
  {
    BudgetExhaustion(c, sqrt, s, actions);
  }

  /** `reset` fails exactly when the draw bounds are inverted: for
      NavToCenter when the goal is wider than the world, for NavToEdges when
      the world radius over the goal radius is negative. */
  lemma ResetFailure(c: Config, sqrt: real -> real, u: Vec, draw: real)
    requires IsSqrt(sqrt) && WorldScale(c) != 0.0 && 0.0 < SqNorm(u)
    requires OrderedBounds(DrawBounds(c)) ==> UniformDraw(DrawBounds(c), draw)
    ensures c.variant == NavToCenter ==>
      (Reset(c, sqrt, u, draw).Err? <==> 1.0 < GoalFraction(c) * GoalFraction(c))
    ensures c.variant == NavToEdges ==>
      (Reset(c, sqrt, u, draw).Err? <==> c.worldRadius / WorldScale(c) < 0.0)
    ensures Reset(c, sqrt, u, draw).Err? ==> Reset(c, sqrt, u, draw).error == InvalidDrawBounds
  {
    match c.variant
    case NavToCenter =>
      assert DrawBounds(c).0 == GoalFraction(c) * GoalFraction(c);
    case NavToEdges =>
      assert DrawBounds(c).1 == c.worldRadius / WorldScale(c);
  }

  /** A successful `reset` clears the counters, leaves the previous location
      equal to the new one and places the agent at squared distance `draw`
      along the normal sample; NavToCenter's placement is outside the goal
      disc whenever the draw is above its lower bound. */
  lemma ResetEffect(c: Config, sqrt: real -> real, u: Vec, draw: real)
    requires IsSqrt(sqrt) && WorldScale(c) != 0.0 && 0.0 < SqNorm(u)
    requires OrderedBounds(DrawBounds(c)) ==> UniformDraw(DrawBounds(c), draw)
    ensures Reset(c, sqrt, u, draw).Ok? ==>
      var s := Reset(c, sqrt, u, draw).value;
      && s.numSteps == 0 && !s.stop && s.prevLocation == s.location
      && SqNorm(s.location) == draw
      && (exists k: real :: 0.0 <= k && s.location == u.Scale(k))
      && (c.variant == NavToCenter && GoalFraction(c) * GoalFraction(c) < draw ==> !AtGoal(c, sqrt, s.location))
      && (c.variant == NavToEdges ==> (AtGoal(c, sqrt, s.location) <==> 1.0 <= draw))
  {
    if OrderedBounds(DrawBounds(c)) {
      DrawNonNegative(c, draw);
      ResetLocationSqNorm(sqrt, u, draw);
      if c.variant == NavToCenter {
        CenterResetAvoidsGoal(c, sqrt, u, draw);
      } else {
        EdgesResetAtGoal(c, sqrt, u, draw);
      }
    }
  }

  /** `fib_disc_init` fails exactly when the agent is at the goal BEFORE the
      new point is placed; otherwise it moves the agent to `r` times the unit
      direction `dir`, at squared distance r², and touches nothing else. */
  lemma FibDiscInitEffect(c: Config, sqrt: real -> real, s: EpisodeState, r: real, dir: Vec)
    requires IsSqrt(sqrt) && WorldScale(c) != 0.0 && SqNorm(dir) == 1.0
    ensures FibDiscInit(c, sqrt, s, r, dir).Err? <==> AtGoal(c, sqrt, s.location)
    ensures FibDiscInit(c, sqrt, s, r, dir).Err? ==>
      FibDiscInit(c, sqrt, s, r, dir).error == InvalidInitialization
    ensures FibDiscInit(c, sqrt, s, r, dir).Ok? ==>
      var t := FibDiscInit(c, sqrt, s, r, dir).value;
      && t.location == dir.Scale(r)
      && t.prevLocation == s.prevLocation && t.numSteps == s.numSteps && t.stop == s.stop
      && SqNorm(t.location) == r * r
  {
    SqNormScale(dir, r);
  }

  /** NavToCenter's `fib_disc_init` for index `i` of `n`, away from the goal,
      places the agent at squared distance (i + lo) / hi. */
  lemma CenterSweepPlacement(c: Config, sqrt: real -> real, s: EpisodeState, i: int, n: int, dir: Vec)
    requires IsSqrt(sqrt) && c.variant == NavToCenter && c.worldRadius != 0.0
    requires SweepRatio(c) * SweepRatio(c) != 1.0
    requires var (lo, hi) := CenterSweepBounds(c, n); hi != 0 && 0.0 <= (i + lo) as real / hi as real
    requires SqNorm(dir) == 1.0 && !AtGoal(c, sqrt, s.location)
    ensures var (lo, hi) := CenterSweepBounds(c, n);
      var res := FibDiscInit(c, sqrt, s, CenterSweepRadius(sqrt, i, lo, hi), dir);
      res.Ok? && SqNorm(res.value.location) == (i + lo) as real / hi as real
  {
    var (lo, hi) := CenterSweepBounds(c, n);
    var r := CenterSweepRadius(sqrt, i, lo, hi);
    FibDiscInitEffect(c, sqrt, s, r, dir);
    CenterSweepRadiusSquared(sqrt, i, lo, hi);
  }

  /** NavToEdges' `fib_disc_init` for index `i` of `n`, away from the goal,
      places the agent at squared distance (i / n)·(world radius / goal
      radius)², so on the goal exactly from that value 1 on. */
  lemma EdgesSweepPlacement(c: Config, sqrt: real -> real, s: EpisodeState, i: int, n: int, dir: Vec)
    requires IsSqrt(sqrt) && c.variant == NavToEdges && WorldScale(c) != 0.0
    requires n != 0 && 0.0 <= i as real / n as real
    requires SqNorm(dir) == 1.0 && !AtGoal(c, sqrt, s.location)
    ensures var res := FibDiscInit(c, sqrt, s, EdgesSweepRadius(c, sqrt, i, n), dir);
      var t := c.worldRadius / WorldScale(c);
      && res.Ok?
      && SqNorm(res.value.location) == (i as real / n as real) * (t * t)
      && (AtGoal(c, sqrt, res.value.location) <==> 1.0 <= (i as real / n as real) * (t * t))
  {
    var r := EdgesSweepRadius(c, sqrt, i, n);
    FibDiscInitEffect(c, sqrt, s, r, dir);
    EdgesSweepRadiusSquared(c, sqrt, i, n);
    AtGoalSquared(c, sqrt, dir.Scale(r));
  }

  /** For some goal ratios and point counts NavToCenter's index 0 lands
      inside the goal disc and the call succeeds: goal radius 1 and world radius 2
      (so g² = 1/4), n = 10, hence lo = 3 and hi = 14 and a squared radius of
      3/14, starting from (1, 0) and with direction (1, 0). */
  lemma CenterSweepStartsInGoal(sqrt: real -> real)
    requires IsSqrt(sqrt)
    ensures var c := Config(NavToCenter, true, 1.0, 2.0, 4.5, 1.0, false);
      var s := EpisodeState(Vec(1.0, 0.0), Vec(1.0, 0.0), 0, false);
      var (lo, hi) := CenterSweepBounds(c, 10);
      && lo == 3 && hi == 14
      && var res := FibDiscInit(c, sqrt, s, CenterSweepRadius(sqrt, 0, lo, hi), Vec(1.0, 0.0));
      res.Ok? && AtGoal(c, sqrt, res.value.location)
  {
    var c := Config(NavToCenter, true, 1.0, 2.0, 4.5, 1.0, false);
    var s := EpisodeState(Vec(1.0, 0.0), Vec(1.0, 0.0), 0, false);
    assert SweepRatio(c) * SweepRatio(c) == 0.25;
    CeilAt(10.0 * 0.25, 3);
    CeilAt(10.0 / (1.0 - 0.25), 14);
    assert CenterSweepBounds(c, 10) == (3, 14);
    AtGoalSquared(c, sqrt, s.location);
    var r := CenterSweepRadius(sqrt, 0, 3, 14);
    CenterSweepRadiusSquared(sqrt, 0, 3, 14);
    SqNormScale(Vec(1.0, 0.0), r);
    AtGoalSquared(c, sqrt, Vec(1.0, 0.0).Scale(r));
  }

  /** The evaluation loop of the training script computes (lo, hi) for N
      points and calls `fib_disc_init(i, hi)` for i from lo, so that the
      agent starts outside the goal; the method recomputes its bounds from
      hi, and the first call still lands inside the goal without an error:
      goal radius 0.7 and world radius 1 (g² = 0.49), N = 100, so the loop
      has lo = 49 and hi = 197, and `fib_disc_init(49, 197)` uses (97, 387)
      and a squared radius of 146/387, starting from (1, 0) and with
      direction (1, 0). */
  lemma CenterSweepCallerStartsInGoal(sqrt: real -> real)
    requires IsSqrt(sqrt)
    ensures var c := Config(NavToCenter, true, 0.7, 1.0, 4.5, 1.0, false);
      var s := EpisodeState(Vec(1.0, 0.0), Vec(1.0, 0.0), 0, false);
      && CenterSweepBounds(c, 100) == (49, 197)
      && CenterSweepBounds(c, 197) == (97, 387)
      && var res := FibDiscInit(c, sqrt, s, CenterSweepRadius(sqrt, 49, 97, 387), Vec(1.0, 0.0));
      res.Ok? && AtGoal(c, sqrt, res.value.location)
  {
    var c := Config(NavToCenter, true, 0.7, 1.0, 4.5, 1.0, false);
    var s := EpisodeState(Vec(1.0, 0.0), Vec(1.0, 0.0), 0, false);
    assert SweepRatio(c) * SweepRatio(c) == 0.49;
    CeilAt(100.0 * 0.49, 49);
    CeilAt(100.0 / (1.0 - 0.49), 197);
    assert CenterSweepBounds(c, 100) == (49, 197);
    CeilAt(197.0 * 0.49, 97);
    CeilAt(197.0 / (1.0 - 0.49), 387);
    assert CenterSweepBounds(c, 197) == (97, 387);
    AtGoalSquared(c, sqrt, s.location);
    var r := CenterSweepRadius(sqrt, 49, 97, 387);
    CenterSweepRadiusSquared(sqrt, 49, 97, 387);
    SqNormScale(Vec(1.0, 0.0), r);
    AtGoalSquared(c, sqrt, Vec(1.0, 0.0).Scale(r));
  }

  /** Because the test looks at the old location, `fib_disc_init` can place
      the agent on its goal without failing: NavToEdges with goal radius 1 and
      world radius 10, after a placement at the origin, given the radius of
      index i = n (which is 10) and direction (1, 0). */
  lemma FibDiscInitMissesNewPoint(sqrt: real -> real)
    requires IsSqrt(sqrt)
    ensures var c := Config(NavToEdges, true, 1.0, 10.0, 4.5, 1.0, false);
      var s := EpisodeState(Origin, Origin, 0, false);
      var res := FibDiscInit(c, sqrt, s, 10.0, Vec(1.0, 0.0));
      res.Ok? && AtGoal(c, sqrt, res.value.location)
  {
    var c := Config(NavToEdges, true, 1.0, 10.0, 4.5, 1.0, false);
    AtGoalSquared(c, sqrt, Origin);
    AtGoalSquared(c, sqrt, Vec(10.0, 0.0));
    assert Vec(1.0, 0.0).Scale(10.0) == Vec(10.0, 0.0);
  }
}
