/** The environment object: a `Navigation` holds its configuration and the
    per-episode fields, and its methods change those fields in place as
    `reset`, `step`, `_take_action`, `_get_step_result`, `_reset_location`
    and `fib_disc_init` do. Each method is proved to follow the functions of
    module `Episode`, whose lemmas state what the lifecycle guarantees. */
module Env {
  import opened Geometry
  import opened Variants
  import opened Episode

  /** The two components of an action array. */
  function ActionVec(action: array<real>): Vec
    reads action
    requires action.Length == 2
  {
    Vec(action[0], action[1])
  }

  class Navigation {
    const config: Config
    /** The square root the norms are computed with. */
    const sqrt: real -> real
    const maxSteps: int

    var location: Vec
    var prevLocation: Vec
    var numSteps: nat
    var stop: bool

    ghost predicate Valid()
      reads this
    {
      Divisible(config) && IsSqrt(sqrt) && maxSteps == MaxSteps(config)
    }

    /** The per-episode fields as one value. */
    function State(): EpisodeState
      reads this
    {
      EpisodeState(location, prevLocation, numSteps, stop)
    }

    /** `__init__`: stores the configuration unchecked, fixes the step
        budget and puts the agent at the origin with cleared counters. */
    constructor (config: Config, sqrt: real -> real)
      requires Divisible(config) && IsSqrt(sqrt)
      ensures Valid()
      ensures this.config == config && this.sqrt == sqrt
      ensures maxSteps == MaxSteps(config)
      ensures State() == Initial
    {
      this.config := config;
      this.sqrt := sqrt;
      maxSteps := Truncate(WorldScale(config) * config.maxStepScale);
      numSteps := 0;
      stop := false;
      location := Origin;
      prevLocation := Origin;
    }

    /** `_at_goal` on the current location. */
    function AtGoal(): bool
      reads this
      requires Valid()
    {
      Variants.AtGoal(config, sqrt, location)
    }

    /** `_get_shaped_reward` on the current and previous locations. */
    function ShapedReward(): real
      reads this
      requires Valid()
    {
      Variants.ShapedReward(config, sqrt, location, prevLocation)
    }

    /** `_take_action`: rescales the caller's action array in place to the
        displacement and adds it to the location. */
    method TakeAction(action: array<real>)
      requires Valid() && action.Length == 2
      modifies this`location, action
      ensures Valid()
      ensures ActionVec(action) == Displacement(config, sqrt, old(ActionVec(action)))
      ensures location == old(location).Add(ActionVec(action))
    {
      var actNorm := Norm(sqrt, ActionVec(action));
      if actNorm > 1.0 {
        action[0] := action[0] / actNorm;
        action[1] := action[1] / actNorm;
      }
      action[0] := action[0] / WorldScale(config);
      action[1] := action[1] / WorldScale(config);
      location := location.Add(ActionVec(action));
    }

    /** `_get_step_result`: may set `stop`, and builds what `step` returns. */
    method GetStepResult() returns (r: StepResult)
      requires Valid()
      modifies this`stop
      ensures Valid()
      ensures (State(), r) == Episode.GetStepResult(config, sqrt, old(State()))
    {
      var observation := location;
      var atGoal := AtGoal();
      if (numSteps > 0 && atGoal) || numSteps > maxSteps {
        stop := true;
      }
      var reward: real;
      if config.isEval {
        reward := if atGoal then 1.0 else 0.0;
      } else {
        reward := 0.0;
        reward := reward + ShapedReward() / config.sparsity;
        if stop && atGoal {
          reward := reward + 1.0;
        }
      }
      r := StepResult(observation, reward, stop, atGoal);
    }

    /** `step`: fails after the stop without touching anything; otherwise
        counts the step, saves the location, applies the action (which
        rewrites the caller's array) and evaluates the result. */
    method Step(action: array<real>) returns (r: Result<StepResult>)
      requires Valid() && action.Length == 2
      modifies this, action
      ensures Valid()
      ensures old(stop) ==>
        r == Err(InvalidState) && State() == old(State()) && action[..] == old(action[..])
      ensures !old(stop) ==>
        var (next, res) := Episode.Step(config, sqrt, old(State()), old(ActionVec(action))).value;
        r == Ok(res) && State() == next &&
        ActionVec(action) == Displacement(config, sqrt, old(ActionVec(action)))
    {
      if stop {
        return Err(InvalidState);
      }
      numSteps := numSteps + 1;
      prevLocation := location;
      TakeAction(action);
      var res := GetStepResult();
      r := Ok(res);
    }

    /** NavToCenter's and NavToEdges' `_reset_location`, given the normal
        sample `u` and the uniform draw: `ok` is false, and nothing changes,
        when `rng.uniform` refuses the variant's inverted bounds. */
    method ResetLocation(u: Vec, draw: real) returns (ok: bool)
      requires Valid() && 0.0 < SqNorm(u)
      requires OrderedBounds(DrawBounds(config)) ==> UniformDraw(DrawBounds(config), draw)
      modifies this`location, this`prevLocation
      ensures Valid()
      ensures ok == OrderedBounds(DrawBounds(config))
      ensures ok ==> location == Variants.ResetLocation(sqrt, u, draw) && prevLocation == location
      ensures !ok ==> location == old(location) && prevLocation == old(prevLocation)
    {
      var (lo, hi) := DrawBounds(config);
      if hi < lo {
        return false;
      }
      DrawNonNegative(config, draw);
      var radius := sqrt(draw);
      var norm := Norm(sqrt, u);
      location := u.Scale(radius).Div(norm);
      prevLocation := location;
      ok := true;
    }

    /** `reset`: a new random placement, then cleared counters; on inverted
        draw bounds it fails before changing anything. */
    method Reset(u: Vec, draw: real) returns (res: Result<Vec>)
      requires Valid() && 0.0 < SqNorm(u)
      requires OrderedBounds(DrawBounds(config)) ==> UniformDraw(DrawBounds(config), draw)
      modifies this
      ensures Valid()
      ensures var spec := Episode.Reset(config, sqrt, u, draw);
        && (spec.Err? ==> res == Err(spec.error) && State() == old(State()))
        && (spec.Ok? ==> res == Ok(location) && State() == spec.value)
    {
      var ok := ResetLocation(u, draw);
      if !ok {
        return Err(InvalidDrawBounds);
      }
      stop := false;
      numSteps := 0;
      res := Ok(location);
    }

    /** `fib_disc_init`, given the radius the variant computes for the index
        (`CenterSweepRadius` or `EdgesSweepRadius`) and the golden-angle
        direction (cos θ, sin θ). */
    method FibDiscInit(r: real, dir: Vec) returns (res: Result<Vec>)
      requires Valid()
      modifies this`location
      ensures Valid()
      ensures var spec := Episode.FibDiscInit(config, sqrt, old(State()), r, dir);
        && (spec.Err? ==> res == Err(spec.error) && State() == old(State()))
        && (spec.Ok? ==> res == Ok(location) && State() == spec.value)
    {
      if AtGoal() {
        return Err(InvalidInitialization);
      }
      location := dir.Scale(r);
      res := Ok(location);
    }
  }
}
