# Navigation environments: a Dafny model

This project models the point-navigation environments of
`nav_to_center/env.py`. There are two variants. In both, positions are normalised by the variant's world scale.

- **NavToCenter**: the world scale is the world radius. The agent starts at a random point of the unit disc outside the goal disc, which is centred at the origin. It must reach the goal disc, whose normalised radius is the goal radius over the world radius.
- **NavToEdges**: the world scale is the goal radius. The agent starts at a random point whose squared normalised distance from the origin is drawn uniformly from [0, world radius / goal radius]. It is at the goal once that distance is at least 1. With a world radius larger than the goal radius, a random start may already be at the goal.

Each step:

- clips the action to length at most 1;
- divides it by the world scale and moves the agent by the result;
- ends the episode at the goal or once the step count exceeds `max_steps`;
- pays either a 0/1 goal reward (evaluation) or a shaped progress reward over the sparsity, with a bonus of 1 for ending at the goal (training).

A step after the episode has ended is an error. `reset` draws a new random placement. It fails when the bounds of its uniform draw are inverted. For NavToCenter that happens when the goal is wider than the world; for NavToEdges, when the world radius over the goal radius is negative. `fib_disc_init` places the agent on a golden-angle spiral for low-discrepancy evaluation.

Modules:

- `Geometry` (geometry.dfy): plane vectors, the norm of `get_norm` and the clip of `_take_action`.
- `Variants` (variants.dfy): the configuration and the two subclasses. It covers the world scale, the goal tests, the shaped rewards, the random placement and the spiral radii.
- `Episode` (episode.dfy): the episode lifecycle as functions on the per-episode state, with `Result` values for the three error paths. It has lemmas about stopping, rewards, the step budget, `reset` and `fib_disc_init`.
- `Env` (env.dfy): the `Navigation` class. Its fields `location`, `prevLocation`, `numSteps` and `stop` are updated in place by methods named after the source's methods. The action is an array that `TakeAction` rewrites in place, as the source does. Each method's postcondition ties the new state and the result to the `Episode` functions.

Numpy's square root is a parameter `sqrt` of every member that needs it. Only `IsSqrt(sqrt)` is assumed of it: for every non-negative `x`, `sqrt(x)` is non-negative and squares to `x`.

Three behaviours of the code are modelled as written:

- **`fib_disc_init` tests the old location.** Both variants test `_at_goal()` before they assign the new location. So the goal test looks at wherever the agent was, not at the point being placed. `Episode.FibDiscInitEffect` states this. `Episode.FibDiscInitMissesNewPoint` gives a concrete NavToEdges case where the call succeeds and leaves the agent at its goal.
- **NavToCenter's spiral can start inside the goal.** The sweep bounds are lo = ⌈n·g²⌉ and hi = ⌈n/(1 − g²)⌉, and index i gets squared radius (i + lo)/hi. For some g and n a placement lands inside the goal disc, and the old-location test above lets the call succeed.
  - `Episode.CenterSweepStartsInGoal`: for g = 1/2 and n = 10, lo = 3 and hi = 14, so index 0 gets 3/14, below g² = 1/4.
  - `Episode.CenterSweepCallerStartsInGoal` follows the pattern of the training script's evaluation loop (`nav_to_center/run.py`, lines 149-159). The loop computes lo and hi for N points and calls `fib_disc_init(i, hi)` starting from i = lo. With g = 0.7 and N = 100 the loop has lo = 49 and hi = 197. The method then recomputes its own bounds for n = 197 as (97, 387). So the first call places the agent at squared radius 146/387, below g² = 0.49.
- **NavToCenter's random placement can land on the goal boundary.** `rng.uniform(low, high)` can return `low`. A draw of exactly the squared goal fraction therefore puts the agent on the boundary of the goal disc, and `_at_goal` (`<=`) counts that as reached. `Variants.CenterResetAvoidsGoal` proves both halves. Any draw above the lower bound is outside the goal. The lowest draw is inside.

## Model

| member | source | states |
|---|---|---|
| `Geometry.Norm` | nav_to_center/env.py:15-16 | the norm is non-negative and its square is the sum of the squared components |
| `Geometry.ScalarNorm` | nav_to_center/env.py:15-16 | the norm of a single number (as applied to `location[0]`) is its absolute value |
| `Geometry.NormScale` | nav_to_center/env.py:15-16 | scaling a vector by k >= 0 scales its norm by k |
| `Geometry.Clip` | nav_to_center/env.py:65-67 | the clip of `_take_action`; what it guarantees is stated by `ClipSpec`, `ClipIdempotent` and `ClipScaleInvariant` |
| `Geometry.ClipSpec` | nav_to_center/env.py:65-67 | the clipped action has length at most 1; an action of length at most 1 is unchanged; a longer one becomes a unit vector that is a positive multiple of the action |
| `Geometry.ClipIdempotent` | nav_to_center/env.py:65-67 | clipping an already clipped action changes nothing |
| `Geometry.ClipScaleInvariant` | nav_to_center/env.py:65-67 | stretching an action longer than 1 by any factor >= 1 does not change the clipped result |
| `Variants.WorldScale` | nav_to_center/env.py:133 | the world radius for NavToCenter and the goal radius for NavToEdges (line 168); every normalised quantity below divides by it |
| `Variants.Truncate` | nav_to_center/env.py:43 | Python's `int` of a float: the integer nearest to x between x and 0 (floor for x >= 0, ceiling for x < 0) |
| `Variants.MaxSteps` | nav_to_center/env.py:43 | the step budget is `Truncate` of world scale times `max_step_scale`; `StepTermination` and `BudgetExhaustion` state its effect |
| `Variants.GoalFraction` | nav_to_center/env.py:142 | the goal radius over the world scale, the normalised goal radius of NavToCenter; `AtGoalSquared` and `CenterResetAvoidsGoal` use it |
| `Variants.AtGoal` | nav_to_center/env.py:141-142 | `_at_goal` of both variants (NavToEdges at lines 180-181); `AtGoalSquared` characterises it without a square root |
| `Variants.AtGoalSquared` | nav_to_center/env.py:141-142 | NavToCenter is at the goal iff the goal fraction is non-negative and the squared distance is at most its square; NavToEdges (lines 180-181) is at the goal iff the squared distance is at least 1 |
| `Variants.ShapedReward` | nav_to_center/env.py:136-139 | `_get_shaped_reward` of both variants (NavToEdges at lines 171-178); its sign and value are stated by the three reward-sign lemmas |
| `Variants.CenterRewardSign` | nav_to_center/env.py:136-139 | with a positive world scale the NavToCenter shaped reward is positive iff the agent got nearer the origin and negative iff it got farther away |
| `Variants.EdgesRewardSign` | nav_to_center/env.py:171-178 | unbiased NavToEdges shaped reward is positive iff the agent moved outward and negative iff it moved inward |
| `Variants.BiasedRewardSign` | nav_to_center/env.py:171-178 | biased NavToEdges shaped reward is the change in the absolute first coordinate times the scale, positive iff that grew and negative iff it shrank |
| `Variants.DrawBounds` | nav_to_center/env.py:149 | the bounds `rng.uniform` is given: (g², 1) for NavToCenter and (0, world radius / goal radius) for NavToEdges (line 188) |
| `Variants.OrderedBounds` | nav_to_center/env.py:149 | `rng.uniform` of a numpy Generator accepts the bounds only when the low one is not above the high one; `ResetFailure` states when that fails |
| `Variants.UniformDraw` | nav_to_center/env.py:149 | a value the draw between ordered bounds can return |
| `Variants.DrawNonNegative` | nav_to_center/env.py:149 | every draw between the variant's bounds is non-negative, so its square root is defined |
| `Variants.ResetLocation` | nav_to_center/env.py:147-150 | the placement `radius * u / norm` of both variants (lines 186-189); `ResetLocationSqNorm` states where it lies |
| `Variants.ResetLocationSqNorm` | nav_to_center/env.py:144-151 | the random placement lies at squared distance `draw` from the origin and is a non-negative multiple of the normal sample |
| `Variants.CenterResetAvoidsGoal` | nav_to_center/env.py:144-151 | a NavToCenter draw above the squared goal fraction places the agent outside the goal; the lowest draw places it on the goal boundary, which counts as reached |
| `Variants.EdgesResetAtGoal` | nav_to_center/env.py:183-191 | a NavToEdges placement is at the goal exactly when the draw is at least 1 |
| `Variants.Ceil` | nav_to_center/env.py:156-157 | `int(np.ceil(x))` is the least integer not below x |
| `Variants.SweepRatio` | nav_to_center/env.py:155 | NavToCenter's `g_rad`, the goal radius over the world radius |
| `Variants.CenterSweepBounds` | nav_to_center/env.py:155-157 | NavToCenter's `lo` and `hi`; `CenterSweepStartsInGoal` computes them for a concrete case |
| `Variants.CenterSweepRadius` | nav_to_center/env.py:158 | NavToCenter's spiral radius `sqrt((i + lo) / hi)`; `CenterSweepRadiusSquared` and `CenterSweepMonotone` state its properties |
| `Variants.EdgesSweepRadius` | nav_to_center/env.py:195 | NavToEdges' spiral radius `sqrt(i / n) * world_radius / world_scale`; `EdgesSweepRadiusSquared` and `EdgesSweepMonotone` state its properties |
| `Variants.CenterSweepRadiusSquared` | nav_to_center/env.py:158 | the square of NavToCenter's spiral radius is (i + lo) / hi |
| `Variants.EdgesSweepRadiusSquared` | nav_to_center/env.py:195 | the square of NavToEdges' spiral radius is (i / n) times (world radius / goal radius)² |
| `Variants.CenterSweepMonotone` | nav_to_center/env.py:153-158 | NavToCenter's spiral radius `sqrt((i + lo) / hi)` is defined and does not decrease as the index grows |
| `Variants.EdgesSweepMonotone` | nav_to_center/env.py:193-195 | NavToEdges' spiral radius `sqrt(i / n) * world_radius / world_scale` is defined and does not decrease as the index grows |
| `Episode.Displacement` | nav_to_center/env.py:65-68 | the clipped action over the world scale; `DisplacementBounded` and `DisplacementScaleInvariant` state its properties |
| `Episode.DisplacementBounded` | nav_to_center/env.py:65-69 | one step moves the agent at most 1 / world scale; an action of length at most 1 moves it by exactly the action over the world scale |
| `Episode.DisplacementScaleInvariant` | nav_to_center/env.py:65-69 | actions longer than 1 that point the same way move the agent to the same place |
| `Episode.Terminated` | nav_to_center/env.py:81 | the end-of-episode condition; `StepTermination` states what it means after a step |
| `Episode.Reward` | nav_to_center/env.py:86-96 | the reward of both modes; `StepReward` states it per step |
| `Episode.GetStepResult` | nav_to_center/env.py:74-97 | `_get_step_result` on values; `StopNeverCleared` and `StepTermination` state its effect on `stop` |
| `Episode.Step` | nav_to_center/env.py:99-107 | `step` on values; `StepAfterStop`, `StepEffect`, `StepTermination`, `StepReward` and `DoneIsFinal` state what it does |
| `Episode.Reset` | nav_to_center/env.py:109-113 | `reset` on values, with the draw-bounds error; `ResetFailure` and `ResetEffect` state what it does |
| `Episode.FibDiscInit` | nav_to_center/env.py:153-162 | `fib_disc_init` of both variants (NavToEdges at lines 193-199) for a given radius and direction; `FibDiscInitEffect` states what it does |
| `Episode.Rollout` | nav_to_center/env.py:99-107 | feeding a sequence of actions to `step` yields one result per action |
| `Episode.StepAfterStop` | nav_to_center/env.py:100-101 | once `stop` is set, `step` fails |
| `Episode.StepEffect` | nav_to_center/env.py:99-107 | a step before the stop succeeds; it adds one to the step count, saves the old location as the previous one and moves by the displacement; it reports the new location, the new `stop` and the goal test of the new location |
| `Episode.StepTermination` | nav_to_center/env.py:81-82 | a step reports done iff the new location is at the goal or the incremented step count exceeds `max_steps` |
| `Episode.StopNeverCleared` | nav_to_center/env.py:81-82 | `_get_step_result` can only set `stop`, never clear it, and changes no other field |
| `Episode.StepReward` | nav_to_center/env.py:86-96 | evaluation reward is 1 at the goal and 0 elsewhere; training reward is the shaped reward over the sparsity, plus 1 exactly when the step ends the episode at the goal |
| `Episode.DoneIsFinal` | nav_to_center/env.py:99-107 | after a step reports done, the next step fails |
| `Episode.RolloutAfterStop` | nav_to_center/env.py:100-101 | every step of a rollout from a stopped state fails |
| `Episode.BudgetExhaustion` | nav_to_center/env.py:81-82 | from a running episode that never reaches the goal, every step succeeds and only the step that takes the count past `max_steps` reports done |
| `Episode.ResetThenBudget` | nav_to_center/env.py:109-113 | after a successful `reset`, an agent that never reaches the goal is done exactly on step `max_steps + 1` |
| `Episode.ResetFailure` | nav_to_center/env.py:149 | `reset` fails with the draw-bounds error exactly when NavToCenter's squared goal fraction exceeds 1, or NavToEdges' world radius over goal radius (line 188) is negative |
| `Episode.ResetEffect` | nav_to_center/env.py:109-113 | a successful `reset` clears the step count and `stop`, sets the previous location to the new one and places the agent at squared distance `draw` along the normal sample; for NavToCenter that is outside the goal when the draw exceeds its lower bound; for NavToEdges it is at the goal iff the draw is at least 1 |
| `Episode.FibDiscInitEffect` | nav_to_center/env.py:153-162 | `fib_disc_init` fails iff the agent is at the goal before the new point is placed; otherwise the new location is r times the unit direction (at squared distance r²) and nothing else changes |
| `Episode.CenterSweepPlacement` | nav_to_center/env.py:153-162 | away from the goal, NavToCenter's `fib_disc_init` for index i of n succeeds and places the agent at squared distance (i + lo) / hi |
| `Episode.EdgesSweepPlacement` | nav_to_center/env.py:193-199 | away from the goal, NavToEdges' `fib_disc_init` for index i of n succeeds and places the agent at squared distance (i / n)·(world radius / goal radius)², which is at the goal iff that is at least 1 |
| `Episode.CenterSweepStartsInGoal` | nav_to_center/env.py:153-162 | with goal radius 1, world radius 2 and n = 10, the bounds are lo = 3 and hi = 14, and index 0 is placed inside the goal without an error |
| `Episode.CenterSweepCallerStartsInGoal` | nav_to_center/run.py:149-159 | in the evaluation loop's pattern (goal radius 0.7, world radius 1, N = 100), the loop's bounds are (49, 197), `fib_disc_init(49, 197)` recomputes (97, 387), and the first call places the agent inside the goal without an error |
| `Episode.FibDiscInitMissesNewPoint` | nav_to_center/env.py:193-199 | a concrete NavToEdges call that succeeds and leaves the agent at its goal, because the test looks at the old location |
| `Env.Navigation.constructor` | nav_to_center/env.py:24-54 | the environment stores its configuration, fixes `max_steps` from the world scale and `max_step_scale`, and starts at the origin with a zero count and `stop` cleared |
| `Env.Navigation.AtGoal` | nav_to_center/env.py:141-142 | `_at_goal` on the object's current location (NavToEdges at lines 180-181) |
| `Env.Navigation.ShapedReward` | nav_to_center/env.py:136-139 | `_get_shaped_reward` on the object's current and previous locations (NavToEdges at lines 171-178) |
| `Env.Navigation.TakeAction` | nav_to_center/env.py:56-69 | the action array is overwritten with the displacement (clipped, then divided by the world scale), and the location moves by it |
| `Env.Navigation.GetStepResult` | nav_to_center/env.py:74-97 | the new `stop` and the returned observation, reward, done flag and goal test are those of `Episode.GetStepResult` |
| `Env.Navigation.Step` | nav_to_center/env.py:99-107 | after the stop it fails and changes neither the state nor the action; otherwise the new state and the result are those of `Episode.Step`, and the action array holds the displacement |
| `Env.Navigation.ResetLocation` | nav_to_center/env.py:144-151 | on inverted bounds it reports failure and changes nothing; otherwise the location becomes the random placement and the previous location a copy of it (the same for NavToEdges, lines 183-191) |
| `Env.Navigation.Reset` | nav_to_center/env.py:109-113 | fails and leaves the state alone when `Episode.Reset` fails; otherwise the state becomes its result and the new location is returned |
| `Env.Navigation.FibDiscInit` | nav_to_center/env.py:153-162 | fails and leaves the state alone when `Episode.FibDiscInit` fails; otherwise the state becomes its result and the new location is returned (the same for NavToEdges, lines 193-199) |

## Left out

- Floating point: every quantity is an exact real. IEEE rounding, overflow, inf and nan, and the `float32` observation space are not modelled.
- Division by zero: the model requires `Divisible(config)` instead of modelling these failures. It means the world scale is non-zero, and so is the sparsity when not in evaluation mode. Without it:
  - the numpy divisions `action /= self.world_scale` (line 68) and `/ self.sparsity` (line 94) would give inf/nan;
  - the Python float divisions `goal_radius / world_scale` (lines 142 and 149) and `world_radius / world_scale` (line 188) would raise `ZeroDivisionError`.
- The square root is a parameter that satisfies `IsSqrt`, not numpy's `np.sqrt`.
- Randomness: the module-level `rng` is not modelled.
  - The normal sample `u` (assumed non-zero) and the uniform draw of the squared radius are parameters of `Reset` and `ResetLocation`.
  - UniformDraw: the draw is allowed anywhere in the closed interval between the bounds. numpy's documented interval is half-open, so the model also admits the upper bound.
- `fib_disc_init`:
  - `GOLDEN_RATIO`, `GOLDEN_ANGLE`, `np.cos` and `np.sin` are not modelled.
  - `Env.Navigation.FibDiscInit` takes the radius `r` and the direction `(cos θ, sin θ)` as parameters.
  - The radii the two variants compute from `i` and `n` are modelled separately, as `CenterSweepBounds`, `CenterSweepRadius` and `EdgesSweepRadius`. `CenterSweepPlacement` and `EdgesSweepPlacement` connect them to `FibDiscInit`.
- CenterSweepBounds requires g² ≠ 1, where `n / (1 - g_rad ** 2)` would raise `ZeroDivisionError`. It also requires a non-zero world radius, where `goal_radius / world_radius` raises.
- CenterSweepRadius requires `hi` ≠ 0 and a non-negative quotient. The source would raise `ZeroDivisionError` for `hi` = 0, and `np.sqrt` would return nan for a negative quotient.
- EdgesSweepRadius requires `n` ≠ 0 and a non-negative quotient. The source would raise `ZeroDivisionError` for `n` = 0 (`i / n` on Python integers), and `np.sqrt` would return nan for a negative quotient.
- Aliasing: `get_observation` returns the location array itself, so a caller holding an old observation sees later in-place updates (`+=` in `_take_action`). The model returns the location as a value.
- TakeAction and Step assume the action array is not the environment's own location array. In the source, `env.step(env.reset())` passes `self.location` as the action. Lines 67-68 then divide the location in place, and line 69 adds it to itself, giving 2·Clip(L)/world scale instead of L + Clip(L)/world scale. The model keeps the action array separate from the location value, so it does not capture this.
- The action-type and shape assertions of `_take_action` (lines 57-64), and the printing before re-raising, are replaced by the precondition that the action array has length 2.
- The `info` dictionary is reduced to its one `at_goal` entry (the `atGoal` field of `StepResult`).
- `cosine_similarity` is left out because no code path calls it; its use in `_get_step_result` is commented out.
- `gym.Env` and `spaces.Box` are left out: the spaces only describe shapes and bounds and are never checked here.
- The `__init__` keyword-argument plumbing is reduced to the `Config` datatype.
- The training scripts and the other modules of the repository are not part of this model. The one exception is the evaluation loop's choice of `fib_disc_init` arguments, which `CenterSweepCallerStartsInGoal` follows.
