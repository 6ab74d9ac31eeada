# Pinus taeda stand as a discrete decision process — Dafny model

This project models `rodal/envs/rodal.py`. That file is a reinforcement-learning environment
for one even-aged Pinus taeda stand. The environment keeps a discrete observation: a
basal-area class (6 m²/ha wide) and an age class (5 years wide). Each step takes one of four
actions: 0 do nothing, 1 thin 15% of the basal area, 2 thin 30%, 3 harvest. A step decodes the
observation to class marks. It forces a harvest at the maximum rotation age of 30. Then it
thins, grows the stand for one five-year period and computes the reward (the volume removed),
or it harvests and ends the episode. Finally it re-encodes and stores the observation.

Modules, leaf first:

- `Site` (site.dfy): the constants of rodal.py lines 7-15.
- `Outcome` (outcome.dfy): the Python exceptions the code can raise, and a `Result` type.
- `Growth` (growth.dfy): the three regression formulas, kept uninterpreted. They sit in a
  `Biometrics` value of positive-valued functions, because every formula is `exp` of
  something. Each formula is guarded by the condition under which Python evaluates it without
  raising: a division by an age of 0 raises `ZeroDivisionError`, and `math.log` of a
  non-positive number raises `ValueError`.
- `Discretizer` (discretizer.dfy): the encoding of basal area to a class (`floor(G/6)`), the
  decoding to the class midpoint (`6i+3`), the encoding of age (`int(E/5 - 1)`, truncated
  toward zero), and the decoding to the class upper bound (`5i+5`).
- `Transition` (transition.dfy): `actualizar_estado` as a method with the source's `for` loop,
  proved against the function `Advanced`; and `calcular_recompensa` as a method proved against
  the function `Reward`.
- `Episode` (episode.dfy): the class `PtDiscreto6x5`, whose only state is the field
  `observation`. It has a constructor, `Reset` and `Step`, and `StepSpec` specifies one step.
  The lemmas cover the step cases, the forced harvest, the invariant on stored observations
  and the six-step horizon.

Behaviour of the code worth noting, which the model keeps:

- Age advance: the growth loop reuses the name `edad` as its loop variable. After the loop,
  `edad` holds the last year of the period, so `actualizar_estado` returns the original age + 5
  (`RCE`), not the original age + 1. A step therefore always moves to the next age class.
  `AdvanceStand` keeps this rebinding explicit.
- No clamping: age class -1 (the terminal observation `(0, -1)`) and basal-area classes of 10
  or more are stored as they are, outside the declared `Discrete(10) × Discrete(6)` space.
- Stepping after the episode ended is defined by the code: from `(g, -1)` the decoded age is
  0. Action 0 grows the stand back to age class 0. Actions 1-3 raise `ZeroDivisionError` in
  `calcular_V` (`StepAfterDone`).

## Model

| member | source | states |
|---|---|---|
| `Growth.InitialBasalArea` | rodal/envs/rodal.py:18-19 | `crecer_GEI` is defined exactly for a positive planting density, raises a log-domain error otherwise, and is positive |
| `Growth.AnnualGrowth` | rodal/envs/rodal.py:22-23 | `crecer_G2` raises division by zero for ending age 0, a log-domain error for a non-positive starting basal area, and otherwise gives a positive basal area |
| `Growth.Volume` | rodal/envs/rodal.py:25-26 | `calcular_V` raises division by zero for age 0, a log-domain error for a non-positive basal area, and otherwise gives a positive volume |
| `Discretizer.Trunc` | rodal/envs/rodal.py:35 | Python `int()` on a float truncates toward zero: the result is the integer between 0 and x that lies within distance 1 of x |
| `Discretizer.BasalAreaClass` | rodal/envs/rodal.py:28-29 | the class index k satisfies k ≤ G/width < k+1 |
| `Discretizer.AgeClass` | rodal/envs/rodal.py:34-35 | for ages of at least one width, the age lies between the marks of class k and k+1; ages strictly between 0 and one width fall into class 0; age 0 gives class -1 |
| `Discretizer.BasalAreaMark` | rodal/envs/rodal.py:31-32 | `calcular_mc_G`, the class midpoint i·width + width/2; it has no contract of its own, and its meaning is fixed by `BasalAreaRoundTrip` and `BasalAreaNearMark` |
| `Discretizer.BasalAreaRoundTrip` | rodal/envs/rodal.py:28-32 | encoding the midpoint of basal-area class i gives back i, for every integer i |
| `Discretizer.BasalAreaNearMark` | rodal/envs/rodal.py:28-32 | every basal area lies within half a class width of the midpoint of its class |
| `Discretizer.AgeMark` | rodal/envs/rodal.py:37-38 | `calcular_mc_E`, the class upper bound i·width + width; it has no contract of its own, and its meaning is fixed by `AgeRoundTrip` |
| `Discretizer.AgeRoundTrip` | rodal/envs/rodal.py:34-38 | encoding the upper-bound mark of age class i gives back i, for every integer i, including the terminal -1 |
| `Transition.Retained` | rodal/envs/rodal.py:41-44 | the fraction of basal area left before growth (0.85 for action 1, 0.70 for action 2, 1 otherwise); it has no contract of its own, and its meaning is fixed by `ThinningThenGrowth` |
| `Transition.Grown` | rodal/envs/rodal.py:45-46 | repeated annual growth fails only with division by zero or a log-domain error, and any period of at least one year ends with a positive basal area |
| `Transition.GrownOkIff` | rodal/envs/rodal.py:45-46 | a growth period raises nothing if and only if it is empty, or the starting basal area is positive and no call has ending age 0 |
| `Transition.GrownStaysFailed` | rodal/envs/rodal.py:45-46 | once a growth call has raised, the remaining years change nothing, so the period's fault is the first call's |
| `Transition.GrownFirstYear` | rodal/envs/rodal.py:45-46 | the calls run in increasing order of ending age: the period is the call ending at age+1, then the rest of the period from age+1 |
| `Transition.Advanced` | rodal/envs/rodal.py:40-47 | a decision period fails only with the growth formula's faults, and leaves a positive basal area |
| `Transition.AdvanceStand` | rodal/envs/rodal.py:40-47 | the loop computes exactly `Advanced`: thinning, then AgeClassWidth annual calls with ending ages age+1 .. age+5; the returned age is age + 5 |
| `Transition.AdvancedOk` | rodal/envs/rodal.py:40-47 | from a positive basal area at a non-negative age, a decision period never raises |
| `Transition.ThinningThenGrowth` | rodal/envs/rodal.py:41-44 | actions 1 and 2 scale basal area by 0.85 and 0.70 before growth; action 3 (like 0) leaves it unchanged |
| `Transition.Reward` | rodal/envs/rodal.py:49-59 | the reward is defined exactly for a non-zero age, a positive basal area and actions 1-3; any other action with a defined volume reads the unassigned volume (`UnboundLocalError`); it never fails the action assertion |
| `Transition.ComputeReward` | rodal/envs/rodal.py:49-59 | the imperative reward computation returns exactly `Reward` |
| `Transition.RewardRules` | rodal/envs/rodal.py:49-59 | harvest earns `calcular_V(age, G)`; thinning earns `calcular_V(age, G) - calcular_V(age, f·G)` with f = 0.85 or 0.70; action 0 raises `UnboundLocalError` |
| `Transition.ThinningRewardNonNegative` | rodal/envs/rodal.py:49-56 | if the volume formula is non-decreasing in basal area, a thinning reward is never negative |
| `Episode.SetObservation` | rodal/envs/rodal.py:129-130 | `set_observation`, pairing the basal-area class and the age class; it has no contract of its own, and its meaning is fixed by `ObservationRoundTrip` and `SetObservationUnclamped` |
| `Episode.GetObservation` | rodal/envs/rodal.py:132-133 | `get_observation`, pairing the two class marks; it has no contract of its own, and its meaning is fixed by `ObservationRoundTrip` |
| `Episode.InitialObservation` | rodal/envs/rodal.py:104-108 | for every allowed planting density, the initial observation has age class 0 and a non-negative basal-area class |
| `Episode.StepSpec` | rodal/envs/rodal.py:110-127 | a step fails the assertion exactly for actions outside 0..3; it never raises `UnboundLocalError` (the reward rule is never reached with action 0); a step that ends the episode stores `(0, -1)` |
| `Episode.PtDiscreto6x5.constructor` | rodal/envs/rodal.py:93-98 | construction ends with a reset: the stored observation is the initial observation of the drawn density |
| `Episode.PtDiscreto6x5.Reset` | rodal/envs/rodal.py:104-108 | stores and returns the initial observation for the drawn density; its age class is 0 |
| `Episode.PtDiscreto6x5.Step` | rodal/envs/rodal.py:110-127 | returns `StepSpec` of the old observation; on success it stores the new observation, and on any failure (assertion or raising formula) it leaves the observation unchanged; it keeps the valid-observation invariant |
| `Episode.ObservationRoundTrip` | rodal/envs/rodal.py:129-133 | `set_observation(get_observation(o)) == o` for every observation |
| `Episode.SetObservationUnclamped` | rodal/envs/rodal.py:129-130 | a basal area of 60 m²/ha or more is encoded to class 10 or more, beyond the declared `Discrete(10)` |
| `Episode.NonHarvestStep` | rodal/envs/rodal.py:112-121 | with action 0, 1 or 2 at age class e < 5: no fault, `done == False`, new age class e+1, non-negative basal-area class; reward 0 for action 0 and the thinned volume for actions 1 and 2 |
| `Episode.NextPeriod` | rodal/envs/rodal.py:117 | growing a decoded observation of age class e < 5 succeeds and is encoded in age class e+1 |
| `Episode.HarvestStep` | rodal/envs/rodal.py:122-126 | a requested or forced harvest at age class 0..5 ends the episode with the full standing volume as reward and stores `(0, -1)` |
| `Episode.ForcedHarvest` | rodal/envs/rodal.py:113 | at age class 5 the decoded age is 30, and every valid action gives the harvest outcome with reward `calcular_V(30, G)` |
| `Episode.StepAfterDone` | rodal/envs/rodal.py:112-125 | from the terminal age class -1, action 0 restarts growth into age class 0 with reward 0; actions 1-3 raise division by zero |
| `Episode.OverrideExactlyAtMaxAge` | rodal/envs/rodal.py:113-126 | for a valid observation, every valid action behaves as harvest if and only if the age class is 5 |
| `Episode.StepKeepsValid` | rodal/envs/rodal.py:110-130 | a successful step from a valid observation (basal-area class ≥ 0, age class in -1..5) stores a valid observation |
| `Episode.EndsWithinRemainingClasses` | rodal/envs/rodal.py:110-127 | from age class e, any 6 − e valid actions end the episode with no step raising |
| `Episode.EpisodeHorizon` | rodal/envs/rodal.py:104-127 | after reset, any six valid actions end the episode at the sixth step or before |
| `Episode.IdleStandStaysOpen` | rodal/envs/rodal.py:113-121 | runs of action 0 that stay below age class 5 never end the episode |
| `Episode.EpisodeHorizonIsTight` | rodal/envs/rodal.py:104-121 | after reset, five no-actions leave the episode open, so the six-step bound is reached |

## Left out

- The exp/log numerics of `crecer_GEI`, `crecer_G2` and `calcular_V` (rodal.py:18-26). They are uninterpreted positive functions of age and basal area, with the site index, survival and initial age fixed.
- Floating point: basal areas are exact reals. The thinning factors `1 - 0.15` and `1 - 0.30` are exact. Rounding of the products, and `exp` overflow (`OverflowError`) or underflow to 0.0, are not modelled.
- Drawing the planting density with `np_random.choice` (rodal.py:105) is random and external. `Reset` and the constructor take the drawn density as a parameter that must be one of the five listed values.
- `seed`, `render`, `metadata`, the `gym.Env` base class and the construction of `spaces.Discrete` / `spaces.Tuple` (rodal.py:2-4, 91-102, 135) are framework plumbing. The only part used is `action_space.contains`, modelled as the integer test 0 ≤ action < 4. Non-integer action values are not modelled.
- The empty info mapping returned by `step` (rodal.py:127) has no content.
- The `observation = None` state before the first reset is never visible, because the constructor resets at once.
- Transition.ThinningRewardNonNegative: states non-negativity only under the assumption that the volume formula is non-decreasing in basal area; the formulas themselves are not modelled, so this is not proved about them.
