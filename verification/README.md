# Bayesian theory-of-mind teacher: inference engine

This project models the inference engine of the gridworld teacher. The teacher
watches a learner move through a MiniGrid-style map. It keeps a joint
posterior over two unknowns: the learner's goal colour and the learner's
receptive field (the side of its square egocentric window). Each step has two
parts:

- `update_knowledge`: the learner moved. For every hypothesised receptive
  field, the teacher rewrites what that learner now knows of the map (a grid
  of one-hot category vectors). It recomputes the distance fields of pursuits
  in progress whenever a cell changed.
- `observe`: the learner acted. Every hypothesis (goal colour, receptive
  field) predicts the learner's action distribution with the learner-policy
  state machine. The teacher multiplies each hypothesis weight by the
  probability it gave the observed action, then renormalises.

Two teachers are covered by one `Teacher` record with a `Variant` tag:

- `BayesianTeacher` (`Base`).
- Its rational subclass `RationalBayesianTeacher` (`Rational`). It honours the
  visibility mask, measures greedy distances relative to the learner's own
  cell, can update a single receptive field, has `init_env`, and chooses
  demonstrations by expected utility.

Two further pieces are modelled. `add_actions` of the A* teacher turns a
planned transition into turn and forward actions. The utility/argmax part of
`select_demo` scores candidate demonstrations.

Modules, in dependency order:

- `Wrappers`: `Option`, `Result`.
- `Geometry`: cells, the four directions, and window projection.
- `Encoding`: one-hot cell encoding.
- `Probability`: sums, normalisation, Hadamard products, argmax.
- `BeliefGrid`: the per-receptive-field belief grid and its update, the
  obstacle grid and target search.
- `LearnerPolicy`: exploration, greedy and the priority-ordered learner
  policy.
- `Teacher`: initial state, `update_knowledge`, `observe`, and the prior
  finding.
- `DemoSelection`: goal-colour prediction and demonstration utilities.
- `AddActions`: the action queue for a path transition.

Directions follow MiniGrid: 0 faces +x, 1 faces +y, 2 faces -x, 3 faces -y.
Category vectors have length 2+2C. Index 0 is empty (or the learner itself),
1 is a wall, 2+2(c-1) is the door of colour c and 2+2(c-1)+1 is its key.

## Model

| member | source | states |
|---|---|---|
| Geometry.ProjectSelfAndFront | gridworld_setup/bayesian_teacher.py:80-99 | Window cell (R//2, R-1) is the learner's own cell and (R//2, R-2) is the cell straight ahead, in every direction |
| Geometry.ProjectInjective | gridworld_setup/bayesian_teacher.py:80-99 | Distinct window coordinates land on distinct grid cells, so no cell is written twice in one update |
| Geometry.UnprojectProject | gridworld_setup/bayesian_teacher.py:80-99 | Window-to-grid projection has a left inverse that recovers the window coordinates |
| Geometry.ProjectUnproject | gridworld_setup/bayesian_teacher.py:80-99 | Projecting the window coordinates that the inverse assigns to a grid cell gives that cell back, so projection is a bijection between window coordinates and grid cells |
| Geometry.FrontOffset | gridworld_setup/bayesian_teacher.py:190-202 | The offset `obj_in_front` inspects is the direction vector for a proper direction and (0,0) otherwise |
| Geometry.InteriorNeighbours | gridworld_setup/bayesian_teacher.py:194-202 | From a cell inside the border walls every neighbour is on the grid, so the cell ahead can be read |
| Encoding.EncodeCell | gridworld_setup/bayesian_teacher.py:101-117 | The encoding has length 2+2C and exactly one entry equal to 1: 0 for the learner's own cell, 2+2(c-1) for a door of colour c, 2+2(c-1)+1 for its key, 1 for a wall, 0 for anything else; every other entry is 0 |
| Encoding.Category | gridworld_setup/bayesian_teacher.py:101-117 | The category index is always inside the vector |
| Encoding.EncodeSeparatesObjects | gridworld_setup/bayesian_teacher.py:101-117 | For properly coloured objects two cells encode alike exactly when they are the same kind of thing (same door colour, same key colour, both walls, or both empty) |
| BeliefGrid.UpdateLearnerBelief | gridworld_setup/bayesian_ToM/rational_bayesian_teacher.py:98-134 | The window walk in source order yields the reference update: every visible, in-bounds, unmasked cell holds its encoded observation, every other cell is unchanged, and `new_cells` equals the number of cells whose vector differs afterwards |
| BeliefGrid.NoChangeMeansEqual | gridworld_setup/bayesian_teacher.py:124 | No changed cell is the same as an unchanged grid, so `new_cells > 0` exactly when the knowledge changed |
| BeliefGrid.ChangedCellsMembers | gridworld_setup/bayesian_teacher.py:119-121 | A cell counts as changed exactly when it is on the grid and its vector differs |
| BeliefGrid.FullMask | gridworld_setup/bayesian_teacher.py:90-99 | The base teacher's window hides nothing: every window cell is visible |
| BeliefGrid.ObstaclesAround | gridworld_setup/bayesian_teacher.py:204-207 | A cell blocks the search exactly when it is not known to be empty and is not a target cell |
| BeliefGrid.CellsWith | gridworld_setup/bayesian_teacher.py:210 | The cells believed to hold a category are exactly the on-grid cells whose entry is 1, each once, in row-major order |
| LearnerPolicy.PointMass | gridworld_setup/bayesian_teacher.py:226-229 | A point mass is a distribution with all its mass on one action |
| LearnerPolicy.ObjInFrontIsTarget | gridworld_setup/bayesian_teacher.py:190-202 | `obj_in_front` reports category idx exactly when the cell ahead is among the cells believed to hold idx, the targets the path search uses; so an object in front is always a known one |
| LearnerPolicy.Exploration | gridworld_setup/bayesian_teacher.py:135-150 | If the cell ahead is known empty or holds this colour's key the distribution is 1/3 on left, right and forward; otherwise 1/2 on left and right; actions 3-5 always get 0 |
| LearnerPolicy.Greedy | gridworld_setup/bayesian_ToM/rational_bayesian_teacher.py:180-233 | Both turns share the U-turn cell. With a positive weight the result is a distribution, positive on left, right and forward and zero on pickup, drop and toggle |
| LearnerPolicy.TurnWeightsPositive | gridworld_setup/bayesian_teacher.py:165-184 | Before normalisation the action weights are non-negative with a positive total, so the division is defined |
| LearnerPolicy.BaselineCancels | gridworld_setup/bayesian_ToM/rational_bayesian_teacher.py:181-227 | With an exponential-like weight, subtracting the learner's own distance leaves the greedy distribution unchanged, so base and rational teachers predict the same greedy policy |
| LearnerPolicy.Pursue | gridworld_setup/bayesian_teacher.py:292-303 | Greedy towards the key while heading for it, else greedy towards the door while heading for it, else exploration; progress unchanged |
| LearnerPolicy.Policy | gridworld_setup/bayesian_teacher.py:224-303 | The result is a distribution. At step 0 it is a point mass on action 4 and nothing changes. A key ahead gives a point mass on pickup, with the key marked held and its pursuit ended. A door ahead with the key held gives a point mass on toggle, with the door pursuit ended. Pickup, drop and toggle get mass only in those cases. "Key held" becomes true only by a pickup, and "held ⇒ not heading for the key" is preserved. When nothing ahead is acted on and no commitment fires (object unknown, already pursued, or no path), the decision is the pursuit in progress or exploration, with the flags unchanged |
| LearnerPolicy.UnreachableKeyDefers | gridworld_setup/bayesian_teacher.py:250-303 | A known, unheld, unpursued key with no path defers every commitment: the door branch is skipped even if the door is reachable, and the decision is the pursuit in progress or exploration with the flags unchanged |
| LearnerPolicy.CommitThenPursue | gridworld_setup/bayesian_teacher.py:250-303 | After committing to the key or the door, the recursive call commits to nothing more and returns the pursuit's answer: greedy towards the objective just chosen |
| Teacher.RfValuesFor | gridworld_setup/bayesian_ToM/rational_bayesian_teacher.py:50-55 | The receptive fields are the given ones, followed by the grid size when the full-grid field is added |
| Teacher.UniformPrior | gridworld_setup/bayesian_teacher.py:34 | The base prior is a distribution with equal weight on every hypothesis |
| Teacher.BaseInit | gridworld_setup/bayesian_teacher.py:15-45 | The initial state has a uniform prior that is a distribution, learners knowing nothing (every entry 1/(2+2C)), every flag cleared with no distance field computed, step count -1 |
| Teacher.InitEnv | gridworld_setup/bayesian_ToM/rational_bayesian_teacher.py:47-81 | A new map recomputes the receptive fields (the full-grid one follows the new size), makes every learner ignorant, clears every flag and distance field, resets the step count to -1, and keeps the posterior |
| Teacher.RationalInit | gridworld_setup/bayesian_ToM/rational_bayesian_teacher.py:19-45 | Corrected constructor: the prior is uniform over every tracked hypothesis and sums to 1; the rest is `InitEnv` |
| Teacher.AsWrittenPriorSum | gridworld_setup/bayesian_ToM/rational_bayesian_teacher.py:36-41 | The prior as written sums to (n+1)/n with the full-grid field and to 1 without it; it is a distribution exactly when the full-grid field is not added |
| Teacher.DefaultPriorTotal | gridworld_setup/bayesian_ToM/rational_bayesian_teacher.py:22-41 | With the default four colours and fields 3, 5, 7 plus the full grid, the prior as written totals 4/3 |
| Teacher.AsWrittenIsScaled | gridworld_setup/bayesian_ToM/rational_bayesian_teacher.py:36-41 | The prior as written is the uniform prior times num_rf/n |
| Teacher.AsWrittenPriorWashesOut | gridworld_setup/bayesian_ToM/rational_bayesian_teacher.py:36-41 | Observing from the prior as written gives exactly the same outcome as observing from the uniform prior |
| Teacher.Refresh | gridworld_setup/bayesian_ToM/rational_bayesian_teacher.py:136-148 | While heading for the key that is not yet held, the key distance field is recomputed on the new grid and the door field kept. Otherwise, while heading for the door, the door field is recomputed and the key field kept. With no pursuit nothing changes. The flags are never touched and "held ⇒ not heading for the key" is kept |
| Teacher.RefreshServesPursuit | gridworld_setup/bayesian_ToM/rational_bayesian_teacher.py:136-148 | Under the key-held invariant, the field recomputed is the one the greedy policy of the pursuit in progress reads next (key field while heading for the key, else door field while heading for the door) |
| Teacher.UpdateKnowledge | gridworld_setup/bayesian_ToM/rational_bayesian_teacher.py:375-392 | Fails exactly when the step does not follow the counter. On success: the counter equals the step, the pose is recorded, each selected receptive field gets the reference update, unselected ones are unchanged, a hypothesis's distance field is refreshed only when its grid changed, nothing else changes, and the flag invariant is kept |
| Teacher.Observe | gridworld_setup/bayesian_teacher.py:315-331 | Fails exactly when the evidence Σ prior·likelihood is 0. Otherwise the new posterior is a distribution, each entry is prior·likelihood/evidence, hypotheses that ruled the action out get 0, each hypothesis's progress is what its own policy call left, and nothing else changes |
| Teacher.FirstObservation | gridworld_setup/bayesian_ToM/rational_bayesian_teacher.py:281-284 | At step 0 any action but 4 has zero evidence. Action 4 returns the normalised prior and leaves every hypothesis's progress unchanged |
| Teacher.ObserveScaleInvariant | gridworld_setup/bayesian_ToM/rational_bayesian_teacher.py:408-411 | Scaling the prior by a positive factor changes nothing `observe` produces |
| Probability.NormalizeIsDistribution | gridworld_setup/bayesian_teacher.py:148-149 | Dividing a non-negative vector of positive total by its total gives a distribution |
| Probability.Normalize2IsDistribution | gridworld_setup/bayesian_teacher.py:331 | Dividing a non-negative matrix of positive total by its total gives a distribution |
| Probability.Normalize2ScaleInvariant | gridworld_setup/bayesian_teacher.py:331 | Normalising cancels any positive common factor |
| DemoSelection.GoalBeliefTotal | gridworld_setup/bayesian_ToM/rational_bayesian_teacher.py:463 | The goal-colour marginal keeps the joint's total mass and non-negativity |
| DemoSelection.PredictGoalColour | gridworld_setup/bayesian_ToM/rational_bayesian_teacher.py:463-467 | The predicted colour is a valid colour whose row sum is at least every other colour's |
| DemoSelection.PredictedUtility | gridworld_setup/bayesian_ToM/rational_bayesian_teacher.py:481-486 | The accumulated utility is the belief-weighted reward minus cost times the belief mass |
| DemoSelection.CheaperPreferred | gridworld_setup/bayesian_ToM/rational_bayesian_teacher.py:484-485 | With equal predicted rewards and positive belief mass, a strictly cheaper demonstration has strictly higher utility |
| DemoSelection.UtilityMonotone | gridworld_setup/bayesian_ToM/rational_bayesian_teacher.py:483-485 | With non-negative beliefs, raising predicted rewards never lowers utility |
| DemoSelection.Candidates | gridworld_setup/bayesian_ToM/rational_bayesian_teacher.py:468-477 | There are num_rf+1 candidates: one per receptive field, then the demonstration that visits everything |
| DemoSelection.ChooseDemo | gridworld_setup/bayesian_ToM/rational_bayesian_teacher.py:479-495 | Every utility is computed with l_max = length of the last candidate. The chosen index is in the argmax set and the returned utility is the maximum |
| DemoSelection.SelectDemo | gridworld_setup/bayesian_ToM/rational_bayesian_teacher.py:457-495 | The goal colour maximises the row sums. The candidates are built for that colour. Utility i is Σ_r (reward_i,r - cost(len_i, len(demo_all)))·belief[g,r], where reward_i,r is the rollout outcome of candidate i's own call, so identical candidates may score differently. The chosen demonstration has the maximal utility |
| AddActions.Queue | gridworld_setup/bayesian_teacher.py:553-611 | No move queues nothing. A queue holds at most six actions, all of them turns or forward steps. An improper direction queues nothing |
| AddActions.Perform | gridworld_setup/bayesian_teacher.py:163-181 | Action 0 turns to (dir - 1) mod 4, action 1 to (dir + 1) mod 4, action 2 steps one cell along DIR_TO_VEC[dir]: a run without turns keeps the facing, and k forward steps move the learner k cells along its facing |
| AddActions.TurnsBetween | gridworld_setup/bayesian_teacher.py:553-611 | At most two quarter turns separate two directions, and zero exactly when they are equal |
| AddActions.UnitMove | gridworld_setup/bayesian_teacher.py:553-611 | For a move to a neighbour the queue is the fewest turns that face the neighbour, then exactly one forward step (at most three actions), and performing it puts the learner on the neighbour facing it |
| AddActions.HalfTurnGoesRight | gridworld_setup/bayesian_teacher.py:553-611 | A half turn is always queued as two right turns |
| AddActions.DiagonalUsesStaleDirection | gridworld_setup/bayesian_teacher.py:553-611 | A diagonal transition computes both blocks from the original direction. From (1,1) facing +y, the step to (2,2) ends at (3,1) |

## Left out

- Environment calls are inputs, not modelled:
  - `compute_learner_obs` (`env.grid.slice`, `rotate_left`, `encode`) becomes the `View` argument;
  - its visibility mask becomes the `View` mask;
  - the learner's pose is an argument of `UpdateKnowledge`.
- `LOG` appends are diagnostic output and are left out.
- A* is the oracle `pathExists`, Dijkstra is the oracle `distance`, and `np.exp` is the oracle `weight`. Their internals are not specified; `weight` is only required to be strictly positive, and to be multiplicative in `BaselineCancels`.
- A distance field is stored as the obstacle grid and target cells it was computed from, and evaluated through `distance` on lookup. The all-zero initial array is `Unset`, which reads as 0.
- Floating point is not modelled: probabilities are exact reals.
  - `np.isclose` ties in `select_demo` are exact equality.
  - `np.random.choice` among the tied indices is a nondeterministic pick from the argmax set.
- `predicted_reward`, `generate_demo`, `generate_demo_all` and the cost function (`exp_cost`) are function parameters of `SelectDemo`. `predicted_reward` draws the learner's actions at random (gridworld_setup/bayesian_ToM/rational_bayesian_teacher.py:443), so its parameter is indexed by the call — candidate index, goal colour, receptive field — rather than by the demonstration, one independent outcome per call. Their rollouts mutate the environment and the learner's state; those side effects are left out.
- `BayesianTeacherA_star` is left out apart from the action table of `add_actions`. Its methods call `learner_policy` without its arguments, use `self.beliefs` as a grid and read an undefined `beliefs`. `add_actions` itself also fails as written (see the AddActions.Queue line). No method of the class has coherent behaviour to model beyond that table.
- `compute_learner_obs` of the base teacher, `update_distance_goal` and `update_distance_subgoal` are not separate members. The distance recomputation they perform is `FieldTo`, used by `Refresh` and `Policy`.
- Teacher.Observe: when every hypothesis gives the observed action probability 0, the source divides 0 by 0 and stores NaN weights. The model returns `Failure(ZeroEvidence)` instead.
- Teacher.Observe: on failure the model discards the progress updates the policy calls made. The source keeps those mutations.
- Teacher.UpdateKnowledge: when the step check fails, the source has already stored the pose and incremented the counter before its assert raises. The model returns `Failure(StepMismatch)` with the state unchanged.
- Teacher.CanObserve: requires a non-zero temperature; the source would divide by zero.
- Teacher.CanObserve: requires the learner inside the border walls once it has moved, so the cell ahead and the turn cells are on the grid. On the border the source would either let numpy wrap index -1 to the far edge or raise IndexError at index n; neither is modelled. MiniGrid's border walls keep the learner inside in practice.
- Teacher.Valid: receptive fields must be non-negative; a negative field gives an empty `range` in the source and is not a meaningful configuration.
- Encoding.EncodeCell: requires a door or key colour index in 0..C. A larger index makes the source raise IndexError, which is not modelled. Colour 0 is accepted and lands where the index arithmetic 2+2(c-1) puts it: a door in the empty slot 0, a key in the wall slot 1.
- The base teacher's `update_learner_belief` has no mask; it is the rational update with a full mask (`SightOf`).
- `RationalBayesianTeacher.__init__` as written is modelled by `AsWrittenRationalPrior`; the rest of the model uses the corrected `RationalInit` (see Findings).
- AddActions.Queue: only unit moves are given a correctness property. A* paths step between neighbouring cells; diagonal behaviour is recorded by `DiagonalUsesStaleDirection` and not claimed correct.
- AddActions.Queue: as written, every `put` in `add_actions` (gridworld_setup/bayesian_teacher.py:557-611) indexes `learner_queue_actions[goal_color, rf_idx]` with a tuple key. The dict built at gridworld_setup/bayesian_teacher.py:360-367 is keyed by colour and then by receptive-field value, so any move with dx or dy non-zero raises KeyError before anything is queued. The model returns the action sequence that the four sign blocks are written to enqueue; the KeyError is not modelled.
- LearnerPolicy.NumActions: `Na` is fixed at its default 6. The hard-coded point-mass indices 3-5 need Na ≥ 6: a smaller Na makes them raise IndexError. A larger Na only adds zero entries, so an action index ≥ 6 (such as MiniGrid's `done`) would get probability 0 in the source. The model instead excludes it, because `Observe` requires `a < NumActions`.

## Findings

| source | as written | input that shows it | evidently intended | confidence | as-written member | corrected member |
|---|---|---|---|---|---|---|
| gridworld_setup/bayesian_ToM/rational_bayesian_teacher.py:36-41 | The prior weight is 1/(C·len(rf_values)) on each of C×num_rf entries, where num_rf = len(rf_values)+1 when `add_full_obs`. The total is (n+1)/n, not 1 | C=4, rf_values=[3,5,7], add_full_obs=True (the defaults): total 4/3 | A uniform prior 1/(C·num_rf) summing to 1, as the base teacher's constructor builds it | not executed; the first `observe` with positive evidence renormalises the difference away, so only uses of the prior before any observation see it | Teacher.AsWrittenPriorSum | Teacher.RationalInit |
