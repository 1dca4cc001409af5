# Tabular Q-learning engine of the TurtleBot3 stage-4 environment

A Dafny model of the decision engine inside the `Env` class of
`build/turtlebot3_machine_learning/turtlebot3_dqn/catkin_generated/installspace/environment_stage_4.py`: the state-index guard, the state space and the Q-table, the three
action-selection policies (greedy, epsilon-greedy, Boltzmann/softmax), the
local reward terms of `getReward`, and the in-place Q-learning update.

Modules (one per component, one file each):

- `guard.dfy` (`Guard`): the index bounds (`STATE_SPACE_IND_MIN = 0`,
  `STATE_SPACE_IND_MAX = 143`), the validity guard `IsValidState` used by every
  policy and by the update, the typed `Status` that replaces the source's
  status strings (`Ok`, `InvalidStateIndex`, `DistributionError` with P, rnd and
  the Q row), and `Float`, a float64 that is a number or NaN.
- `state_space.dfy` (`StateSpace`): the action list and the 3 x 3 x 4 x 4 state
  space.
- `qtable.dfy` (`QTable`): the table as an `array2<real>`, zero-filled creation,
  first arg-max and row maximum, the Bellman estimate and `UpdateQTable`, which
  changes one cell in place.
- `policies.dfy` (`Policies`): the three policies as functions that read the
  table.
- `reward.dfy` (`Reward`): the horizon window, the weight vector, the reward
  terms, the reward of one step and the source's defective sum.

Random draws are parameters: `draw` is what `np.random.randint(len(actions))`
returned (so `0 <= draw < |actions|`), `u` and `rnd` are what
`np.random.uniform()` returned (so in `[0, 1)`). The Boltzmann probabilities `P`
are a parameter, and so is the goal-shaping reward of `setReward_to_goal`.

Where the code and its evident intent disagree, the model follows the code:

- Epsilon-greedy reports OK on an invalid state index, whereas `getBestAction`
  (line 219) and `softMaxSelection` (line 269) report INVALID STATE INDEX; see
  Findings.
- Epsilon-greedy with epsilon = 0 is not always greedy: the test `u > epsilon` is
  strict, so the draw u = 0 explores (`Policies.EpsilonZeroExploits`).
- Softmax sampling returns the literal indices 0, 1, 2, not `actions[a]`.
- `np.zeros` accepts a zero dimension, so `CreateQTable` accepts 0 too.
- `np.array(list(set(product(...))))` orders the state tuples by set iteration,
  so the model promises no order, only one entry per tuple.

## Model

| member | source | states |
|---|---|---|
| Guard.IsValidState | build/turtlebot3_machine_learning/turtlebot3_dqn/catkin_generated/installspace/environment_stage_4.py:214 | the guard of lines 214, 229, 240 and 304: STATE_SPACE_IND_MIN <= s <= STATE_SPACE_IND_MAX, i.e. 0 <= s <= 143; ValidIndexAddressesStateSpace ties it to the state space |
| Guard.Add | build/turtlebot3_machine_learning/turtlebot3_dqn/catkin_generated/installspace/environment_stage_4.py:257-259 | the float sum P[0] + P[1]: a number exactly when both addends are numbers, then their sum; NaN otherwise |
| Guard.GreaterThan | build/turtlebot3_machine_learning/turtlebot3_dqn/catkin_generated/installspace/environment_stage_4.py:255-257 | the threshold test `P[i] > rnd`, false on NaN |
| Guard.AtMost | build/turtlebot3_machine_learning/turtlebot3_dqn/catkin_generated/installspace/environment_stage_4.py:257-259 | the threshold test `P[i] <= rnd`, false on NaN |
| StateSpace.CreateActions | build/turtlebot3_machine_learning/turtlebot3_dqn/catkin_generated/installspace/environment_stage_4.py:191-193 | three actions, each equal to its own index 0, 1, 2 |
| StateSpace.CreateStateSpace | build/turtlebot3_machine_learning/turtlebot3_dqn/catkin_generated/installspace/environment_stage_4.py:194-200 | 144 pairwise distinct tuples; a tuple is present iff its components lie in {0,1,2} x {0,1,2} x {0,1,2,3} x {0,1,2,3} |
| StateSpace.ValidIndexAddressesStateSpace | build/turtlebot3_machine_learning/turtlebot3_dqn/catkin_generated/installspace/environment_stage_4.py:37-38 | an index passes the guard iff it addresses an entry of the state space (0 <= s <= 143 = its length - 1) |
| QTable.CreateQTable | build/turtlebot3_machine_learning/turtlebot3_dqn/catkin_generated/installspace/environment_stage_4.py:201-204 | a fresh n_states x n_actions table whose every cell is 0 |
| QTable.FirstArgMax | build/turtlebot3_machine_learning/turtlebot3_dqn/catkin_generated/installspace/environment_stage_4.py:216 | the returned column holds a largest entry and every earlier column is strictly smaller (numpy's first-maximum convention) |
| QTable.FirstMaxIsUnique | build/turtlebot3_machine_learning/turtlebot3_dqn/catkin_generated/installspace/environment_stage_4.py:216 | at most one column is the first maximum, so the convention determines the arg-max |
| QTable.TieGoesToFirstColumn | build/turtlebot3_machine_learning/turtlebot3_dqn/catkin_generated/installspace/environment_stage_4.py:216 | on the tie [0.5, 0.5, 0.1] column 0 is selected |
| QTable.Row | build/turtlebot3_machine_learning/turtlebot3_dqn/catkin_generated/installspace/environment_stage_4.py:216 | the slice Q[s, :]: one entry per column, entry j is Q[s, j] |
| QTable.PyIndex | build/turtlebot3_machine_learning/turtlebot3_dqn/catkin_generated/installspace/environment_stage_4.py:306 | numpy's reading of the column index `action`: an index in [0, n) that is `action` itself or, for a negative one, `action + n` |
| QTable.Max | build/turtlebot3_machine_learning/turtlebot3_dqn/catkin_generated/installspace/environment_stage_4.py:306 | the row maximum is an entry of the row and no entry exceeds it |
| QTable.RowMax | build/turtlebot3_machine_learning/turtlebot3_dqn/catkin_generated/installspace/environment_stage_4.py:306 | the left-to-right scan returns an entry of the row that no entry exceeds, i.e. the row maximum |
| QTable.UpdatedEstimate | build/turtlebot3_machine_learning/turtlebot3_dqn/catkin_generated/installspace/environment_stage_4.py:306 | the right-hand side of the update moves the old estimate a fraction alpha of the way towards reward + gamma * next-state maximum |
| QTable.FullStepUndiscountedIsReward | build/turtlebot3_machine_learning/turtlebot3_dqn/catkin_generated/installspace/environment_stage_4.py:306 | with alpha = 1 and gamma = 0 the updated cell is exactly the reward |
| QTable.EstimateApproachesTarget | build/turtlebot3_machine_learning/turtlebot3_dqn/catkin_generated/installspace/environment_stage_4.py:306 | the update shrinks the distance to reward + gamma * max by the factor 1 - alpha |
| QTable.EstimateBetweenOldAndTarget | build/turtlebot3_machine_learning/turtlebot3_dqn/catkin_generated/installspace/environment_stage_4.py:306 | for alpha in [0, 1] the new estimate lies between the old one and the target |
| QTable.UpdateQTable | build/turtlebot3_machine_learning/turtlebot3_dqn/catkin_generated/installspace/environment_stage_4.py:303-309 | with both indices valid: cell [s, a] becomes (1-alpha)Q[s,a] + alpha(r + gamma max Q[s',:]) from the old table, every other cell is unchanged, status Ok; otherwise the table is unchanged and the status is InvalidStateIndex; the returned table is the argument |
| Policies.GetRandomAction | build/turtlebot3_machine_learning/turtlebot3_dqn/catkin_generated/installspace/environment_stage_4.py:224-227 | the drawn action is one of the actions |
| Policies.GetBestAction | build/turtlebot3_machine_learning/turtlebot3_dqn/catkin_generated/installspace/environment_stage_4.py:213-222 | valid index: status Ok and the action of a first-maximum column of row s; invalid index: status InvalidStateIndex and the drawn action; always a member of actions |
| Policies.BestActionIsFirstMax | build/turtlebot3_machine_learning/turtlebot3_dqn/catkin_generated/installspace/environment_stage_4.py:213-217 | for any first-maximum column j of row s, greedy selection returns exactly (actions[j], Ok) |
| Policies.EpsilonGreedy | build/turtlebot3_machine_learning/turtlebot3_dqn/catkin_generated/installspace/environment_stage_4.py:228-238 | status is always Ok; when u > epsilon and the index is valid the action is greedy selection's, otherwise it is the drawn action |
| Policies.EpsilonGreedyHidesInvalidIndex | build/turtlebot3_machine_learning/turtlebot3_dqn/catkin_generated/installspace/environment_stage_4.py:234-236 | on index 144 epsilon-greedy reports Ok while greedy selection reports InvalidStateIndex |
| Policies.EpsilonOneAlwaysExplores | build/turtlebot3_machine_learning/turtlebot3_dqn/catkin_generated/installspace/environment_stage_4.py:229 | with epsilon >= 1 the result is the drawn action with status Ok |
| Policies.EpsilonZeroExploits | build/turtlebot3_machine_learning/turtlebot3_dqn/catkin_generated/installspace/environment_stage_4.py:229 | with epsilon = 0 on a valid index, every draw u > 0 gives greedy selection and u = 0 gives the drawn action |
| Policies.EpsilonGreedyReporting | build/turtlebot3_machine_learning/turtlebot3_dqn/catkin_generated/installspace/environment_stage_4.py:228-238 | the corrected policy: the same action as epsilon-greedy, status InvalidStateIndex exactly when the index fails the guard |
| Policies.SoftMaxSelection | build/turtlebot3_machine_learning/turtlebot3_dqn/catkin_generated/installspace/environment_stage_4.py:239-272 | invalid index: (drawn action, InvalidStateIndex); valid index and T < T_MIN or NaN in P: exactly greedy selection; valid index: never InvalidStateIndex |
| Policies.SoftMaxThresholds | build/turtlebot3_machine_learning/turtlebot3_dqn/catkin_generated/installspace/environment_stage_4.py:253-267 | for a NaN-free, non-negative P on a valid index with T >= T_MIN: status Ok, action in {0,1,2}, action 0 iff rnd < P[0], action 1 iff P[0] <= rnd < P[0]+P[1], action 2 iff rnd >= P[0]+P[1] |
| Policies.SoftMaxSingleColumn | build/turtlebot3_machine_learning/turtlebot3_dqn/catkin_generated/installspace/environment_stage_4.py:255-257 | on a one-column table with T >= T_MIN the Boltzmann distribution [1.0] is admitted for every rnd in [0, 1) and selection returns (0, Ok); `P[1]` is never read |
| Policies.WarmDistributionSamples | build/turtlebot3_machine_learning/turtlebot3_dqn/catkin_generated/installspace/environment_stage_4.py:255-260 | a NaN-free P that the tests can read always passes one of the three threshold tests, so greedy selection is reached only on a cold or NaN-bearing P |
| Policies.SoftMaxNeverReportsDistributionError | build/turtlebot3_machine_learning/turtlebot3_dqn/catkin_generated/installspace/environment_stage_4.py:248-267 | for every input the distribution-error branch is not taken |
| Policies.SoftMaxColdIsGreedy | build/turtlebot3_machine_learning/turtlebot3_dqn/catkin_generated/installspace/environment_stage_4.py:248-251 | below T_MIN = 0.001 softmax returns (actions[j], Ok) for the first-maximum column j, whatever P and rnd are |
| Policies.InvalidIndexDegrades | build/turtlebot3_machine_learning/turtlebot3_dqn/catkin_generated/installspace/environment_stage_4.py:213-272 | on an invalid index all three policies return a member of actions; greedy and softmax report InvalidStateIndex, epsilon-greedy reports Ok |
| Reward.ReverseSlice | build/turtlebot3_machine_learning/turtlebot3_dqn/catkin_generated/installspace/environment_stage_4.py:278 | Python's s[start:stop:-1]: start - stop entries, s[start] down to s[stop + 1] |
| Reward.Horizon | build/turtlebot3_machine_learning/turtlebot3_dqn/catkin_generated/installspace/environment_stage_4.py:278-279 | the concatenation of the two reversed slices has 2 * HORIZON_WIDTH = 150 samples |
| Reward.HorizonWindow | build/turtlebot3_machine_learning/turtlebot3_dqn/catkin_generated/installspace/environment_stage_4.py:278-279 | the window has 150 samples: scan indices 75 down to 1, then 359 down to 285; index 0 is not among them |
| Reward.HorizonIgnoresOtherSamples | build/turtlebot3_machine_learning/turtlebot3_dqn/catkin_generated/installspace/environment_stage_4.py:278-279 | two scans that agree on indices 1..75 and 285..359 have the same window |
| Reward.Linspace | build/turtlebot3_machine_learning/turtlebot3_dqn/catkin_generated/installspace/environment_stage_4.py:287-288 | numpy.linspace over the reals: num values, the first equal to start and (for num >= 2) the last equal to stop |
| Reward.Weights | build/turtlebot3_machine_learning/turtlebot3_dqn/catkin_generated/installspace/environment_stage_4.py:287-288 | the rising and the falling linspace appended: 2 * (n / 2) weights |
| Reward.WeightsShape | build/turtlebot3_machine_learning/turtlebot3_dqn/catkin_generated/installspace/environment_stage_4.py:287-288 | 150 weights, W[i] = W[149-i], W[0] = W[149] = 0.9, W[74] = W[75] = 1.1, all within [0.9, 1.1] |
| Reward.Diff | build/turtlebot3_machine_learning/turtlebot3_dqn/catkin_generated/installspace/environment_stage_4.py:289 | the element-wise difference of two windows of equal length |
| Reward.WeightedSum | build/turtlebot3_machine_learning/turtlebot3_dqn/catkin_generated/installspace/environment_stage_4.py:289 | np.sum(W * d) accumulated from the left; its sign facts are WeightedSumNonNegative and WeightedSumNegative |
| Reward.WeightedSumNonNegative | build/turtlebot3_machine_learning/turtlebot3_dqn/catkin_generated/installspace/environment_stage_4.py:289 | non-negative weights and differences give a non-negative sum |
| Reward.WeightedSumNegative | build/turtlebot3_machine_learning/turtlebot3_dqn/catkin_generated/installspace/environment_stage_4.py:289 | positive weights and negative differences give a negative sum |
| Reward.Clearance | build/turtlebot3_machine_learning/turtlebot3_dqn/catkin_generated/installspace/environment_stage_4.py:278-289 | the obstacle criterion np.sum(W * (lidar_horizon - prev_lidar_horizon)) for the two scans; OpeningScanEarnsClearance and ClosingScanLosesClearance fix its sign |
| Reward.ActionReward | build/turtlebot3_machine_learning/turtlebot3_dqn/catkin_generated/installspace/environment_stage_4.py:282-285 | +0.2 iff the action is 0 (forward), -0.1 iff it is not |
| Reward.ObstacleReward | build/turtlebot3_machine_learning/turtlebot3_dqn/catkin_generated/installspace/environment_stage_4.py:289-292 | +0.2 iff the weighted sum is >= 0, -0.2 iff it is negative |
| Reward.ChangePenalty | build/turtlebot3_machine_learning/turtlebot3_dqn/catkin_generated/installspace/environment_stage_4.py:294-297 | -0.8 iff {prev_action, action} = {1, 2}, 0 otherwise |
| Reward.WeightedClearance | build/turtlebot3_machine_learning/turtlebot3_dqn/catkin_generated/installspace/environment_stage_4.py:278-289 | the loop over window positions, reading the scans by index arithmetic, returns the weighted sum of the differences of the two sliced windows |
| Reward.RewardOf | build/turtlebot3_machine_learning/turtlebot3_dqn/catkin_generated/installspace/environment_stage_4.py:273-302 | terminal iff crash; a crash gives -100; otherwise the reward minus the goal term lies in [-1.1, 0.4] |
| Reward.CrashIgnoresEverythingElse | build/turtlebot3_machine_learning/turtlebot3_dqn/catkin_generated/installspace/environment_stage_4.py:274-276 | with crash set the outcome is (-100, terminal) whatever the other arguments |
| Reward.UnchangedScanEarnsClearance | build/turtlebot3_machine_learning/turtlebot3_dqn/catkin_generated/installspace/environment_stage_4.py:287-292 | an unchanged scan has clearance 0 and earns the obstacle term +0.2 |
| Reward.OpeningScanEarnsClearance | build/turtlebot3_machine_learning/turtlebot3_dqn/catkin_generated/installspace/environment_stage_4.py:287-292 | if no window sample got closer the obstacle term is +0.2 |
| Reward.ClosingScanLosesClearance | build/turtlebot3_machine_learning/turtlebot3_dqn/catkin_generated/installspace/environment_stage_4.py:287-292 | if every window sample got closer the obstacle term is -0.2 |
| Reward.GetReward | build/turtlebot3_machine_learning/turtlebot3_dqn/catkin_generated/installspace/environment_stage_4.py:273-302 | the step's (reward, terminal) equals RewardOf, with the goal-shaping term supplied by the caller |
| Reward.GetRewardAsWritten | build/turtlebot3_machine_learning/turtlebot3_dqn/catkin_generated/installspace/environment_stage_4.py:300 | as written the call returns (-100, True) iff crash, and raises TypeError on every other input |
| Reward.GoalTermDefect | build/turtlebot3_machine_learning/turtlebot3_dqn/catkin_generated/installspace/environment_stage_4.py:300 | the as-written evaluation returns the corrected outcome exactly on crash steps and raises TypeError on every other step |

## Left out

- ROS and Gazebo plumbing: the publishers, subscribers and service proxies of
  `__init__`, and `reset` with its blocking waits for a scan (middleware I/O).
- `getOdometry`: quaternion-to-Euler conversion by a foreign library and
  floating-point trigonometry.
- `getGoalDistace` and `setReward_to_goal`: float rounding, `hypot`, `modf`,
  powers of two, velocity commands and the goal-respawn service; their reward
  enters `GetReward` as the parameter `goalReward`.
- `readQTable` / `saveQTable`: text-file I/O through numpy; the round trip
  depends on numpy's float formatting.
- The Boltzmann probabilities themselves (`exp`, division, NaN detection on
  floats): `P` is a parameter whose entries are numbers or NaN; `T` is only
  compared with `T_MIN`.
- Random number generation: every draw is a parameter with its stated range.
- Floating point: Q values, rewards, weights and scan samples are reals, so
  rounding in the update, in `linspace` and in the weighted sum is not modelled.
- Non-finite scan samples: samples are assumed finite (normalised by the
  caller). With an inf or NaN sample in the window, inf - inf or NaN makes the
  weighted sum NaN, `NaN >= 0` is false and Python's obstacle term is -0.2, so
  UnchangedScanEarnsClearance and OpeningScanEarnsClearance hold for finite
  scans only.
- The commented-out `getState` and `step`: they are string literals, not code.
- Scans shorter than 360 samples, where Python's slicing would silently shorten
  the window: `GetReward` requires at least 360 samples.
- A valid state index beyond the table's rows, where numpy raises IndexError.
  It is excluded only on the branches that read the row: `GetBestAction`
  requires `Fits`; `EpsilonGreedy` requires `Fits` only when u > epsilon,
  since its random branch never reads the table; `SoftMaxSelection` requires
  the row in range on every valid index, since P is built from it; and
  `UpdateQTable` requires both indices in range.
- A first arg-max column with no action of its own (`actions[a_ind]` at line
  217 raises IndexError): `Fits` requires the arg-max column to be below
  `len(actions)` wherever greedy selection is called. On softmax's sampling
  branch no arg-max is taken, so `SoftMaxFits` demands it only for a cold,
  NaN-bearing or non-sampling P (`WarmDistributionSamples`). A wider table
  whose row maximum names an action is accepted.
- A table with no columns on a valid index, where `np.argmax` (line 216)
  raises ValueError in greedy selection, softmax fails at `np.argmax` or at
  `P[0]` (line 255), and `updateQTable` raises IndexError at
  `Q_table[state_ind,action]` (line 306) before `max` is reached: `Fits` and
  `SoftMaxFits` require a column, and `UpdateQTable`'s range requirement on
  `action` implies one.
- An out-of-range `action` in `updateQTable` (IndexError at line 306):
  `UpdateQTable` requires `-n_actions <= action < n_actions` on valid indices.
- Negative `np.zeros` dimensions (ValueError at line 203): `CreateQTable` takes
  `nat` dimensions.
- A one-entry P whose entry does not exceed rnd on the sampling branch, where
  `P[1]` at line 257 raises IndexError: `SoftMaxFits` excludes it. The
  Boltzmann P of a one-column row is [1.0] (or NaN), and
  `SoftMaxSingleColumn` shows that [1.0] is always admitted and samples
  action 0.
- Status strings: the prefix naming the reporting function is not modelled,
  nor the exact text of the distribution-error message (its data P, rnd and
  the Q row are kept).
- SoftMaxSelection: its own contract says only that a valid index is never
  reported invalid; the stronger facts (status Ok, the threshold partition)
  are stated by SoftMaxThresholds and SoftMaxNeverReportsDistributionError.
- GetBestAction: its contract names the first-maximum column existentially;
  BestActionIsFirstMax pins the result for every such column.

## Findings

| source | as written | input that shows it | evidently intended | confidence | as-written member | corrected member |
|---|---|---|---|---|---|---|
| build/turtlebot3_machine_learning/turtlebot3_dqn/catkin_generated/installspace/environment_stage_4.py:300 | adds the bound method `self.setReward_to_goal` to the float sum of the local terms | crash = False with any actions and scans: Python raises TypeError (`Reward.GoalTermDefect`) | add the call's result, `self.setReward_to_goal(action)` | high, not executed | Reward.GetRewardAsWritten | Reward.GetReward |
| build/turtlebot3_machine_learning/turtlebot3_dqn/catkin_generated/installspace/environment_stage_4.py:234-236 | the random branch labels the status OK whatever the index; the relabelling at lines 232-233 cannot fire because line 229 already requires a valid index | state_ind = 144 with any epsilon and u (`Policies.EpsilonGreedyHidesInvalidIndex`) | report INVALID STATE INDEX on an invalid index, as the other two policies do | medium, not executed | Policies.EpsilonGreedy | Policies.EpsilonGreedyReporting |
