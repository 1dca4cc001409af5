/** The reward of one step. A crash ends the episode with -100. Otherwise
    the reward is the sum of an action term, an obstacle-clearance term
    over the frontal "horizon" window of the 360-sample range scan, a
    turn-reversal penalty and the goal-shaping term. */
module Reward {
  import opened Arith

  const ANGLE_MAX: int := 360 - 1
  const ANGLE_MIN: int := 1 - 1
  const HORIZON_WIDTH: int := 75
  const SCAN_SIZE: int := ANGLE_MAX + 1

  datatype Outcome = Outcome(reward: real, terminal: bool)

  /** Python's s[start:stop:-1] for stop <= start < |s|: the entries at
      start, start - 1, ..., stop + 1. */
  function ReverseSlice(s: seq<real>, start: int, stop: int): (r: seq<real>)
    requires 0 <= stop <= start < |s|
    ensures |r| == start - stop
    ensures forall k :: 0 <= k < |r| ==> r[k] == s[start - k] && stop < start - k <= start
  {
    seq(start - stop, k requires 0 <= k < start - stop => s[start - k])
  }

  /** The frontal window: two reversed slices meeting at the 0/360 seam. */
  function Horizon(lidar: seq<real>): (h: seq<real>)
    requires |lidar| >= SCAN_SIZE
    ensures |h| == 2 * HORIZON_WIDTH
  {
    ReverseSlice(lidar, ANGLE_MIN + HORIZON_WIDTH, ANGLE_MIN)
      + ReverseSlice(lidar, ANGLE_MAX, ANGLE_MAX - HORIZON_WIDTH)
  }

  /** The scan index read at position k of the window. */
  function HorizonIndex(k: int): int {
    if k < HORIZON_WIDTH then ANGLE_MIN + HORIZON_WIDTH - k
    else ANGLE_MAX - (k - HORIZON_WIDTH)
  }

  /** The window has 150 samples: scan indices 75 down to 1, then 359 down
      to 285. Index 0, straight ahead, is not among them. */
  lemma HorizonWindow(lidar: seq<real>)
    requires |lidar| >= SCAN_SIZE
    ensures |Horizon(lidar)| == 2 * HORIZON_WIDTH == 150
    ensures forall k :: 0 <= k < 75 ==> Horizon(lidar)[k] == lidar[75 - k]
    ensures forall k :: 75 <= k < 150 ==> Horizon(lidar)[k] == lidar[434 - k]
    ensures forall k :: 0 <= k < 150 ==>
      Horizon(lidar)[k] == lidar[HorizonIndex(k)] &&
      (1 <= HorizonIndex(k) <= 75 || 285 <= HorizonIndex(k) <= 359)
  {
  }

  /** Samples outside the window, index 0 among them, never reach it. */
  lemma HorizonIgnoresOtherSamples(a: seq<real>, b: seq<real>)
    requires |a| >= SCAN_SIZE && |b| >= SCAN_SIZE
    requires forall i :: (1 <= i <= 75 || 285 <= i <= 359) ==> a[i] == b[i]
    ensures Horizon(a) == Horizon(b)
  {
    HorizonWindow(a);
    HorizonWindow(b);
    forall k | 0 <= k < 150
      ensures Horizon(a)[k] == Horizon(b)[k]
    {
      assert a[HorizonIndex(k)] == b[HorizonIndex(k)];
    }
  }

  /** numpy.linspace(start, stop, num) over the reals. */
  function Linspace(start: real, stop: real, num: nat): (w: seq<real>)
    ensures |w| == num
    ensures num >= 1 ==> w[0] == start
    ensures num >= 2 ==> w[num - 1] == stop
  {
    if num == 1 then [start]
    else seq(num, i requires 0 <= i < num => start + (i as real) * (stop - start) / ((num - 1) as real))
  }

  /** The weight vector for a window of n samples: rising from 0.9 to 1.1
      over the first half, falling back over the second. */
  function Weights(n: nat): (w: seq<real>)
    ensures |w| == 2 * (n / 2)
  {
    Linspace(0.9, 1.1, n / 2) + Linspace(1.1, 0.9, n / 2)
  }

  /** For the 150-sample window the weights are symmetric, 0.9 at both ends,
      1.1 at the two middle positions and between 0.9 and 1.1 throughout. */
  lemma WeightsShape()
    ensures var w := Weights(2 * HORIZON_WIDTH);
      && |w| == 150
      && (forall i :: 0 <= i < 150 ==> w[i] == w[149 - i])
      && w[0] == 0.9 && w[149] == 0.9 && w[74] == 1.1 && w[75] == 1.1
      && (forall i :: 0 <= i < 150 ==> 0.9 <= w[i] <= 1.1)
  {
  }

  /** sum over k of w[k] * d[k]. */
  function WeightedSum(w: seq<real>, d: seq<real>): (sum: real)
    requires |w| == |d|
  {
    if |w| == 0 then 0.0
    else WeightedSum(w[..|w| - 1], d[..|d| - 1]) + w[|w| - 1] * d[|d| - 1]
  }

  /** Element-wise a - b. */
  function Diff(a: seq<real>, b: seq<real>): (d: seq<real>)
    requires |a| == |b|
    ensures |d| == |a|
    ensures forall i :: 0 <= i < |a| ==> d[i] == a[i] - b[i]
  {
    seq(|a|, i requires 0 <= i < |a| => a[i] - b[i])
  }

  /** The weighted change of the window between two scans: positive when
      the frontal obstacles moved away. */
  function Clearance(lidar: seq<real>, prevLidar: seq<real>): (c: real)
    requires |lidar| >= SCAN_SIZE && |prevLidar| >= SCAN_SIZE
  {
    var h, ph := Horizon(lidar), Horizon(prevLidar);
    WeightedSum(Weights(|h|), Diff(h, ph))
  }

  /** +0.2 for driving forward, -0.1 for either turn. */
  function ActionReward(action: int): (r: real)
    ensures r == 0.2 <==> action == 0
    ensures r == -0.1 <==> action != 0
  {
    if action == 0 then 0.2 else -0.1
  }

  /** +0.2 when the window's obstacles did not come closer on balance,
      -0.2 when they did. */
  function ObstacleReward(clearance: real): (r: real)
    ensures r == 0.2 <==> clearance >= 0.0
    ensures r == -0.2 <==> clearance < 0.0
  {
    if clearance >= 0.0 then 0.2 else -0.2
  }

  /** Left after right or right after left. */
  predicate IsTurnReversal(prevAction: int, action: int) {
    (prevAction == 1 && action == 2) || (prevAction == 2 && action == 1)
  }

  /** -0.8 exactly when the two actions are the two different turns. */
  function ChangePenalty(prevAction: int, action: int): (r: real)
    ensures r == -0.8 <==> {prevAction, action} == {1, 2}
    ensures r == 0.0 <==> {prevAction, action} != {1, 2}
  {
    assert {prevAction, action} == {1, 2} ==>
      prevAction in {1, 2} && action in {1, 2} && 1 in {prevAction, action} && 2 in {prevAction, action};
    if IsTurnReversal(prevAction, action) then -0.8 else 0.0
  }

  /** The reward and terminal flag of one step, the goal-shaping term
      supplied by the caller. */
  function RewardOf(action: int, prevAction: int, lidar: seq<real>, prevLidar: seq<real>,
                    crash: bool, goalReward: real): (o: Outcome)
    requires !crash ==> |lidar| >= SCAN_SIZE && |prevLidar| >= SCAN_SIZE
    ensures o.terminal == crash
    ensures crash ==> o.reward == -100.0
    ensures !crash ==> -1.1 <= o.reward - goalReward <= 0.4
  {
    if crash then Outcome(-100.0, true)
    else
      Outcome(ActionReward(action) + ObstacleReward(Clearance(lidar, prevLidar))
                + ChangePenalty(prevAction, action) + goalReward,
              false)
  }

  /** A crash decides the outcome alone: no other argument matters. */
  lemma CrashIgnoresEverythingElse(action: int, prevAction: int, lidar: seq<real>,
                                   prevLidar: seq<real>, goalReward: real,
                                   action': int, prevAction': int, lidar': seq<real>,
                                   prevLidar': seq<real>, goalReward': real)
    ensures RewardOf(action, prevAction, lidar, prevLidar, true, goalReward)
         == RewardOf(action', prevAction', lidar', prevLidar', true, goalReward')
         == Outcome(-100.0, true)
  {
  }

  lemma {:induction false} WeightedSumOfZeros(w: seq<real>, d: seq<real>)
    requires |w| == |d|
    requires forall k :: 0 <= k < |d| ==> d[k] == 0.0
    ensures WeightedSum(w, d) == 0.0
  {
    if |w| > 0 {
      WeightedSumOfZeros(w[..|w| - 1], d[..|d| - 1]);
    }
  }

  lemma {:induction false} WeightedSumNonNegative(w: seq<real>, d: seq<real>)
    requires |w| == |d|
    requires forall k :: 0 <= k < |w| ==> 0.0 <= w[k] && 0.0 <= d[k]
    ensures WeightedSum(w, d) >= 0.0
  {
    if |w| > 0 {
      WeightedSumNonNegative(w[..|w| - 1], d[..|d| - 1]);
      ProductSign(w[|w| - 1], d[|d| - 1]);
    }
  }

  lemma {:induction false} WeightedSumNegative(w: seq<real>, d: seq<real>)
    requires |w| == |d| && |w| > 0
    requires forall k :: 0 <= k < |w| ==> 0.0 < w[k] && d[k] < 0.0
    ensures WeightedSum(w, d) < 0.0
  {
    ProductSign(w[|w| - 1], d[|d| - 1]);
    if |w| > 1 {
      WeightedSumNegative(w[..|w| - 1], d[..|d| - 1]);
    }
  }

  /** An unchanged scan keeps the clearance at zero and earns +0.2. */
  lemma UnchangedScanEarnsClearance(lidar: seq<real>)
    requires |lidar| >= SCAN_SIZE
    ensures Clearance(lidar, lidar) == 0.0
    ensures ObstacleReward(Clearance(lidar, lidar)) == 0.2
  {
    var h := Horizon(lidar);
    WeightedSumOfZeros(Weights(|h|), Diff(h, h));
  }

  /** When no window sample got closer, the obstacle term is +0.2. */
  lemma OpeningScanEarnsClearance(lidar: seq<real>, prevLidar: seq<real>)
    requires |lidar| >= SCAN_SIZE && |prevLidar| >= SCAN_SIZE
    requires forall i :: (1 <= i <= 75 || 285 <= i <= 359) ==> prevLidar[i] <= lidar[i]
    ensures ObstacleReward(Clearance(lidar, prevLidar)) == 0.2
  {
    var h, ph := Horizon(lidar), Horizon(prevLidar);
    HorizonWindow(lidar);
    HorizonWindow(prevLidar);
    WeightsShape();
    var w, d := Weights(|h|), Diff(h, ph);
    forall k | 0 <= k < |w|
      ensures 0.0 <= w[k] && 0.0 <= d[k]
    {
      assert prevLidar[HorizonIndex(k)] <= lidar[HorizonIndex(k)];
    }
    WeightedSumNonNegative(w, d);
  }

  /** When every window sample got closer, the obstacle term is -0.2. */
  lemma ClosingScanLosesClearance(lidar: seq<real>, prevLidar: seq<real>)
    requires |lidar| >= SCAN_SIZE && |prevLidar| >= SCAN_SIZE
    requires forall i :: (1 <= i <= 75 || 285 <= i <= 359) ==> lidar[i] < prevLidar[i]
    ensures ObstacleReward(Clearance(lidar, prevLidar)) == -0.2
  {
    var h, ph := Horizon(lidar), Horizon(prevLidar);
    HorizonWindow(lidar);
    HorizonWindow(prevLidar);
    WeightsShape();
    var w, d := Weights(|h|), Diff(h, ph);
    forall k | 0 <= k < |w|
      ensures 0.0 < w[k] && d[k] < 0.0
    {
      assert lidar[HorizonIndex(k)] < prevLidar[HorizonIndex(k)];
    }
    WeightedSumNegative(w, d);
  }

  lemma WeightedSumStep(w: seq<real>, d: seq<real>, k: int)
    requires |w| == |d| && 0 <= k < |w|
    ensures WeightedSum(w[..k + 1], d[..k + 1]) == WeightedSum(w[..k], d[..k]) + w[k] * d[k]
  {
    assert w[..k + 1][..k] == w[..k] && d[..k + 1][..k] == d[..k];
  }

  lemma WindowDiffAt(lidar: seq<real>, prevLidar: seq<real>, k: int)
    requires |lidar| >= SCAN_SIZE && |prevLidar| >= SCAN_SIZE && 0 <= k < 2 * HORIZON_WIDTH
    ensures |Diff(Horizon(lidar), Horizon(prevLidar))| == 2 * HORIZON_WIDTH
    ensures Diff(Horizon(lidar), Horizon(prevLidar))[k]
         == lidar[HorizonIndex(k)] - prevLidar[HorizonIndex(k)]
  {
    HorizonWindow(lidar);
    HorizonWindow(prevLidar);
  }

  /** np.sum(W * (lidar_horizon - prev_lidar_horizon)) for a weight vector W
      of the window's length, one sample pair at a time, reading the scans
      through the window's index arithmetic. */
  method WeightedClearance(w: seq<real>, lidar: seq<real>, prevLidar: seq<real>)
    returns (sum: real)
    requires |w| == 2 * HORIZON_WIDTH
    requires |lidar| >= SCAN_SIZE && |prevLidar| >= SCAN_SIZE
    ensures sum == WeightedSum(w, Diff(Horizon(lidar), Horizon(prevLidar)))
  {
    ghost var d := Diff(Horizon(lidar), Horizon(prevLidar));
    WindowDiffAt(lidar, prevLidar, 0);
    sum := 0.0;
    for k := 0 to |w|
      invariant sum == WeightedSum(w[..k], d[..k])
    {
      var i := HorizonIndex(k);
      WindowDiffAt(lidar, prevLidar, k);
      WeightedSumStep(w, d, k);
      sum := sum + w[k] * (lidar[i] - prevLidar[i]);
    }
    assert w[..|w|] == w && d[..|w|] == d;
  }

  /** One step's reward, as the corrected source computes it. */
  method GetReward(action: int, prevAction: int, lidar: seq<real>, prevLidar: seq<real>,
                   crash: bool, goalReward: real)
    returns (reward: real, terminal: bool)
    requires !crash ==> |lidar| >= SCAN_SIZE && |prevLidar| >= SCAN_SIZE
    ensures Outcome(reward, terminal)
         == RewardOf(action, prevAction, lidar, prevLidar, crash, goalReward)
  {
    if crash {
      terminal := true;
      reward := -100.0;
    } else {
      var w := Weights(2 * HORIZON_WIDTH);
      var clearance := WeightedClearance(w, lidar, prevLidar);
      HorizonWindow(lidar);
      terminal := false;
      var rAction := ActionReward(action);
      var rObstacle := ObstacleReward(clearance);
      var rChange := ChangePenalty(prevAction, action);
      reward := rAction + rObstacle + rChange + goalReward;
    }
  }

  /** The exception Python raises when it adds a bound method to a float. */
  datatype PyError = TypeError

  datatype Evaluation = Returned(outcome: Outcome) | Raised(error: PyError)

  /** getReward as written: the non-crash branch adds the method object
      setReward_to_goal itself, not its result, and so raises. */
  function GetRewardAsWritten(action: int, prevAction: int, lidar: seq<real>,
                              prevLidar: seq<real>, crash: bool): (e: Evaluation)
    requires !crash ==> |lidar| >= SCAN_SIZE && |prevLidar| >= SCAN_SIZE
    ensures e.Returned? <==> crash
    ensures e.Returned? ==> e.outcome == Outcome(-100.0, true)
  {
    if crash then Returned(Outcome(-100.0, true))
    else Raised(TypeError)
  }

  /** The code as written and the corrected reward agree exactly on the
      steps that crash: on every other step the former raises where the
      latter returns. */
  lemma GoalTermDefect(action: int, prevAction: int, lidar: seq<real>, prevLidar: seq<real>,
                       crash: bool, goalReward: real)
    requires !crash ==> |lidar| >= SCAN_SIZE && |prevLidar| >= SCAN_SIZE
    ensures GetRewardAsWritten(action, prevAction, lidar, prevLidar, crash)
         == Returned(RewardOf(action, prevAction, lidar, prevLidar, crash, goalReward))
         <==> crash
    ensures !crash ==>
      GetRewardAsWritten(action, prevAction, lidar, prevLidar, crash) == Raised(TypeError)
  {
  }
}
