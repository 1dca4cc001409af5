/** The Q-table: a dense n_states x n_actions table of expected-return
    estimates, created zero-filled and updated in place, one cell at a time,
    by the tabular Q-learning rule. */
module QTable {
  import opened Guard
  import opened Arith

  /** Row i of the table, Q[i, :]. */
  function Row(Q: array2<real>, i: nat): (row: seq<real>)
    reads Q
    requires i < Q.Length0
    ensures |row| == Q.Length1
    ensures forall j :: 0 <= j < Q.Length1 ==> row[j] == Q[i, j]
  {
    seq(Q.Length1, j requires 0 <= j < Q.Length1 reads Q => Q[i, j])
  }

  /** j holds a largest entry of row and no earlier entry is as large:
      numpy's argmax convention. */
  predicate IsFirstMax(row: seq<real>, j: int) {
    && 0 <= j < |row|
    && (forall k :: 0 <= k < |row| ==> row[k] <= row[j])
    && (forall k :: 0 <= k < j ==> row[k] < row[j])
  }

  /** At most one position is the first maximum. */
  lemma FirstMaxIsUnique(row: seq<real>, i: int, j: int)
    requires IsFirstMax(row, i) && IsFirstMax(row, j)
    ensures i == j
  {
    assert !(row[i] < row[j]) && !(row[j] < row[i]);
  }

  /** The arg-max of a non-empty row, ties going to the lowest column. */
  function FirstArgMax(row: seq<real>): (j: nat)
    requires |row| > 0
    ensures IsFirstMax(row, j)
  {
    if |row| == 1 then 0
    else
      var k := FirstArgMax(row[..|row| - 1]);
      if row[|row| - 1] > row[k] then |row| - 1 else k
  }

  /** Ties go to the first column: the row [0.5, 0.5, 0.1] selects column 0. */
  lemma TieGoesToFirstColumn()
    ensures FirstArgMax([0.5, 0.5, 0.1]) == 0
  {
    assert IsFirstMax([0.5, 0.5, 0.1], 0);
    FirstMaxIsUnique([0.5, 0.5, 0.1], 0, FirstArgMax([0.5, 0.5, 0.1]));
  }

  /** The largest entry of a non-empty row. */
  function Max(row: seq<real>): (m: real)
    requires |row| > 0
    ensures m in row
    ensures forall k :: 0 <= k < |row| ==> row[k] <= m
  {
    row[FirstArgMax(row)]
  }

  /** Python's reading of an index that may count from the end. */
  function PyIndex(i: int, n: nat): (k: nat)
    requires 0 <= i + n && i < n
    ensures k < n && (k == i || k == i + n)
  {
    if i < 0 then i + n else i
  }

  /** A zero-filled n_states x n_actions table. */
  method CreateQTable(nStates: nat, nActions: nat) returns (Q: array2<real>)
    ensures fresh(Q)
    ensures Q.Length0 == nStates && Q.Length1 == nActions
    ensures forall i, j :: 0 <= i < nStates && 0 <= j < nActions ==> Q[i, j] == 0.0
  {
    Q := new real[nStates, nActions]((i, j) => 0.0);
  }

  /** Python's max over a row, by a scan from the left. */
  method RowMax(Q: array2<real>, i: nat) returns (m: real)
    requires i < Q.Length0 && Q.Length1 > 0
    ensures exists k :: 0 <= k < Q.Length1 && Q[i, k] == m
    ensures forall k :: 0 <= k < Q.Length1 ==> Q[i, k] <= m
    ensures m == Max(Row(Q, i))
  {
    m := Q[i, 0];
    for j := 1 to Q.Length1
      invariant exists k :: 0 <= k < j && Q[i, k] == m
      invariant forall k :: 0 <= k < j ==> Q[i, k] <= m
    {
      if Q[i, j] > m {
        m := Q[i, j];
      }
    }
    var row := Row(Q, i);
    assert row[FirstArgMax(row)] <= m;
  }

  /** The Bellman estimate for one cell: the old estimate moved a fraction
      alpha of the way towards reward + gamma * (best estimate of the next
      state). */
  function UpdatedEstimate(q: real, reward: real, nextMax: real, alpha: real, gamma: real): (e: real)
    ensures e == q + alpha * ((reward + gamma * nextMax) - q)
  {
    (1.0 - alpha) * q + alpha * (reward + gamma * nextMax)
  }

  /** With alpha = 1 and gamma = 0 the cell becomes exactly the reward. */
  lemma FullStepUndiscountedIsReward(q: real, reward: real, nextMax: real)
    ensures UpdatedEstimate(q, reward, nextMax, 1.0, 0.0) == reward
  {
  }

  /** The distance to the target shrinks by the factor 1 - alpha. */
  lemma EstimateApproachesTarget(q: real, reward: real, nextMax: real, alpha: real, gamma: real)
    ensures UpdatedEstimate(q, reward, nextMax, alpha, gamma) - (reward + gamma * nextMax)
         == (1.0 - alpha) * (q - (reward + gamma * nextMax))
  {
  }

  /** For a learning rate in [0, 1] the new estimate lies between the old
      estimate and the target. */
  lemma EstimateBetweenOldAndTarget(q: real, reward: real, nextMax: real, alpha: real, gamma: real)
    requires 0.0 <= alpha <= 1.0
    ensures var t, e := reward + gamma * nextMax, UpdatedEstimate(q, reward, nextMax, alpha, gamma);
      (q <= t ==> q <= e <= t) && (t <= q ==> t <= e <= q)
  {
    var t := reward + gamma * nextMax;
    var e := UpdatedEstimate(q, reward, nextMax, alpha, gamma);
    assert e == q + alpha * (t - q);
    if q <= t {
      ProductSign(alpha, t - q);
      ProductSign(1.0 - alpha, t - q);
    } else {
      ProductSign(alpha, q - t);
      ProductSign(1.0 - alpha, q - t);
    }
  }

  /** The in-place Bellman update. With both indices valid, cell
      [s, action] (action read as a Python index) gets the Bellman
      estimate computed from the table as it was, and the status is Ok;
      otherwise nothing changes and the status is InvalidStateIndex. The
      returned table is the argument itself. */
  method UpdateQTable(Q: array2<real>, s: int, action: int, reward: real, next: int,
                      alpha: real, gamma: real)
    returns (table: array2<real>, status: Status)
    requires IsValidState(s) && IsValidState(next) ==>
      s < Q.Length0 && next < Q.Length0 && 0 <= action + Q.Length1 && action < Q.Length1
    modifies Q
    ensures table == Q
    ensures status == (if IsValidState(s) && IsValidState(next) then Ok else InvalidStateIndex)
    ensures IsValidState(s) && IsValidState(next) ==>
      var a := PyIndex(action, Q.Length1);
      Q[s, a] == UpdatedEstimate(old(Q[s, a]), reward, Max(old(Row(Q, next))), alpha, gamma)
    ensures IsValidState(s) && IsValidState(next) ==>
      forall i, j ::
        (0 <= i < Q.Length0 && 0 <= j < Q.Length1 && (i != s || j != PyIndex(action, Q.Length1)))
        ==> Q[i, j] == old(Q[i, j])
    ensures !(IsValidState(s) && IsValidState(next)) ==>
      forall i, j :: 0 <= i < Q.Length0 && 0 <= j < Q.Length1 ==> Q[i, j] == old(Q[i, j])
  {
    table := Q;
    if IsValidState(s) && IsValidState(next) {
      status := Ok;
      var a := PyIndex(action, Q.Length1);
      var nextMax := RowMax(Q, next);
      Q[s, a] := UpdatedEstimate(Q[s, a], reward, nextMax, alpha, gamma);
    } else {
      status := InvalidStateIndex;
    }
  }
}
