/** The three action-selection policies over a Q-table row: greedy
    (first arg-max), epsilon-greedy and Boltzmann (softmax) sampling. Each
    degrades to a random action instead of failing on a state index
    outside the guard. Every random draw is a parameter: `draw` is the
    value numpy's randint(len(actions)) returned, `u` and `rnd` are values
    numpy's uniform() returned. */
module Policies {
  import opened Guard
  import opened QTable

  const T_MIN: real := 0.001

  /** An action together with the status the policy reports. */
  datatype Selection = Selection(action: int, status: Status)

  /** What greedy selection asks of its caller on a valid index: the index
      names a non-empty row of Q (numpy raises IndexError, and argmax
      ValueError, otherwise) and the first arg-max column of that row names
      an action (`actions[a_ind]` raises IndexError otherwise). The other
      policies ask it only on the branches that call greedy selection. */
  predicate Fits(Q: array2<real>, s: int, actions: seq<int>)
    reads Q
  {
    IsValidState(s) ==>
      s < Q.Length0 && 0 < Q.Length1 && FirstArgMax(Row(Q, s)) < |actions|
  }

  /** The uniformly drawn action. */
  function GetRandomAction(actions: seq<int>, draw: int): (a: int)
    requires 0 <= draw < |actions|
    ensures a in actions
  {
    actions[draw]
  }

  /** Greedy selection: on a valid index the action at the first largest
      entry of the row, with status Ok; otherwise the drawn action, with
      status InvalidStateIndex. */
  function GetBestAction(Q: array2<real>, s: int, actions: seq<int>, draw: int): (r: Selection)
    reads Q
    requires Fits(Q, s, actions) && 0 <= draw < |actions|
    ensures r.action in actions
    ensures r.status == (if IsValidState(s) then Ok else InvalidStateIndex)
    ensures IsValidState(s) ==>
      exists j :: IsFirstMax(Row(Q, s), j) && r.action == actions[j]
    ensures !IsValidState(s) ==> r.action == actions[draw]
  {
    if IsValidState(s) then
      var j := FirstArgMax(Row(Q, s));
      Selection(actions[j], Ok)
    else
      Selection(GetRandomAction(actions, draw), InvalidStateIndex)
  }

  /** Whichever column is the first maximum of the row, greedy selection
      returns the action of that column. */
  lemma BestActionIsFirstMax(Q: array2<real>, s: int, actions: seq<int>, draw: int, j: int)
    requires Fits(Q, s, actions) && 0 <= draw < |actions|
    requires IsValidState(s) && IsFirstMax(Row(Q, s), j) && j < |actions|
    ensures GetBestAction(Q, s, actions, draw) == Selection(actions[j], Ok)
  {
    var row := Row(Q, s);
    FirstMaxIsUnique(row, j, FirstArgMax(row));
  }

  /** Epsilon-greedy exploration as the source writes it: greedy when the
      uniform draw exceeds epsilon and the index is valid, the drawn action
      otherwise; the status is Ok on both paths, because the relabelling of
      an invalid greedy status can never fire and the random path sets Ok
      whatever the index. */
  function EpsilonGreedy(Q: array2<real>, s: int, actions: seq<int>, epsilon: real,
                         u: real, draw: int): (r: Selection)
    reads Q
    requires u > epsilon ==> Fits(Q, s, actions)
    requires 0 <= draw < |actions|
    requires 0.0 <= u < 1.0
    ensures r.status == Ok
    ensures r.action in actions
    ensures u > epsilon && IsValidState(s) ==>
      r.action == GetBestAction(Q, s, actions, draw).action
    ensures !(u > epsilon && IsValidState(s)) ==> r.action == actions[draw]
  {
    if u > epsilon && IsValidState(s) then
      var best := GetBestAction(Q, s, actions, draw);
      Selection(best.action, if best.status == InvalidStateIndex then InvalidStateIndex else Ok)
    else
      Selection(GetRandomAction(actions, draw), Ok)
  }

  /** An invalid index is reported as Ok by epsilon-greedy, unlike the two
      other policies. */
  lemma EpsilonGreedyHidesInvalidIndex(Q: array2<real>, actions: seq<int>, epsilon: real,
                                       u: real, draw: int)
    requires 0 <= draw < |actions| && 0.0 <= u < 1.0
    ensures !IsValidState(STATE_SPACE_IND_MAX + 1)
    ensures EpsilonGreedy(Q, STATE_SPACE_IND_MAX + 1, actions, epsilon, u, draw).status == Ok
    ensures GetBestAction(Q, STATE_SPACE_IND_MAX + 1, actions, draw).status == InvalidStateIndex
  {
  }

  /** With epsilon >= 1 every draw explores. */
  lemma EpsilonOneAlwaysExplores(Q: array2<real>, s: int, actions: seq<int>, epsilon: real,
                                 u: real, draw: int)
    requires 0 <= draw < |actions| && 0.0 <= u < 1.0
    requires epsilon >= 1.0
    ensures EpsilonGreedy(Q, s, actions, epsilon, u, draw) == Selection(actions[draw], Ok)
  {
  }

  /** With epsilon = 0 every draw but u = 0 exploits on a valid index; the
      comparison is strict, so u = 0 explores. */
  lemma EpsilonZeroExploits(Q: array2<real>, s: int, actions: seq<int>, u: real, draw: int)
    requires u > 0.0 ==> Fits(Q, s, actions)
    requires 0 <= draw < |actions| && 0.0 <= u < 1.0
    requires IsValidState(s)
    ensures u > 0.0 ==>
      EpsilonGreedy(Q, s, actions, 0.0, u, draw) == GetBestAction(Q, s, actions, draw)
    ensures u == 0.0 ==>
      EpsilonGreedy(Q, s, actions, 0.0, u, draw) == Selection(actions[draw], Ok)
  {
  }

  /** Epsilon-greedy with the status the other policies report: the same
      action, but InvalidStateIndex whenever the index fails the guard. */
  function EpsilonGreedyReporting(Q: array2<real>, s: int, actions: seq<int>, epsilon: real,
                                  u: real, draw: int): (r: Selection)
    reads Q
    requires u > epsilon ==> Fits(Q, s, actions)
    requires 0 <= draw < |actions|
    requires 0.0 <= u < 1.0
    ensures r.status == (if IsValidState(s) then Ok else InvalidStateIndex)
    ensures r.action == EpsilonGreedy(Q, s, actions, epsilon, u, draw).action
    ensures !IsValidState(s) ==> r == GetBestAction(Q, s, actions, draw)
  {
    if u > epsilon && IsValidState(s) then
      GetBestAction(Q, s, actions, draw)
    else
      Selection(GetRandomAction(actions, draw), if IsValidState(s) then Ok else InvalidStateIndex)
  }

  /** One of the three threshold tests holds: action 0, 1 or 2 is sampled. */
  predicate Sampled(P: seq<Float>, rnd: real) {
    && |P| >= 1
    && (|| GreaterThan(P[0], rnd)
        || (|P| >= 2 && AtMost(P[0], rnd) && GreaterThan(Add(P[0], P[1]), rnd))
        || (|P| >= 2 && AtMost(Add(P[0], P[1]), rnd)))
  }

  /** What softmax selection asks of its caller on a valid index: the index
      names a non-empty row of Q (the row is read to build P, and an empty P
      fails either in argmax or at `P[0]`); P has one entry per column; a
      second entry exists when the first threshold test fails on a sampled
      distribution (reading `P[1]` raises IndexError otherwise); and the
      first arg-max column names an action whenever greedy selection is
      called, i.e. whenever P is cold, has a NaN or samples nothing. */
  predicate SoftMaxFits(Q: array2<real>, s: int, actions: seq<int>, T: real,
                        P: seq<Float>, rnd: real)
    reads Q
  {
    IsValidState(s) ==>
      && s < Q.Length0 && 0 < Q.Length1
      && |P| == Q.Length1
      && (T < T_MIN || NaN in P || |P| >= 2 || GreaterThan(P[0], rnd))
      && ((T < T_MIN || NaN in P || !Sampled(P, rnd)) ==> FirstArgMax(Row(Q, s)) < |actions|)
  }

  /** A NaN-free distribution that can be read where the tests read it
      always samples; so greedy selection, and with it the arg-max demand of
      SoftMaxFits, is reached only when P is cold or has a NaN. */
  lemma WarmDistributionSamples(P: seq<Float>, rnd: real)
    requires |P| >= 1 && NaN !in P
    requires |P| >= 2 || GreaterThan(P[0], rnd)
    ensures Sampled(P, rnd)
  {
    assert P[0] in P;
    if |P| >= 2 {
      assert P[1] in P;
    }
  }

  /** Boltzmann selection. P is the distribution the source computes from
      row s and T. Cold (T < T_MIN) or NaN-bearing distributions fall back to
      greedy selection; otherwise rnd is compared against the cumulative
      thresholds P[0] and P[0] + P[1], and a fourth, error branch is kept
      for the case where no threshold test holds. */
  function SoftMaxSelection(Q: array2<real>, s: int, actions: seq<int>, T: real,
                            P: seq<Float>, rnd: real, draw: int): (r: Selection)
    reads Q
    requires SoftMaxFits(Q, s, actions, T, P, rnd) && 0 <= draw < |actions|
    requires 0.0 <= rnd < 1.0
    ensures !IsValidState(s) ==> r == Selection(actions[draw], InvalidStateIndex)
    ensures IsValidState(s) ==> r.status != InvalidStateIndex
    ensures IsValidState(s) && (T < T_MIN || NaN in P) ==>
      r == GetBestAction(Q, s, actions, draw)
  {
    if IsValidState(s) then
      if T < T_MIN || NaN in P then
        var best := GetBestAction(Q, s, actions, draw);
        Selection(best.action, if best.status == InvalidStateIndex then InvalidStateIndex else Ok)
      else if GreaterThan(P[0], rnd) then
        Selection(0, Ok)
      else if AtMost(P[0], rnd) && GreaterThan(Add(P[0], P[1]), rnd) then
        Selection(1, Ok)
      else if AtMost(Add(P[0], P[1]), rnd) then
        Selection(2, Ok)
      else
        var best := GetBestAction(Q, s, actions, draw);
        Selection(best.action,
                  if best.status == InvalidStateIndex then InvalidStateIndex
                  else DistributionError(P, rnd, Row(Q, s)))
    else
      Selection(GetRandomAction(actions, draw), InvalidStateIndex)
  }

  /** On a sampled distribution (whose entries, being probabilities, are
      non-negative) the three threshold tests partition the draws: action 0
      below P[0], action 1 in [P[0], P[0] + P[1]), action 2 from P[0] + P[1]
      on; so the distribution-error branch is never taken. */
  lemma SoftMaxThresholds(Q: array2<real>, s: int, actions: seq<int>, T: real,
                          P: seq<Float>, rnd: real, draw: int)
    requires SoftMaxFits(Q, s, actions, T, P, rnd) && 0 <= draw < |actions|
    requires 0.0 <= rnd < 1.0
    requires IsValidState(s) && T >= T_MIN && NaN !in P && |P| >= 2
    requires forall i :: 0 <= i < |P| && P[i].Num? ==> 0.0 <= P[i].value
    ensures P[0].Num? && P[1].Num?
    ensures var r := SoftMaxSelection(Q, s, actions, T, P, rnd, draw);
      && r.status == Ok
      && 0 <= r.action <= 2
      && (r.action == 0 <==> rnd < P[0].value)
      && (r.action == 1 <==> P[0].value <= rnd < P[0].value + P[1].value)
      && (r.action == 2 <==> P[0].value + P[1].value <= rnd)
  {
    assert P[0] in P && P[1] in P;
  }

  /** On a one-column table the Boltzmann distribution is [1.0]: every draw
      in [0, 1) lies below it, so the call is admissible whatever the
      actions are, samples action 0 with Ok, and never reads `P[1]`. */
  lemma SoftMaxSingleColumn(Q: array2<real>, s: int, actions: seq<int>, T: real,
                            rnd: real, draw: int)
    requires IsValidState(s) && s < Q.Length0 && Q.Length1 == 1
    requires T >= T_MIN && 0.0 <= rnd < 1.0 && 0 <= draw < |actions|
    ensures SoftMaxFits(Q, s, actions, T, [Num(1.0)], rnd)
    ensures SoftMaxSelection(Q, s, actions, T, [Num(1.0)], rnd, draw) == Selection(0, Ok)
  {
    assert NaN !in [Num(1.0)];
  }

  /** Whatever the inputs, softmax selection never reports a distribution
      error: NaN is filtered out before the threshold tests. */
  lemma SoftMaxNeverReportsDistributionError(Q: array2<real>, s: int, actions: seq<int>, T: real,
                                             P: seq<Float>, rnd: real, draw: int)
    requires SoftMaxFits(Q, s, actions, T, P, rnd) && 0 <= draw < |actions|
    requires 0.0 <= rnd < 1.0
    ensures !SoftMaxSelection(Q, s, actions, T, P, rnd, draw).status.DistributionError?
  {
  }

  /** Below the minimum temperature softmax selection is greedy selection,
      whatever P and rnd are. */
  lemma SoftMaxColdIsGreedy(Q: array2<real>, s: int, actions: seq<int>, T: real,
                            P: seq<Float>, rnd: real, draw: int, j: int)
    requires SoftMaxFits(Q, s, actions, T, P, rnd) && 0 <= draw < |actions|
    requires 0.0 <= rnd < 1.0
    requires IsValidState(s) && T < T_MIN && IsFirstMax(Row(Q, s), j) && j < |actions|
    ensures SoftMaxSelection(Q, s, actions, T, P, rnd, draw) == Selection(actions[j], Ok)
  {
    BestActionIsFirstMax(Q, s, actions, draw, j);
  }

  /** On an index outside the guard every policy returns one of the actions;
      greedy and softmax selection say InvalidStateIndex. */
  lemma InvalidIndexDegrades(Q: array2<real>, s: int, actions: seq<int>, epsilon: real,
                             u: real, T: real, P: seq<Float>, rnd: real, draw: int)
    requires !IsValidState(s) && 0 <= draw < |actions|
    requires 0.0 <= u < 1.0 && 0.0 <= rnd < 1.0
    ensures var g := GetBestAction(Q, s, actions, draw);
      g.action in actions && g.status == InvalidStateIndex
    ensures var e := EpsilonGreedy(Q, s, actions, epsilon, u, draw);
      e.action in actions && e.status == Ok
    ensures var m := SoftMaxSelection(Q, s, actions, T, P, rnd, draw);
      m.action in actions && m.status == InvalidStateIndex
  {
  }
}
