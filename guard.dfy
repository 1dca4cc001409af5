/** The index bounds shared by every action-selection policy and by the
    Q-table update, the typed status those operations report, and the
    values a float64 Boltzmann probability can take. */
module Guard {

  const STATE_SPACE_IND_MAX: int := 144 - 1
  const STATE_SPACE_IND_MIN: int := 1 - 1
  const ACTIONS_IND_MAX: int := 2
  const ACTIONS_IND_MIN: int := 0

  /** The guard every policy and the update test before reading a row. */
  predicate IsValidState(s: int) {
    STATE_SPACE_IND_MIN <= s <= STATE_SPACE_IND_MAX
  }

  /** A float64 that is either a number or not-a-number. A Boltzmann
      probability exp(x) / sum is never infinite: an overflowing numerator
      makes the sum infinite too, and inf / inf is NaN. */
  datatype Float = Num(value: real) | NaN

  /** IEEE addition restricted to these values: NaN absorbs. */
  function Add(a: Float, b: Float): (r: Float)
    ensures r.Num? <==> a.Num? && b.Num?
    ensures r.Num? ==> r.value == a.value + b.value
  {
    if a.Num? && b.Num? then Num(a.value + b.value) else NaN
  }

  /** `a > x`; every comparison with NaN is false. */
  predicate GreaterThan(a: Float, x: real) {
    a.Num? && a.value > x
  }

  /** `a <= x`; every comparison with NaN is false. */
  predicate AtMost(a: Float, x: real) {
    a.Num? && a.value <= x
  }

  /** The outcome the source reports as a status string ("... => OK",
      "... => INVALID STATE INDEX", or the Boltzmann distribution error
      message carrying P, rnd and the Q row). */
  datatype Status =
    | Ok
    | InvalidStateIndex
    | DistributionError(p: seq<Float>, rnd: real, row: seq<real>)
}
