/** Facts about real arithmetic that the Q-learning update and the reward
    both rely on. */
module Arith {

  /** The sign of a product. */
  lemma ProductSign(x: real, y: real)
    ensures 0.0 <= x && 0.0 <= y ==> 0.0 <= x * y
    ensures 0.0 < x && y < 0.0 ==> x * y < 0.0
  {
  }
}
