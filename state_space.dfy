/** The action list and the discretized state space: the Cartesian product
    {0,1,2} x {0,1,2} x {0,1,2,3} x {0,1,2,3}, whose size is the number of
    valid state indices. */
module StateSpace {
  import opened Guard

  /** One discretized configuration of the environment. */
  datatype StateTuple = StateTuple(x1: int, x2: int, x3: int, x4: int)

  /** The four axes of the product. */
  predicate InStateSpace(t: StateTuple) {
    0 <= t.x1 < 3 && 0 <= t.x2 < 3 && 0 <= t.x3 < 4 && 0 <= t.x4 < 4
  }

  const STATE_COUNT: nat := 3 * 3 * 4 * 4

  /** Mixed-radix reading of a position (radices 3, 3, 4, 4). */
  function TupleAt(i: nat): StateTuple {
    var q4 := i / 4;
    var q3 := q4 / 4;
    StateTuple(q3 / 3, q3 % 3, q4 % 4, i % 4)
  }

  /** The position of a tuple in that reading. */
  function PositionOf(t: StateTuple): int {
    ((t.x1 * 3 + t.x2) * 4 + t.x3) * 4 + t.x4
  }

  lemma {:induction false} PositionOfTupleAt(i: nat)
    requires i < STATE_COUNT
    ensures InStateSpace(TupleAt(i)) && PositionOf(TupleAt(i)) == i
  {
    var q4 := i / 4;
    var q3 := q4 / 4;
    assert i == q4 * 4 + i % 4;
    assert q4 == q3 * 4 + q4 % 4;
    assert q3 == (q3 / 3) * 3 + q3 % 3;
    assert q3 < 9;
  }

  lemma {:induction false} TupleAtPositionOf(t: StateTuple)
    requires InStateSpace(t)
    ensures 0 <= PositionOf(t) < STATE_COUNT && TupleAt(PositionOf(t)) == t
  {
    var q3 := t.x1 * 3 + t.x2;
    var q4 := q3 * 4 + t.x3;
    assert PositionOf(t) / 4 == q4 && PositionOf(t) % 4 == t.x4;
    assert q4 / 4 == q3 && q4 % 4 == t.x3;
    assert q3 / 3 == t.x1 && q3 % 3 == t.x2;
  }

  /** The mixed-radix reading is a bijection between [0, STATE_COUNT) and
      the product. */
  lemma EnumerationIsBijective()
    ensures forall i: nat :: i < STATE_COUNT ==>
      InStateSpace(TupleAt(i)) && PositionOf(TupleAt(i)) == i
    ensures forall t :: InStateSpace(t) ==>
      0 <= PositionOf(t) < STATE_COUNT && TupleAt(PositionOf(t)) == t
  {
    forall i: nat | i < STATE_COUNT
      ensures InStateSpace(TupleAt(i)) && PositionOf(TupleAt(i)) == i
    {
      PositionOfTupleAt(i);
    }
    forall t | InStateSpace(t)
      ensures 0 <= PositionOf(t) < STATE_COUNT && TupleAt(PositionOf(t)) == t
    {
      TupleAtPositionOf(t);
    }
  }

  /** The three action indices, each equal to its own position. */
  function CreateActions(): (actions: seq<int>)
    ensures |actions| == ACTIONS_IND_MAX - ACTIONS_IND_MIN + 1
    ensures forall i :: 0 <= i < |actions| ==> actions[i] == ACTIONS_IND_MIN + i
  {
    [0, 1, 2]
  }

  /** The product as an ordered collection. The source materialises a set,
      so its order is the set's iteration order; the contract fixes only
      what that order cannot change: one entry per tuple of the product,
      as many entries as there are valid state indices. */
  function CreateStateSpace(): (space: seq<StateTuple>)
    ensures |space| == STATE_SPACE_IND_MAX - STATE_SPACE_IND_MIN + 1
    ensures forall i, j :: 0 <= i < j < |space| ==> space[i] != space[j]
    ensures forall t :: t in space <==> InStateSpace(t)
  {
    EnumerationIsBijective();
    var space := seq(STATE_COUNT, i requires 0 <= i < STATE_COUNT => TupleAt(i));
    assert forall t :: InStateSpace(t) ==> space[PositionOf(t)] == t;
    space
  }

  /** A state index passes the guard exactly when it addresses an entry of
      the state space. */
  lemma ValidIndexAddressesStateSpace(s: int)
    ensures IsValidState(s) <==> 0 <= s < |CreateStateSpace()|
    ensures IsValidState(s) ==> InStateSpace(CreateStateSpace()[s])
  {
  }
}
