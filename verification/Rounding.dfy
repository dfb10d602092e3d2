/** Rounding as the scoring script uses it: what is assumed of a rounding function,
    and that rounding halves to even, which is what R does, satisfies it. */
module Rounding {

  /** What the vote pool needs of a rounding: it is monotone, its results are fixed
      points, and the fixed points are closed under subtraction.  Rounding to
      integers qualifies, whatever it does with halves, and so does not rounding
      at all. */
  ghost predicate IsRounding(round: real -> real) {
    && (forall x, y :: x <= y ==> Monotone(round, x, y))
    && (forall x {:trigger OnGrid(round, round(x))} :: OnGrid(round, round(x)))
    && (forall x, y {:trigger DifferenceOnGrid(round, x, y)} :: OnGrid(round, x) && OnGrid(round, y) ==>
      DifferenceOnGrid(round, x, y))
  }

  predicate Monotone(round: real -> real, x: real, y: real) { round(x) <= round(y) }

  predicate OnGrid(round: real -> real, x: real) { round(x) == x }

  predicate DifferenceOnGrid(round: real -> real, x: real, y: real) { OnGrid(round, x - y) }

  lemma {:induction false} ZeroOnGrid(round: real -> real)
    requires IsRounding(round)
    ensures OnGrid(round, 0.0)
  {
    assert OnGrid(round, round(0.0));
    assert DifferenceOnGrid(round, round(0.0), round(0.0));
  }

  ghost predicate Exact(round: real -> real) {
    forall x {:trigger OnGrid(round, x)} :: OnGrid(round, x)
  }

  lemma {:induction false} ExactIsRounding(round: real -> real)
    requires Exact(round)
    ensures IsRounding(round)
  {
    forall x, y | x <= y ensures Monotone(round, x, y) {
      assert OnGrid(round, x) && OnGrid(round, y);
    }
    forall x ensures OnGrid(round, round(x)) {}
    forall x, y | OnGrid(round, x) && OnGrid(round, y) ensures DifferenceOnGrid(round, x, y) {}
  }

  /** No result is further than one half from its argument. */
  ghost predicate Nearest(round: real -> real) {
    forall x :: -0.5 <= round(x) - x <= 0.5
  }

  function RoundHalfEven(x: real): real {
    var f := x.Floor;
    var d := x - f as real;
    if d < 0.5 || (d == 0.5 && f % 2 == 0) then f as real else (f + 1) as real
  }

  predicate FixesInteger(round: real -> real, k: int) { round(k as real) == k as real }

  /** A rounding to integers: monotone, and the integers are its fixed points. */
  ghost predicate RoundsToIntegers(round: real -> real) {
    && (forall x, y :: x <= y ==> Monotone(round, x, y))
    && (forall x :: round(x) == round(x).Floor as real)
    && (forall k: int :: FixesInteger(round, k))
  }

  /** Every rounding to integers qualifies, however it treats halves and however far
      it rounds. */
  lemma {:induction false} IntegersAreGrid(round: real -> real)
    requires RoundsToIntegers(round)
    ensures IsRounding(round)
  {
    forall x ensures OnGrid(round, round(x)) {
      assert FixesInteger(round, round(x).Floor);
    }
    forall x, y | OnGrid(round, x) && OnGrid(round, y) ensures DifferenceOnGrid(round, x, y) {
      var k, l := x.Floor, y.Floor;
      assert x == k as real && y == l as real;
      assert x - y == (k - l) as real;
      assert FixesInteger(round, k - l);
    }
  }

  /** What R's round does is one of them, and never off by more than one half. */
  lemma {:induction false} HalfEvenIsNearestRounding()
    ensures RoundsToIntegers(RoundHalfEven) && IsRounding(RoundHalfEven) && Nearest(RoundHalfEven)
  {
    forall x, y | x <= y ensures Monotone(RoundHalfEven, x, y) {
      assert x.Floor <= y.Floor;
    }
    forall x ensures RoundHalfEven(x) == RoundHalfEven(x).Floor as real {
    }
    forall k: int ensures FixesInteger(RoundHalfEven, k) {
      assert (k as real).Floor == k;
    }
    IntegersAreGrid(RoundHalfEven);
  }

  /** Which way a half goes: to the even neighbour. */
  lemma {:induction false} HalvesGoToEven(k: int)
    ensures RoundHalfEven(k as real + 0.5) == (if k % 2 == 0 then k else k + 1) as real
  {
    assert (k as real + 0.5).Floor == k;
  }
}
