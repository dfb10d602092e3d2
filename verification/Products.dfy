/** Multiplication of reals under a name, so that proofs unfold it only where they
    mean to. */
module Products {
  function Times(x: real, y: real): real { x * y }

  lemma {:induction false} TimesSum(x: real, a: real, b: real)
    ensures Times(x, a + b) == Times(x, a) + Times(x, b)
  {
  }

  lemma {:induction false} TimesAdd(a: real, b: real, y: real)
    ensures Times(a + b, y) == Times(a, y) + Times(b, y)
  {
  }
}
