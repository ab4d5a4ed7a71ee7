/** Squares of reals, shared by the geometric parts of the model (the circle-edge
    projection and the wind and current vectors). */
module Squares {

  function Id(a: real): real { a }

  /** `a ** 2`. It is written as a product of two distinct terms because the solver
      reasons about those more reliably than about a variable times itself. */
  function Sq(a: real): real { a * Id(a) }

  lemma SqNonNeg(a: real)
    ensures Sq(a) >= 0.0
    ensures Sq(a) == 0.0 <==> a == 0.0
  {
  }

  lemma SqMul(k: real, v: real)
    ensures Sq(k * v) == Sq(k) * Sq(v)
  {
  }

  lemma SqNeg(a: real)
    ensures Sq(-a) == Sq(a)
  {
  }
}
