/** `int(np.round(v))` on a real: the nearest integer, ties going to the
    even neighbour ("banker's rounding"). */
module Rounding {

  /** `n` is a nearest integer to `r`, and the even one when `r` lies
      exactly half way between two integers. */
  predicate NearestTiesEven(r: real, n: int) {
    && (n as real) - 0.5 <= r <= (n as real) + 0.5
    && (r == (n as real) - 0.5 || r == (n as real) + 0.5 ==> n % 2 == 0)
  }

  /** Round half to even, computed from the floor of `r` and the fraction
      left over. */
  function RoundByFloor(r: real): int {
    var f := r.Floor;
    var frac := r - f as real;
    if frac < 0.5 then f
    else if frac > 0.5 then f + 1
    else if f % 2 == 0 then f
    else f + 1
  }

  /** The floor-based computation rounds half to even. */
  lemma RoundByFloorCorrect(r: real)
    ensures NearestTiesEven(r, RoundByFloor(r))
  {
  }

  /** No two integers are both nearest-with-ties-to-even for one real. */
  lemma NearestTiesEvenUnique(r: real, n: int, m: int)
    requires NearestTiesEven(r, n) && NearestTiesEven(r, m)
    ensures n == m
  {
  }

  /** Every real has exactly one such integer. */
  lemma NearestTiesEvenExistsUnique(r: real)
    ensures exists n :: NearestTiesEven(r, n)
    ensures forall n, m :: NearestTiesEven(r, n) && NearestTiesEven(r, m) ==> n == m
  {
    RoundByFloorCorrect(r);
    forall n, m | NearestTiesEven(r, n) && NearestTiesEven(r, m)
      ensures n == m
    {
      NearestTiesEvenUnique(r, n, m);
    }
  }

  /** Round to nearest, half to even: the integer the predicate describes. */
  function RoundHalfEven(r: real): (n: int)
    ensures NearestTiesEven(r, n)
  {
    NearestTiesEvenExistsUnique(r);
    var n :| NearestTiesEven(r, n);
    n
  }

  /** The specification and the floor-based computation agree. */
  lemma RoundHalfEvenByFloor(r: real)
    ensures RoundHalfEven(r) == RoundByFloor(r)
  {
    RoundByFloorCorrect(r);
    NearestTiesEvenUnique(r, RoundHalfEven(r), RoundByFloor(r));
  }

  /** Integers round to themselves. */
  lemma RoundIntegral(k: int)
    ensures RoundHalfEven(k as real) == k
  {
    NearestTiesEvenUnique(k as real, RoundHalfEven(k as real), k);
  }

  /** A real rounds to at least 1 exactly when it exceeds one half (one
      half itself rounds to the even 0). */
  lemma RoundAtLeastOne(r: real)
    ensures RoundHalfEven(r) >= 1 <==> r > 0.5
  {
  }

  /** Non-negative reals round to non-negative integers. */
  lemma RoundMonotoneAtZero(r: real)
    ensures r >= 0.0 ==> RoundHalfEven(r) >= 0
  {
  }
}
