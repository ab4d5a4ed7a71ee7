/** Python's built-in `round(x)` on a float (no `ndigits`): the nearest integer,
    ties going to the even neighbour. A NaN argument raises ValueError; that case
    is handled by the callers, which hold NaN as `None`. */
module PyNum {

  function RoundHalfEven(x: real): (r: int)
    ensures (r as real) - 0.5 <= x <= (r as real) + 0.5
    ensures (x == (r as real) + 0.5 || x == (r as real) - 0.5) ==> r % 2 == 0
  {
    var f := x.Floor;
    var d := x - (f as real);
    if d < 0.5 then f
    else if d > 0.5 then f + 1
    else if f % 2 == 0 then f
    else f + 1
  }

  /** The two properties above pin the result down: any integer meeting them is the
      one `round` returns. */
  lemma RoundHalfEvenUnique(x: real, n: int)
    requires (n as real) - 0.5 <= x <= (n as real) + 0.5
    requires (x == (n as real) + 0.5 || x == (n as real) - 0.5) ==> n % 2 == 0
    ensures RoundHalfEven(x) == n
  {
    var r := RoundHalfEven(x);
    assert r - 1 <= n <= r + 1;
  }
}
