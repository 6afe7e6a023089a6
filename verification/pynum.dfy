/** Python's numeric built-ins on exact reals: `round` (half to even),
    `math.ceil`, `math.floor` and the truncating `int()` conversion. */
module PyNum {

  /** `math.floor` */
  function Floor(x: real): (r: int)
    ensures r as real <= x < r as real + 1.0
  {
    x.Floor
  }

  /** `math.ceil` */
  function Ceil(x: real): (r: int)
    ensures x <= r as real < x + 1.0
  {
    if x.Floor as real == x then x.Floor else x.Floor + 1
  }

  /** `int()` on a float: truncation toward zero. */
  function Trunc(x: real): (r: int)
    ensures 0.0 <= x ==> r == Floor(x)
    ensures x < 0.0 ==> r == -Floor(-x)
  {
    if x >= 0.0 then x.Floor else -((-x).Floor)
  }

  /** Python's built-in `round` with one argument: nearest integer, ties to the even one. */
  function Round(x: real): (r: int)
    ensures x - 0.5 <= r as real <= x + 0.5
    ensures r as real == x - 0.5 || r as real == x + 0.5 ==> r % 2 == 0
  {
    var f := x.Floor;
    var d := x - f as real;
    if d < 0.5 then f
    else if d > 0.5 then f + 1
    else if f % 2 == 0 then f
    else f + 1
  }

  predicate IsIntegral(x: real)
  {
    x.Floor as real == x
  }

  /** Rounding an integral value gives it back, and only integral values are fixed points. */
  lemma RoundFixesIntegral(x: real)
    ensures Round(x) as real == x <==> IsIntegral(x)
  {
    if IsIntegral(x) {
      assert x - x.Floor as real == 0.0;
    }
  }

  lemma RoundOfInt(n: int)
    ensures Round(n as real) == n
  {
    RoundFixesIntegral(n as real);
  }

  /** `int(x) > 0` holds exactly when x is at least one. */
  lemma TruncPositive(x: real)
    ensures Trunc(x) > 0 <==> x >= 1.0
  {
  }

  function Abs(x: real): (r: real)
    ensures r >= 0.0 && (r == x || r == -x)
  {
    if x < 0.0 then -x else x
  }
}
