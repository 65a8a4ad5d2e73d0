/** Java's 32-bit `int` arithmetic, written out on unbounded integers. */
module Int32 {

  const Min: int := -0x8000_0000
  const Max: int := 0x7FFF_FFFF
  const Modulus: int := 0x1_0000_0000

  predicate InRange(x: int) {
    Min <= x <= Max
  }

  /** The `int` a Java expression yields when its exact value is `x` (two's complement wrap-around). */
  function Wrap(x: int): (r: int)
    ensures InRange(r)
    ensures (r - x) % Modulus == 0
    ensures InRange(x) ==> r == x
  {
    (x - Min) % Modulus + Min
  }

  /** Java's `/` on `int`: the quotient truncated toward zero (Dafny's `/` is Euclidean). */
  function Quot(a: int, b: int): (q: int)
    requires b != 0
    ensures a >= 0 && b > 0 ==> q == a / b
    ensures a >= 0 && b < 0 ==> q == -(a / -b)
  {
    var n := Abs(a) / Abs(b);
    if (a >= 0) == (b > 0) then n else -n
  }

  function Abs(x: int): nat {
    if x < 0 then -x else x
  }
}
