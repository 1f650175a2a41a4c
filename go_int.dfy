/**
 * Go's `int64`: the type of `UpdReq.AddScr` and `Entry.Scr` in main.go.
 * Go's `+` on int64 wraps around in two's complement; the model writes
 * that out instead of relying on Dafny's unbounded `int`.
 */
module GoInt {
  const Min: int := -0x8000_0000_0000_0000
  const Max: int := 0x7FFF_FFFF_FFFF_FFFF
  const Modulus: int := 0x1_0000_0000_0000_0000

  type int64 = x: int | Min <= x <= Max

  /** The int64 that a mathematical integer wraps around to. */
  function Wrap(x: int): (r: int64)
    ensures Min <= x <= Max ==> r == x
    ensures (x - r) % Modulus == 0
  {
    (x - Min) % Modulus + Min
  }

  /** Go's `a + b` on two int64 values. */
  function Add(a: int64, b: int64): (r: int64)
    ensures Min <= a + b <= Max ==> r == a + b
    ensures a + b > Max ==> r == a + b - Modulus
    ensures a + b < Min ==> r == a + b + Modulus
  {
    Wrap(a + b)
  }

  /** Wrapping an intermediate sum does not change the final wrapped total. */
  lemma AddWrapped(a: int, b: int)
    ensures Wrap(Wrap(a) + b) == Wrap(a + b)
  {
  }
}
