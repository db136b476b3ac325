/** Option, 32-bit integer helpers and clamping shared by every page. */
module Base {

  datatype Option<+T> = None | Some(value: T)

  const Int32Min: int := -0x8000_0000
  const Int32Max: int := 0x7FFF_FFFF
  const TwoTo32: int := 0x1_0000_0000

  /** The values of C#'s `int`. */
  predicate IsInt32(x: int) {
    Int32Min <= x <= Int32Max
  }

  /** The result of C#'s unchecked `int` arithmetic on the exact value `x`. */
  function Wrap32(x: int): (r: int)
    ensures IsInt32(r)
    ensures IsInt32(x) ==> r == x
    ensures exists k: int :: r == x + k * TwoTo32
  {
    var m := (x - Int32Min) % TwoTo32;
    var k := -((x - Int32Min) / TwoTo32);
    assert m + Int32Min == x + k * TwoTo32;
    assert IsInt32(x) ==> (x - Int32Min) / TwoTo32 == 0;
    m + Int32Min
  }

  function Min(a: int, b: int): int {
    if a <= b then a else b
  }

  function Max(a: int, b: int): int {
    if a >= b then a else b
  }

  /** `Math.Max(lo, Math.Min(x, hi))`. */
  function Clamp(x: int, lo: int, hi: int): (r: int)
    ensures lo <= r
    ensures lo <= hi ==> r <= hi
    ensures lo <= x <= hi ==> r == x
    ensures x < lo ==> r == lo
    ensures lo <= hi < x ==> r == hi
  {
    Max(lo, Min(x, hi))
  }
}
