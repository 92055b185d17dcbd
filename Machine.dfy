/** Two's-complement integer widths of the C# runtime (`int`, `long`) and unchecked wrap-around. */
module Machine {

  const TwoTo31: int := 0x8000_0000
  const TwoTo32: int := 0x1_0000_0000
  const TwoTo63: int := 0x8000_0000_0000_0000
  const TwoTo64: int := 0x1_0000_0000_0000_0000

  predicate IsInt32(x: int) { -TwoTo31 <= x < TwoTo31 }
  predicate IsInt64(x: int) { -TwoTo63 <= x < TwoTo63 }

  type Int32 = x: int | -TwoTo31 <= x < TwoTo31
  type Int64 = x: int | -TwoTo63 <= x < TwoTo63

  /** The value an unchecked C# `int` operation yields for the mathematical result `x`. */
  function Wrap32(x: int): (r: Int32)
    ensures (r - x) % TwoTo32 == 0
    ensures IsInt32(x) ==> r == x
  {
    (x + TwoTo31) % TwoTo32 - TwoTo31
  }

  /** The value an unchecked C# `long` operation yields for the mathematical result `x`. */
  function Wrap64(x: int): (r: Int64)
    ensures (r - x) % TwoTo64 == 0
    ensures IsInt64(x) ==> r == x
  {
    (x + TwoTo63) % TwoTo64 - TwoTo63
  }

  /** Results that agree modulo 2^32 wrap to the same `int`. */
  lemma Wrap32Congruent(x: int, y: int)
    requires (x - y) % TwoTo32 == 0
    ensures Wrap32(x) == Wrap32(y)
  {
    var k := (x - y) / TwoTo32;
    assert x == y + k * TwoTo32;
    assert (x + TwoTo31) % TwoTo32 == (y + TwoTo31 + k * TwoTo32) % TwoTo32;
  }

  /** Adding back an unchecked difference gives the minuend back, overflow or not. */
  lemma Wrap32AddBack(a: Int32, b: Int32)
    ensures Wrap32(a + Wrap32(b - a)) == b
  {
    var d := Wrap32(b - a);
    assert (a + d - b) % TwoTo32 == 0 by {
      assert a + d - b == d - (b - a);
    }
    Wrap32Congruent(a + d, b);
  }
}
