/** 32-bit signed integers with wrap-around, as values in int. */
module Int32 {

  const TWO31 := 0x8000_0000
  const TWO32 := 0x1_0000_0000

  /** The 32-bit two's complement value congruent to x. */
  function Wrap(x: int): (w: int)
    ensures -TWO31 <= w < TWO31
    ensures (w - x) % TWO32 == 0
  {
    var m := x % TWO32;
    if m < TWO31 then m else m - TWO32
  }

  lemma WrapUnique(x: int, w: int)
    requires -TWO31 <= w < TWO31 && (w - x) % TWO32 == 0
    ensures Wrap(x) == w
  {
    var q := (w - x) / TWO32;
    assert x == w - q * TWO32;
    assert x % TWO32 == w % TWO32;
  }

  /** Wrapping a summand early does not change the wrapped sum. */
  lemma WrapSum(a: int, b: int)
    ensures Wrap(a + Wrap(b)) == Wrap(a + b)
  {
    var q := (Wrap(b) - b) / TWO32;
    assert Wrap(b) == b + q * TWO32;
    WrapUnique(a + b, Wrap(a + Wrap(b)));
  }
}
