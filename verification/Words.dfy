/** 32-bit words as bit strings, least significant bit first, and the numbers that JavaScript computes with
    in their place. */
module Words {
  import opened Int32

  type Word = w: seq<bool> | |w| == 32 witness seq(32, i => false)

  function Pow2(k: nat): (p: nat)
    ensures p > 0
  {
    if k == 0 then 1 else 2 * Pow2(k - 1)
  }

  function Val(bits: seq<bool>): nat {
    if bits == [] then 0 else (if bits[0] then 1 else 0) + 2 * Val(bits[1..])
  }

  function BitsOf(n: nat, k: nat): (bits: seq<bool>)
    ensures |bits| == k
    decreases k
  {
    if k == 0 then [] else [n % 2 == 1] + BitsOf(n / 2, k - 1)
  }

  lemma {:induction false} ValOfBits(n: nat, k: nat)
    requires n < Pow2(k)
    ensures Val(BitsOf(n, k)) == n
    decreases k
  {
    if k > 0 {
      ValOfBits(n / 2, k - 1);
      assert BitsOf(n, k)[1..] == BitsOf(n / 2, k - 1);
    }
  }

  lemma {:induction false} BitsOfVal(bits: seq<bool>)
    ensures Val(bits) < Pow2(|bits|)
    ensures BitsOf(Val(bits), |bits|) == bits
  {
    if bits != [] {
      BitsOfVal(bits[1..]);
      assert bits == [bits[0]] + bits[1..];
    }
  }

  lemma Pow2Of32()
    ensures Pow2(32) == TWO32
  {
    assert Pow2(8) == 256;
    assert Pow2(16) == 0x10000;
    assert Pow2(24) == 0x1000000;
  }

  // ---- Words and numbers ----

  /** The 32 bits of a number, as ToUint32 and ToInt32 take them. */
  function ToWord(x: int): Word {
    BitsOf(x % TWO32, 32)
  }

  /** The unsigned and the signed number of a word. */
  function Unsigned(w: Word): nat {
    Val(w)
  }

  function Signed(w: Word): int {
    Wrap(Val(w))
  }

  lemma UnsignedOf(x: int)
    ensures Unsigned(ToWord(x)) == x % TWO32
  {
    Pow2Of32();
    ValOfBits(x % TWO32, 32);
  }

  lemma WordOf(w: Word)
    ensures Unsigned(w) < TWO32
    ensures ToWord(Unsigned(w)) == w && ToWord(Signed(w)) == w
  {
    Pow2Of32();
    BitsOfVal(w);
    var n := Val(w);
    assert n % TWO32 == n;
    Congruent(Wrap(n), n);
  }

  lemma Congruent(x: int, y: int)
    requires (x - y) % TWO32 == 0
    ensures x % TWO32 == y % TWO32
  {
    var q := (x - y) / TWO32;
    assert x == y + TWO32 * q;
  }

  /** Two numbers with the same remainder are the same word. */
  lemma WrapWord(x: int)
    ensures ToWord(Wrap(x)) == ToWord(x)
  {
    Congruent(Wrap(x), x);
  }

  /** Addition modulo 2^32. */
  function Add(a: Word, b: Word): Word {
    ToWord(Unsigned(a) + Unsigned(b))
  }

  lemma SumWord(x: int, y: int)
    ensures ToWord(x + y) == Add(ToWord(x), ToWord(y))
  {
    hide BitsOf, Val;
    UnsignedOf(x);
    UnsignedOf(y);
    assert (x + y - (x % TWO32 + y % TWO32)) == TWO32 * (x / TWO32 + y / TWO32);
    Congruent(x + y, x % TWO32 + y % TWO32);
  }

  // ---- Operations on bit strings ----

  function And(a: Word, b: Word): Word {
    seq(32, i requires 0 <= i < 32 => a[i] && b[i])
  }

  function Or(a: Word, b: Word): Word {
    seq(32, i requires 0 <= i < 32 => a[i] || b[i])
  }

  function Xor(a: Word, b: Word): Word {
    seq(32, i requires 0 <= i < 32 => a[i] != b[i])
  }

  function Not(a: Word): Word {
    seq(32, i requires 0 <= i < 32 => !a[i])
  }

  function ShiftRight(a: Word, n: nat): Word {
    seq(32, i requires 0 <= i < 32 => i + n < 32 && a[i + n])
  }

  function ShiftLeft(a: Word, n: nat): Word {
    seq(32, i requires 0 <= i < 32 => n <= i && a[i - n])
  }

  /** Every bit moves n places down, the low ones to the top. */
  function RotateRight(a: Word, n: nat): Word {
    seq(32, i requires 0 <= i < 32 => a[(i + n) % 32])
  }

  lemma ShiftsRotate(a: Word, n: nat)
    requires 0 < n < 32
    ensures Or(ShiftRight(a, n), ShiftLeft(a, 32 - n)) == RotateRight(a, n)
  {
    var s, r := Or(ShiftRight(a, n), ShiftLeft(a, 32 - n)), RotateRight(a, n);
    forall i | 0 <= i < 32 ensures s[i] == r[i] {
      if i + n < 32 {
        assert (i + n) % 32 == i + n;
      } else {
        assert (i + n) % 32 == i - (32 - n);
      }
    }
  }

  // ---- JavaScript's operators: on numbers, through their 32 bits ----

  function JsAnd(x: int, y: int): int {
    Signed(And(ToWord(x), ToWord(y)))
  }

  function JsOr(x: int, y: int): int {
    Signed(Or(ToWord(x), ToWord(y)))
  }

  function JsXor(x: int, y: int): int {
    Signed(Xor(ToWord(x), ToWord(y)))
  }

  function JsNot(x: int): int {
    Signed(Not(ToWord(x)))
  }

  function JsShiftLeft(x: int, n: nat): int {
    Signed(ShiftLeft(ToWord(x), n % 32))
  }

  /** >>> */
  function JsShiftRight(x: int, n: nat): int {
    Unsigned(ShiftRight(ToWord(x), n % 32))
  }

  lemma OperatorWords(x: int, y: int)
    ensures ToWord(JsAnd(x, y)) == And(ToWord(x), ToWord(y))
    ensures ToWord(JsOr(x, y)) == Or(ToWord(x), ToWord(y))
    ensures ToWord(JsXor(x, y)) == Xor(ToWord(x), ToWord(y))
    ensures ToWord(JsNot(x)) == Not(ToWord(x))
  {
    hide ToWord, Signed, And, Or, Xor, Not;
    WordOf(And(ToWord(x), ToWord(y)));
    WordOf(Or(ToWord(x), ToWord(y)));
    WordOf(Xor(ToWord(x), ToWord(y)));
    WordOf(Not(ToWord(x)));
  }

  lemma ShiftWords(x: int, n: nat)
    requires n < 32
    ensures ToWord(JsShiftLeft(x, n)) == ShiftLeft(ToWord(x), n)
    ensures ToWord(JsShiftRight(x, n)) == ShiftRight(ToWord(x), n)
  {
    hide ToWord, Signed, Unsigned, ShiftLeft, ShiftRight;
    WordOf(ShiftLeft(ToWord(x), n));
    WordOf(ShiftRight(ToWord(x), n));
  }
}
