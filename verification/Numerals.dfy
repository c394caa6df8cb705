/** Positional numerals, most significant digit first. */
module Numerals {

  function Value(base: nat, ds: seq<nat>): nat {
    if ds == [] then 0 else Value(base, ds[..|ds| - 1]) * base + ds[|ds| - 1]
  }

  predicate AreDigits(base: nat, ds: seq<nat>) {
    forall i :: 0 <= i < |ds| ==> ds[i] < base
  }

  lemma MulPositive(a: nat, b: nat)
    requires a > 0 && b > 0
    ensures a * b > 0
  {
  }

  lemma DivModUnique(base: nat, q: nat, d: nat)
    requires d < base
    ensures (q * base + d) / base == q && (q * base + d) % base == d
  {
    var n := q * base + d;
    Separated(base, n / base, n % base, q, d);
  }

  lemma Separated(base: nat, a: nat, r: nat, b: nat, s: nat)
    requires base * a + r == base * b + s && r < base && s < base
    ensures a == b && r == s
  {
    if a < b {
      MulMonotone(base, a + 1, b);
    } else if b < a {
      MulMonotone(base, b + 1, a);
    }
  }

  lemma MulMonotone(base: nat, a: nat, b: nat)
    requires a <= b
    ensures base * a <= base * b
  {
    assert base * b == base * a + base * (b - a);
  }

  lemma ValueAppend(base: nat, ds: seq<nat>, d: nat)
    ensures Value(base, ds + [d]) == Value(base, ds) * base + d
  {
    assert (ds + [d])[..|ds|] == ds;
  }

  /** One digit more. */
  lemma ValueNext(base: nat, ds: seq<nat>, i: nat)
    requires i < |ds|
    ensures Value(base, ds[..i + 1]) == Value(base, ds[..i]) * base + ds[i]
  {
    assert ds[..i + 1][..i] == ds[..i];
  }

  /** The digits of `n` without leading zeros; none at all for 0. */
  function Digits(base: nat, n: nat): (ds: seq<nat>)
    requires base > 1
    decreases n
  {
    if n == 0 then [] else DivSmaller(base, n); Digits(base, n / base) + [n % base]
  }

  lemma DivSmaller(base: nat, n: nat)
    requires base > 1 && n > 0
    ensures n / base < n && n == (n / base) * base + n % base && n % base < base
  {
    var q := n / base;
    assert n == base * q + n % base;
    if q >= n {
      MulMonotone(q, 2, base);
    }
  }

  lemma {:induction false} DigitsValue(base: nat, n: nat)
    requires base > 1
    ensures AreDigits(base, Digits(base, n))
    ensures Value(base, Digits(base, n)) == n
    ensures n > 0 ==> |Digits(base, n)| > 0 && Digits(base, n)[0] != 0
    decreases n
  {
    if n > 0 {
      DivSmaller(base, n);
      DigitsValue(base, n / base);
      ValueAppend(base, Digits(base, n / base), n % base);
      if n / base == 0 {
        assert Digits(base, n) == [n % base];
      }
    }
  }

  /** Digits without a leading zero are the digits of their value. */
  lemma {:induction false} DigitsUnique(base: nat, ds: seq<nat>)
    requires base > 1 && AreDigits(base, ds) && (ds != [] ==> ds[0] != 0)
    ensures Digits(base, Value(base, ds)) == ds
  {
    if ds != [] {
      var n := |ds| - 1;
      var q := Value(base, ds[..n]);
      DivModUnique(base, q, ds[n]);
      DigitsUnique(base, ds[..n]);
      ValuePositive(base, ds);
      assert ds == ds[..n] + [ds[n]];
    }
  }

  lemma {:induction false} ValuePositive(base: nat, ds: seq<nat>)
    requires base > 0 && ds != [] && ds[0] != 0
    ensures Value(base, ds) > 0
  {
    if |ds| > 1 {
      ValuePositive(base, ds[..|ds| - 1]);
      MulPositive(Value(base, ds[..|ds| - 1]), base);
    }
  }

  /** Leading zeros add nothing. */
  lemma {:induction false} LeadingZeros(base: nat, zeros: seq<nat>, ds: seq<nat>)
    requires forall i :: 0 <= i < |zeros| ==> zeros[i] == 0
    ensures Value(base, zeros + ds) == Value(base, ds)
    decreases |zeros| + |ds|
  {
    if ds != [] {
      LeadingZeros(base, zeros, ds[..|ds| - 1]);
      assert (zeros + ds)[..|zeros + ds| - 1] == zeros + ds[..|ds| - 1];
    } else if zeros != [] {
      LeadingZeros(base, zeros[..|zeros| - 1], []);
      assert zeros + ds == zeros;
      assert zeros[..|zeros| - 1] + [] == zeros[..|zeros| - 1];
    }
  }
}
