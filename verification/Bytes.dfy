/** Bytes and the numbers they spell. */
module Bytes {
  type byte = b: int | 0 <= b < 256

  function Zeros(n: nat): (zs: seq<byte>)
    ensures |zs| == n && forall i :: 0 <= i < n ==> zs[i] == 0
  {
    seq(n, i => 0)
  }

  /** n in k bytes, most significant first. */
  function BigEndian(n: nat, k: nat): (bs: seq<byte>)
    ensures |bs| == k
    decreases k
  {
    if k == 0 then [] else BigEndian(n / 256, k - 1) + [n % 256]
  }

  function ReadBigEndian(bs: seq<byte>): nat {
    if bs == [] then 0 else 256 * ReadBigEndian(bs[..|bs| - 1]) + bs[|bs| - 1] as nat
  }

  function Pow256(k: nat): (p: nat)
    ensures p > 0
  {
    if k == 0 then 1 else 256 * Pow256(k - 1)
  }

  /** Writing drops what does not fit the k bytes. */
  lemma {:induction false} BigEndianReads(n: nat, k: nat)
    ensures ReadBigEndian(BigEndian(n, k)) == n % Pow256(k)
    decreases k
  {
    if k > 0 {
      BigEndianReads(n / 256, k - 1);
      var bs := BigEndian(n, k);
      assert bs[..|bs| - 1] == BigEndian(n / 256, k - 1);
      LowDigit(n, Pow256(k - 1));
    }
  }

  /** Byte i counts the powers of 256 from the most significant one down. */
  lemma {:induction false} BigEndianByte(n: nat, k: nat, i: nat)
    requires i < k
    ensures BigEndian(n, k)[i] == n / Pow256(k - 1 - i) % 256
    decreases k
  {
    if i < k - 1 {
      BigEndianByte(n / 256, k - 1, i);
      QuotientTwice(n, Pow256(k - 2 - i));
    }
  }

  lemma QuotientTwice(n: nat, p: nat)
    requires p > 0
    ensures n / 256 / p == n / (256 * p)
  {
    var q, r := n / 256 / p, n / 256 % p;
    assert n == (256 * p) * q + (256 * r + n % 256);
    Remainder(n, 256 * p, q, 256 * r + n % 256);
    SameQuotient(n, 256 * p, q, 256 * r + n % 256);
  }

  lemma SameQuotient(n: nat, m: nat, q: nat, r: nat)
    requires r < m && n == m * q + r && n % m == r
    ensures n / m == q
  {
    NoMultiple(m, q - n / m);
  }

  lemma LowDigit(n: nat, p: nat)
    requires p > 0
    ensures n % (256 * p) == 256 * ((n / 256) % p) + n % 256
  {
    var a, b := n / 256, n % 256;
    var q, r := a / p, a % p;
    assert n == 256 * p * q + (256 * r + b);
    Remainder(n, 256 * p, q, 256 * r + b);
  }

  lemma Remainder(n: nat, m: nat, q: nat, r: nat)
    requires r < m && n == m * q + r
    ensures n % m == r
  {
    var d := q - n / m;
    assert m * d == m * q - m * (n / m);
    NoMultiple(m, d);
  }

  lemma NoMultiple(m: int, d: int)
    requires -m < m * d < m
    ensures d == 0
  {
    if d > 0 {
      AtLeastOnce(m, d);
    } else if d < 0 {
      AtLeastOnce(m, -d);
    }
  }

  lemma AtLeastOnce(m: int, k: int)
    requires m > 0 && k > 0
    ensures m * k >= m
  {
  }

  lemma {:induction false} ReadBound(bs: seq<byte>)
    ensures ReadBigEndian(bs) < Pow256(|bs|)
  {
    if bs != [] {
      ReadBound(bs[..|bs| - 1]);
    }
  }
}
