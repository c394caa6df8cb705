/** Where the constants of SHA-256 come from: the roots of the first 64 primes. */
module Sha256Constants {
  import opened Bytes
  import opened Words
  import opened Sha256

  /** The 64 smallest primes, in ascending order. */
  function Primes(): (ps: seq<nat>)
    ensures |ps| == 64
  {
    PrimeRow0() + PrimeRow1() + PrimeRow2() + PrimeRow3()
  }

  function PrimeRow0(): (ps: seq<nat>)
    ensures |ps| == 16 && forall i :: 0 <= i < 16 ==> 1 < ps[i] <= 53
    ensures forall i, j :: 0 <= i < j < 16 ==> ps[i] < ps[j]
  {
    [2, 3, 5, 7, 11, 13, 17, 19, 23, 29, 31, 37, 41, 43, 47, 53]
  }

  function PrimeRow1(): (ps: seq<nat>)
    ensures |ps| == 16 && forall i :: 0 <= i < 16 ==> 53 < ps[i] <= 131
    ensures forall i, j :: 0 <= i < j < 16 ==> ps[i] < ps[j]
  {
    [59, 61, 67, 71, 73, 79, 83, 89, 97, 101, 103, 107, 109, 113, 127, 131]
  }

  function PrimeRow2(): (ps: seq<nat>)
    ensures |ps| == 16 && forall i :: 0 <= i < 16 ==> 131 < ps[i] <= 223
    ensures forall i, j :: 0 <= i < j < 16 ==> ps[i] < ps[j]
  {
    [137, 139, 149, 151, 157, 163, 167, 173, 179, 181, 191, 193, 197, 199, 211, 223]
  }

  function PrimeRow3(): (ps: seq<nat>)
    ensures |ps| == 16 && forall i :: 0 <= i < 16 ==> 223 < ps[i] <= 311
    ensures forall i, j :: 0 <= i < j < 16 ==> ps[i] < ps[j]
  {
    [227, 229, 233, 239, 241, 251, 257, 263, 269, 271, 277, 281, 283, 293, 307, 311]
  }

  /** Trial division by the primes up to 17. */
  predicate Passes(n: nat) {
    || n == 2 || n == 3 || n == 5 || n == 7 || n == 11 || n == 13 || n == 17
    || (n % 2 != 0 && n % 3 != 0 && n % 5 != 0 && n % 7 != 0 && n % 11 != 0 && n % 13 != 0 && n % 17 != 0)
  }

  lemma SmallFactor(n: nat, d: nat)
    requires 2 <= d <= 17 && n % d == 0 && d < n
    ensures !Passes(n)
  {
    if n <= 17 {
      SmallPrime(n, d);
    } else {
      PrimeFactor(n, d);
    }
  }

  lemma SmallPrime(n: nat, d: nat)
    requires 2 <= d < n <= 17 && n % d == 0
    ensures !Passes(n)
  {
    match n case 2 => case 3 => case 5 => case 7 => case 11 => case 13 => case 17 => case _ =>
  }

  lemma PrimeFactor(n: nat, d: nat)
    requires 2 <= d <= 17 && n % d == 0
    ensures n % 2 == 0 || n % 3 == 0 || n % 5 == 0 || n % 7 == 0 || n % 11 == 0 || n % 13 == 0 || n % 17 == 0
  {
    if d == 4 || d == 6 || d == 8 || d == 10 || d == 12 || d == 14 || d == 16 {
      Multiple(n, d, 2);
    } else if d == 9 || d == 15 {
      Multiple(n, d, 3);
    }
  }

  lemma Factor(n: nat, p: nat, k: nat)
    requires p > 0 && n == p * k
    ensures n % p == 0
  {
    Remainder(n, p, k, 0);
  }

  lemma Multiple(n: nat, d: nat, p: nat)
    requires 0 < p <= d && n % d == 0 && d % p == 0
    ensures n % p == 0
  {
    assert n == d * (n / d) && d == p * (d / p);
    Factor(n, p, (d / p) * (n / d));
  }

  /** Of two factors of a number below 18 * 18 one is at most 17. */
  lemma OneIsSmall(d: nat, q: nat)
    requires d >= 18 && q >= 18
    ensures d * q >= 18 * 18
  {
    assert d * q >= 18 * q;
  }

  lemma OtherFactor(n: nat, d: nat)
    requires d > 0 && n % d == 0
    ensures n == d * (n / d) && (n / d > 0 ==> n % (n / d) == 0)
  {
    if n / d > 0 {
      Remainder(n, n / d, d, 0);
    }
  }

  lemma PassesIffPrime(n: nat)
    requires 2 <= n < 18 * 18
    ensures Passes(n) <==> forall d :: 2 <= d < n ==> n % d != 0
  {
    forall d | 2 <= d < n && n % d == 0
      ensures !Passes(n)
    {
      OtherFactor(n, d);
      var q := n / d;
      if d <= 17 {
        SmallFactor(n, d);
      } else if q <= 17 {
        assert q != 1;
        SmallFactor(n, q);
      } else {
        OneIsSmall(d, q);
      }
    }
  }

  lemma BySix(n: nat)
    ensures n % 2 == 0 || n % 3 == 0 || n == 6 * (n / 6) + 1 || n == 6 * (n / 6) + 5
  {
    var q, r := n / 6, n % 6;
    assert n == 6 * q + r;
    if r == 0 || r == 2 || r == 4 {
      Factor(n, 2, 3 * q + if r == 0 then 0 else if r == 2 then 1 else 2);
    } else if r == 3 {
      Factor(n, 3, 2 * q + 1);
    }
  }

  lemma Low0(n: nat)
    requires 1 < n <= 19
    ensures n in PrimeRow0() <==> Passes(n)
  {
    BySix(n);
    if n <= 10 {
      assert n / 6 <= 1;
    }
  }

  lemma High0(n: nat)
    requires 19 < n <= 53
    ensures n in PrimeRow0() <==> Passes(n)
  {
    BySix(n);
    if n <= 36 {
      assert n / 6 <= 6;
    }
  }

  lemma Low1(n: nat)
    requires 53 < n <= 89
    ensures n in PrimeRow1() <==> Passes(n)
  {
    BySix(n);
    if n <= 71 {
      assert n / 6 <= 11;
    }
  }

  lemma High1(n: nat)
    requires 89 < n <= 131
    ensures n in PrimeRow1() <==> Passes(n)
  {
    BySix(n);
    if n <= 110 {
      assert n / 6 <= 18;
    }
  }

  lemma Low2(n: nat)
    requires 131 < n <= 173
    ensures n in PrimeRow2() <==> Passes(n)
  {
    BySix(n);
    if n <= 152 {
      assert n / 6 <= 25;
    }
  }

  lemma High2(n: nat)
    requires 173 < n <= 223
    ensures n in PrimeRow2() <==> Passes(n)
  {
    BySix(n);
    if n <= 198 {
      assert n / 6 <= 33;
    }
  }

  lemma Low3(n: nat)
    requires 223 < n <= 263
    ensures n in PrimeRow3() <==> Passes(n)
  {
    BySix(n);
    if n <= 243 {
      assert n / 6 <= 40;
    }
  }

  lemma High3(n: nat)
    requires 263 < n <= 311
    ensures n in PrimeRow3() <==> Passes(n)
  {
    BySix(n);
    if n <= 287 {
      assert n / 6 <= 47;
    }
  }

  lemma Sieved0(n: nat)
    requires 1 < n <= 53
    ensures n in PrimeRow0() <==> Passes(n)
  {
    if n <= 19 {
      Low0(n);
    } else {
      High0(n);
    }
  }

  lemma Sieved1(n: nat)
    requires 53 < n <= 131
    ensures n in PrimeRow1() <==> Passes(n)
  {
    if n <= 89 {
      Low1(n);
    } else {
      High1(n);
    }
  }

  lemma Sieved2(n: nat)
    requires 131 < n <= 223
    ensures n in PrimeRow2() <==> Passes(n)
  {
    if n <= 173 {
      Low2(n);
    } else {
      High2(n);
    }
  }

  lemma Sieved3(n: nat)
    requires 223 < n <= 311
    ensures n in PrimeRow3() <==> Passes(n)
  {
    if n <= 263 {
      Low3(n);
    } else {
      High3(n);
    }
  }

  /** The numbers up to 311 that are greater than 1 and have no divisor between 1 and themselves are
      listed in ascending order. */
  lemma FirstPrimes(p: nat)
    requires p <= 311
    ensures p in Primes() <==> 2 <= p && forall d :: 2 <= d < p ==> p % d != 0
  {
    hide Passes, PrimeRow0, PrimeRow1, PrimeRow2, PrimeRow3;
    if 2 <= p {
      PassesIffPrime(p);
      if p <= 53 {
        Sieved0(p);
      } else if p <= 131 {
        Sieved1(p);
      } else if p <= 223 {
        Sieved2(p);
      } else {
        Sieved3(p);
      }
    }
  }

  lemma PrimesAscend(i: nat, j: nat)
    requires i < j < 64
    ensures Primes()[i] < Primes()[j]
  {
    hide PrimeRow0, PrimeRow1, PrimeRow2, PrimeRow3;
  }

  /** `k` is the number that the first 32 bits of the fractional part of the cube root of `p` spell,
      when `a` is its whole part. */
  predicate CubeBits(p: nat, a: nat, k: nat) {
    var x := a * 0x1_0000_0000 + k;
    k < 0x1_0000_0000 && x * x * x <= p * 0x1_00000000_00000000_00000000 < (x + 1) * (x + 1) * (x + 1)
  }

  predicate SquareBits(p: nat, a: nat, k: nat) {
    var x := a * 0x1_0000_0000 + k;
    k < 0x1_0000_0000 && x * x <= p * 0x1_00000000_00000000 < (x + 1) * (x + 1)
  }

  function WholeCubeRoot(p: nat): nat {
    if p < 8 then 1 else if p < 27 then 2 else if p < 64 then 3 else if p < 125 then 4 else if p < 216 then 5 else 6
  }

  lemma CubesLow0(i: nat)
    requires 0 <= i < 8
    ensures CubeBits(PrimeRow0()[i], WholeCubeRoot(PrimeRow0()[i]), KRow0()[i])
  {
    match i
    case 0 => assert CubeBits(2, 1, 0x428a2f98);
    case 1 => assert CubeBits(3, 1, 0x71374491);
    case 2 => assert CubeBits(5, 1, 0xb5c0fbcf);
    case 3 => assert CubeBits(7, 1, 0xe9b5dba5);
    case 4 => assert CubeBits(11, 2, 0x3956c25b);
    case 5 => assert CubeBits(13, 2, 0x59f111f1);
    case 6 => assert CubeBits(17, 2, 0x923f82a4);
    case _ => assert CubeBits(19, 2, 0xab1c5ed5);
  }

  lemma CubesHigh0(i: nat)
    requires 8 <= i < 16
    ensures CubeBits(PrimeRow0()[i], WholeCubeRoot(PrimeRow0()[i]), KRow0()[i])
  {
    match i
    case 8 => assert CubeBits(23, 2, 0xd807aa98);
    case 9 => assert CubeBits(29, 3, 0x12835b01);
    case 10 => assert CubeBits(31, 3, 0x243185be);
    case 11 => assert CubeBits(37, 3, 0x550c7dc3);
    case 12 => assert CubeBits(41, 3, 0x72be5d74);
    case 13 => assert CubeBits(43, 3, 0x80deb1fe);
    case 14 => assert CubeBits(47, 3, 0x9bdc06a7);
    case _ => assert CubeBits(53, 3, 0xc19bf174);
  }

  lemma CubesLow1(i: nat)
    requires 0 <= i < 8
    ensures CubeBits(PrimeRow1()[i], WholeCubeRoot(PrimeRow1()[i]), KRow1()[i])
  {
    match i
    case 0 => assert CubeBits(59, 3, 0xe49b69c1);
    case 1 => assert CubeBits(61, 3, 0xefbe4786);
    case 2 => assert CubeBits(67, 4, 0x0fc19dc6);
    case 3 => assert CubeBits(71, 4, 0x240ca1cc);
    case 4 => assert CubeBits(73, 4, 0x2de92c6f);
    case 5 => assert CubeBits(79, 4, 0x4a7484aa);
    case 6 => assert CubeBits(83, 4, 0x5cb0a9dc);
    case _ => assert CubeBits(89, 4, 0x76f988da);
  }

  lemma CubesHigh1(i: nat)
    requires 8 <= i < 16
    ensures CubeBits(PrimeRow1()[i], WholeCubeRoot(PrimeRow1()[i]), KRow1()[i])
  {
    match i
    case 8 => assert CubeBits(97, 4, 0x983e5152);
    case 9 => assert CubeBits(101, 4, 0xa831c66d);
    case 10 => assert CubeBits(103, 4, 0xb00327c8);
    case 11 => assert CubeBits(107, 4, 0xbf597fc7);
    case 12 => assert CubeBits(109, 4, 0xc6e00bf3);
    case 13 => assert CubeBits(113, 4, 0xd5a79147);
    case 14 => assert CubeBits(127, 5, 0x06ca6351);
    case _ => assert CubeBits(131, 5, 0x14292967);
  }

  lemma CubesLow2(i: nat)
    requires 0 <= i < 8
    ensures CubeBits(PrimeRow2()[i], WholeCubeRoot(PrimeRow2()[i]), KRow2()[i])
  {
    match i
    case 0 => assert CubeBits(137, 5, 0x27b70a85);
    case 1 => assert CubeBits(139, 5, 0x2e1b2138);
    case 2 => assert CubeBits(149, 5, 0x4d2c6dfc);
    case 3 => assert CubeBits(151, 5, 0x53380d13);
    case 4 => assert CubeBits(157, 5, 0x650a7354);
    case 5 => assert CubeBits(163, 5, 0x766a0abb);
    case 6 => assert CubeBits(167, 5, 0x81c2c92e);
    case _ => assert CubeBits(173, 5, 0x92722c85);
  }

  lemma CubesHigh2(i: nat)
    requires 8 <= i < 16
    ensures CubeBits(PrimeRow2()[i], WholeCubeRoot(PrimeRow2()[i]), KRow2()[i])
  {
    match i
    case 8 => assert CubeBits(179, 5, 0xa2bfe8a1);
    case 9 => assert CubeBits(181, 5, 0xa81a664b);
    case 10 => assert CubeBits(191, 5, 0xc24b8b70);
    case 11 => assert CubeBits(193, 5, 0xc76c51a3);
    case 12 => assert CubeBits(197, 5, 0xd192e819);
    case 13 => assert CubeBits(199, 5, 0xd6990624);
    case 14 => assert CubeBits(211, 5, 0xf40e3585);
    case _ => assert CubeBits(223, 6, 0x106aa070);
  }

  lemma CubesLow3(i: nat)
    requires 0 <= i < 8
    ensures CubeBits(PrimeRow3()[i], WholeCubeRoot(PrimeRow3()[i]), KRow3()[i])
  {
    match i
    case 0 => assert CubeBits(227, 6, 0x19a4c116);
    case 1 => assert CubeBits(229, 6, 0x1e376c08);
    case 2 => assert CubeBits(233, 6, 0x2748774c);
    case 3 => assert CubeBits(239, 6, 0x34b0bcb5);
    case 4 => assert CubeBits(241, 6, 0x391c0cb3);
    case 5 => assert CubeBits(251, 6, 0x4ed8aa4a);
    case 6 => assert CubeBits(257, 6, 0x5b9cca4f);
    case _ => assert CubeBits(263, 6, 0x682e6ff3);
  }

  lemma CubesHigh3(i: nat)
    requires 8 <= i < 16
    ensures CubeBits(PrimeRow3()[i], WholeCubeRoot(PrimeRow3()[i]), KRow3()[i])
  {
    match i
    case 8 => assert CubeBits(269, 6, 0x748f82ee);
    case 9 => assert CubeBits(271, 6, 0x78a5636f);
    case 10 => assert CubeBits(277, 6, 0x84c87814);
    case 11 => assert CubeBits(281, 6, 0x8cc70208);
    case 12 => assert CubeBits(283, 6, 0x90befffa);
    case 13 => assert CubeBits(293, 6, 0xa4506ceb);
    case 14 => assert CubeBits(307, 6, 0xbef9a3f7);
    case _ => assert CubeBits(311, 6, 0xc67178f2);
  }

  lemma CubesAt(i: nat)
    requires i < 64
    ensures CubeBits(Primes()[i], WholeCubeRoot(Primes()[i]), K()[i])
  {
    hide CubeBits, WholeCubeRoot, PrimeRow0, PrimeRow1, PrimeRow2, PrimeRow3, KRow0, KRow1, KRow2, KRow3;
    var j := i % 16;
    if i < 16 {
      if j < 8 { CubesLow0(j); } else { CubesHigh0(j); }
    } else if i < 32 {
      if j < 8 { CubesLow1(j); } else { CubesHigh1(j); }
    } else if i < 48 {
      if j < 8 { CubesLow2(j); } else { CubesHigh2(j); }
    } else {
      if j < 8 { CubesLow3(j); } else { CubesHigh3(j); }
    }
  }

  /** FIPS 180-4, section 4.2.2: the i-th round constant is made of the first 32 bits of the fractional
      part of the cube root of the i-th prime. */
  lemma RoundConstants(i: nat) returns (a: nat)
    requires i < 64
    ensures K()[i] < 0x1_0000_0000
    ensures var x := a * 0x1_0000_0000 + K()[i];
            x * x * x <= Primes()[i] * 0x1_00000000_00000000_00000000 < (x + 1) * (x + 1) * (x + 1)
  {
    hide K, Primes;
    a := WholeCubeRoot(Primes()[i]);
    CubesAt(i);
  }

  function InitialNumber(i: nat): nat
    requires i < 8
  {
    [0x6a09e667, 0xbb67ae85, 0x3c6ef372, 0xa54ff53a, 0x510e527f, 0x9b05688c, 0x1f83d9ab, 0x5be0cd19][i]
  }

  lemma Squares(i: nat, a: nat)
    requires i < 8 && a == if i < 2 then 1 else if i < 4 then 2 else if i < 6 then 3 else 4
    ensures SquareBits(PrimeRow0()[i], a, InitialNumber(i))
  {
    match i case 0 => case 1 => case 2 => case 3 => case 4 => case 5 => case 6 => case _ =>
  }

  /** FIPS 180-4, section 5.3.3: the i-th word of the first hash value is made of the first 32 bits of
      the fractional part of the square root of the i-th prime. */
  lemma InitialWords(i: nat) returns (a: nat)
    requires i < 8
    ensures var h := Initial();
            var x := a * 0x1_0000_0000 + Unsigned([h.a, h.b, h.c, h.d, h.e, h.f, h.g, h.h][i]);
            x * x <= Primes()[i] * 0x1_00000000_00000000 < (x + 1) * (x + 1)
  {
    hide ToWord, Unsigned;
    a := if i < 2 then 1 else if i < 4 then 2 else if i < 6 then 3 else 4;
    Squares(i, a);
    UnsignedOf(InitialNumber(i));
  }
}
