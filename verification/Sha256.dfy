/** SHA-256: the standard's definition over bit-string words, and the loop over signed JavaScript numbers
    that computes it. */
module Sha256 {
  import opened Bytes
  import opened Int32
  import opened Words

  // ---- FIPS 180-4, sections 4.1.2, 4.2.2, 5.3.3 and 6.2.2 ----

  function Ch(x: Word, y: Word, z: Word): Word {
    Xor(And(x, y), And(Not(x), z))
  }

  function Maj(x: Word, y: Word, z: Word): Word {
    Xor(Xor(And(x, y), And(x, z)), And(y, z))
  }

  function BigSigma0(x: Word): Word {
    Xor(Xor(RotateRight(x, 2), RotateRight(x, 13)), RotateRight(x, 22))
  }

  function BigSigma1(x: Word): Word {
    Xor(Xor(RotateRight(x, 6), RotateRight(x, 11)), RotateRight(x, 25))
  }

  function SmallSigma0(x: Word): Word {
    Xor(Xor(RotateRight(x, 7), RotateRight(x, 18)), ShiftRight(x, 3))
  }

  function SmallSigma1(x: Word): Word {
    Xor(Xor(RotateRight(x, 17), RotateRight(x, 19)), ShiftRight(x, 10))
  }

  function K(): (ks: seq<nat>)
    ensures |ks| == 64
  {
    KRow0() + KRow1() + KRow2() + KRow3()
  }

  function KRow0(): (ks: seq<nat>)
    ensures |ks| == 16
  {
    [0x428a2f98, 0x71374491, 0xb5c0fbcf, 0xe9b5dba5, 0x3956c25b, 0x59f111f1, 0x923f82a4, 0xab1c5ed5,
     0xd807aa98, 0x12835b01, 0x243185be, 0x550c7dc3, 0x72be5d74, 0x80deb1fe, 0x9bdc06a7, 0xc19bf174]
  }

  function KRow1(): (ks: seq<nat>)
    ensures |ks| == 16
  {
    [0xe49b69c1, 0xefbe4786, 0x0fc19dc6, 0x240ca1cc, 0x2de92c6f, 0x4a7484aa, 0x5cb0a9dc, 0x76f988da,
     0x983e5152, 0xa831c66d, 0xb00327c8, 0xbf597fc7, 0xc6e00bf3, 0xd5a79147, 0x06ca6351, 0x14292967]
  }

  function KRow2(): (ks: seq<nat>)
    ensures |ks| == 16
  {
    [0x27b70a85, 0x2e1b2138, 0x4d2c6dfc, 0x53380d13, 0x650a7354, 0x766a0abb, 0x81c2c92e, 0x92722c85,
     0xa2bfe8a1, 0xa81a664b, 0xc24b8b70, 0xc76c51a3, 0xd192e819, 0xd6990624, 0xf40e3585, 0x106aa070]
  }

  function KRow3(): (ks: seq<nat>)
    ensures |ks| == 16
  {
    [0x19a4c116, 0x1e376c08, 0x2748774c, 0x34b0bcb5, 0x391c0cb3, 0x4ed8aa4a, 0x5b9cca4f, 0x682e6ff3,
     0x748f82ee, 0x78a5636f, 0x84c87814, 0x8cc70208, 0x90befffa, 0xa4506ceb, 0xbef9a3f7, 0xc67178f2]
  }

  datatype Hash = Hash(a: Word, b: Word, c: Word, d: Word, e: Word, f: Word, g: Word, h: Word)

  function Initial(): Hash {
    AsHash(0x6a09e667, 0xbb67ae85, 0x3c6ef372, 0xa54ff53a, 0x510e527f, 0x9b05688c, 0x1f83d9ab, 0x5be0cd19)
  }

  /** The t-th word of the message schedule of a 16-word block. */
  function Schedule(block: seq<Word>, t: nat): Word
    requires |block| == 16
  {
    if t < 16 then block[t]
    else
      Add(Add(Add(SmallSigma1(Schedule(block, t - 2)), Schedule(block, t - 7)), SmallSigma0(Schedule(block, t - 15))),
          Schedule(block, t - 16))
  }

  function Round(s: Hash, k: Word, w: Word): Hash {
    var t1 := Add(Add(Add(Add(s.h, BigSigma1(s.e)), Ch(s.e, s.f, s.g)), k), w);
    var t2 := Add(BigSigma0(s.a), Maj(s.a, s.b, s.c));
    Hash(Add(t1, t2), s.a, s.b, s.c, Add(s.d, t1), s.e, s.f, s.g)
  }

  function Rounds(s: Hash, block: seq<Word>, n: nat): Hash
    requires |block| == 16 && n <= 64
  {
    if n == 0 then s else Round(Rounds(s, block, n - 1), ToWord(K()[n - 1]), Schedule(block, n - 1))
  }

  function Compress(s: Hash, block: seq<Word>): Hash
    requires |block| == 16
  {
    var r := Rounds(s, block, |K()|);
    Hash(Add(s.a, r.a), Add(s.b, r.b), Add(s.c, r.c), Add(s.d, r.d),
         Add(s.e, r.e), Add(s.f, r.f), Add(s.g, r.g), Add(s.h, r.h))
  }

  function Uint32At(p: seq<byte>, o: nat): nat
    requires o + 4 <= |p|
  {
    ReadBigEndian(p[o..o + 4])
  }

  function Uint32Bytes(v: nat): (bs: seq<byte>)
    ensures |bs| == 4
  {
    BigEndian(v, 4)
  }

  /** The 16 words of the block at `offset`. */
  function BlockAt(p: seq<byte>, offset: nat): (block: seq<Word>)
    requires offset + 64 <= |p|
    ensures |block| == 16
  {
    seq(16, i requires 0 <= i < 16 => ToWord(Uint32At(p, offset + 4 * i)))
  }

  /** The hash value after the first n blocks. */
  function Digest(p: seq<byte>, n: nat): Hash
    requires 64 * n <= |p|
  {
    if n == 0 then Initial() else Compress(Digest(p, n - 1), BlockAt(p, 64 * (n - 1)))
  }

  function Output(s: Hash): (bs: seq<byte>)
    ensures |bs| == 32
  {
    Uint32Bytes(Unsigned(s.a)) + Uint32Bytes(Unsigned(s.b)) + Uint32Bytes(Unsigned(s.c)) + Uint32Bytes(Unsigned(s.d))
    + Uint32Bytes(Unsigned(s.e)) + Uint32Bytes(Unsigned(s.f)) + Uint32Bytes(Unsigned(s.g)) + Uint32Bytes(Unsigned(s.h))
  }

  function HashPadded(p: seq<byte>): seq<byte> {
    Output(Digest(p, |p| / 64))
  }

  /** Choice and majority, bit by bit. */
  lemma ChMajBits(x: Word, y: Word, z: Word, i: nat)
    requires i < 32
    ensures Ch(x, y, z)[i] == if x[i] then y[i] else z[i]
    ensures Maj(x, y, z)[i] <==> (x[i] && y[i]) || (x[i] && z[i]) || (y[i] && z[i])
  {
  }

  /** The four sigma functions add up bits of one word; the third bit of the small ones falls off the top. */
  lemma SigmaBits(x: Word, i: nat)
    requires i < 32
    ensures BigSigma0(x)[i] == ((x[(i + 2) % 32] != x[(i + 13) % 32]) != x[(i + 22) % 32])
    ensures BigSigma1(x)[i] == ((x[(i + 6) % 32] != x[(i + 11) % 32]) != x[(i + 25) % 32])
    ensures SmallSigma0(x)[i] == ((x[(i + 7) % 32] != x[(i + 18) % 32]) != (i < 29 && x[i + 3]))
    ensures SmallSigma1(x)[i] == ((x[(i + 17) % 32] != x[(i + 19) % 32]) != (i < 22 && x[i + 10]))
  {
  }

  lemma AddSums(x: int, a: Word, b: Word)
    requires Unsigned(a) == x % TWO32
    ensures Unsigned(Add(a, b)) == (x + Unsigned(b)) % TWO32
  {
    hide Unsigned, ToWord;
    UnsignedOf(Unsigned(a) + Unsigned(b));
    Congruent(Unsigned(a) + Unsigned(b), x + Unsigned(b));
  }

  /** The words of a round as sums modulo 2^32. */
  lemma RoundSums(s: Hash, k: Word, w: Word)
    ensures var r := Round(s, k, w);
            var t := Unsigned(s.h) + Unsigned(BigSigma1(s.e)) + Unsigned(Ch(s.e, s.f, s.g)) + Unsigned(k) + Unsigned(w);
            && Unsigned(r.a) == (t + Unsigned(BigSigma0(s.a)) + Unsigned(Maj(s.a, s.b, s.c))) % TWO32
            && Unsigned(r.e) == (Unsigned(s.d) + t) % TWO32
            && (r.b, r.c, r.d) == (s.a, s.b, s.c) && (r.f, r.g, r.h) == (s.e, s.f, s.g)
  {
    hide Unsigned, ToWord, Add, BigSigma0, BigSigma1, Ch, Maj;
    var h, e, c, a, m := s.h, BigSigma1(s.e), Ch(s.e, s.f, s.g), BigSigma0(s.a), Maj(s.a, s.b, s.c);
    WordOf(h);
    AddSums(Unsigned(h), h, e);
    AddSums(Unsigned(h) + Unsigned(e), Add(h, e), c);
    AddSums(Unsigned(h) + Unsigned(e) + Unsigned(c), Add(Add(h, e), c), k);
    var t := Unsigned(h) + Unsigned(e) + Unsigned(c) + Unsigned(k) + Unsigned(w);
    var t1 := Add(Add(Add(Add(h, e), c), k), w);
    AddSums(Unsigned(h) + Unsigned(e) + Unsigned(c) + Unsigned(k), Add(Add(Add(h, e), c), k), w);
    WordOf(s.d);
    AddBoth(Unsigned(s.d), s.d, t, t1);
    WordOf(a);
    AddSums(Unsigned(a), a, m);
    AddBoth(t, t1, Unsigned(a) + Unsigned(m), Add(a, m));
  }

  lemma AddBoth(x: int, a: Word, y: int, b: Word)
    requires Unsigned(a) == x % TWO32 && Unsigned(b) == y % TWO32
    ensures Unsigned(Add(a, b)) == (x + y) % TWO32
  {
    hide Unsigned, ToWord;
    AddSums(x, a, b);
    Congruent(x + Unsigned(b), x + y);
  }

  /** The words of the schedule behind the block as sums modulo 2^32. */
  lemma ScheduleSums(block: seq<Word>, t: nat)
    requires |block| == 16 && 16 <= t
    ensures Unsigned(Schedule(block, t))
         == (Unsigned(SmallSigma1(Schedule(block, t - 2))) + Unsigned(Schedule(block, t - 7))
             + Unsigned(SmallSigma0(Schedule(block, t - 15))) + Unsigned(Schedule(block, t - 16))) % TWO32
  {
    hide Unsigned, ToWord, Add, SmallSigma0, SmallSigma1;
    var u, v := SmallSigma1(Schedule(block, t - 2)), Schedule(block, t - 7);
    var w := SmallSigma0(Schedule(block, t - 15));
    WordOf(u);
    AddSums(Unsigned(u), u, v);
    AddSums(Unsigned(u) + Unsigned(v), Add(u, v), w);
    AddSums(Unsigned(u) + Unsigned(v) + Unsigned(w), Add(Add(u, v), w), Schedule(block, t - 16));
  }

  // ---- Padding: FIPS 180-4, section 5.1.1 ----

  predicate LeavesLength(len: nat, z: nat) {
    (len + 1 + z) % 64 == 56
  }

  /** The least number of zero bytes that leaves room for exactly the 64-bit length in the last block. */
  function ZeroCount(len: nat): (z: nat)
    ensures LeavesLength(len, z) && forall y: nat :: y < z ==> !LeavesLength(len, y)
  {
    (119 - len % 64) % 64
  }

  function StandardPadded(m: seq<byte>): seq<byte> {
    var bitLen := 8 * |m|;
    m + [0x80] + Zeros(ZeroCount(|m|)) + Uint32Bytes(bitLen / TWO32) + Uint32Bytes(bitLen % TWO32)
  }

  function PaddedLen(len: nat): (n: nat)
    ensures n % 64 == 0 && len + 9 <= n < len + 9 + 64
  {
    (len + 9 + 63) / 64 * 64
  }

  /** The padding the code writes: only the low 32 bits of the length. */
  function Padded(m: seq<byte>): (p: seq<byte>)
    ensures |p| == PaddedLen(|m|)
  {
    m + [0x80] + Zeros(PaddedLen(|m|) - |m| - 5) + Uint32Bytes(8 * |m| % TWO32)
  }

  function Sha256(m: seq<byte>): seq<byte> {
    HashPadded(StandardPadded(m))
  }

  lemma Uint32Reads(v: nat)
    requires v < TWO32
    ensures ReadBigEndian(Uint32Bytes(v)) == v
  {
    hide BigEndian, ReadBigEndian;
    assert Pow256(4) == TWO32;
    BigEndianReads(v, 4);
  }

  lemma PaddedSplits(m: seq<byte>)
    ensures PaddedLen(|m|) == |m| + 9 + ZeroCount(|m|)
    ensures Padded(m) == m + [0x80] + Zeros(ZeroCount(|m|)) + Zeros(4) + Uint32Bytes(8 * |m| % TWO32)
  {
    var z := ZeroCount(|m|);
    assert (|m| + 9 + z) % 64 == 0;
    assert Zeros(PaddedLen(|m|) - |m| - 5) == Zeros(z) + Zeros(4);
  }

  /** The padding is the standard's exactly for messages of less than 2^29 bytes. */
  lemma PaddingStandardIff(m: seq<byte>)
    requires |m| < 0x2000_0000_0000_0000
    ensures Padded(m) == StandardPadded(m) <==> |m| < 0x2000_0000
  {
    PaddedSplits(m);
    var bitLen := 8 * |m|;
    var head := m + [0x80] + Zeros(ZeroCount(|m|));
    var low := Uint32Bytes(bitLen % TWO32);
    Uint32Reads(bitLen / TWO32);
    Uint32Reads(0);
    assert Zeros(4) == Uint32Bytes(0);
    assert (head + Uint32Bytes(0) + low)[|head|..|head| + 4] == Uint32Bytes(0);
    assert (head + Uint32Bytes(bitLen / TWO32) + low)[|head|..|head| + 4] == Uint32Bytes(bitLen / TWO32);
    assert |m| < 0x2000_0000 <==> bitLen / TWO32 == 0;
  }

  /** It is the shortest that fits the message, the marker and the 64-bit length. */
  lemma PaddingShortest(m: seq<byte>, n: nat)
    requires n % 64 == 0 && |m| + 9 <= n
    ensures |Padded(m)| <= n && |Padded(m)| % 64 == 0
  {
    hide Padded;
    var k, j := n / 64, PaddedLen(|m|) / 64;
    assert n == 64 * k && PaddedLen(|m|) == 64 * j;
    assert 64 * j < 64 * k + 64;
  }

  /** No two messages, of any length, are padded alike. */
  lemma PaddingInjective(a: seq<byte>, b: seq<byte>)
    requires Padded(a) == Padded(b)
    ensures a == b
  {
    PaddedEnds(a);
    PaddedEnds(b);
    hide Padded;
    assert 8 * |a| % TWO32 == 8 * |b| % TWO32;
    assert -64 < |a| - |b| < 64;
    assert |a| == |b|;
  }

  lemma PaddedEnds(m: seq<byte>)
    ensures var p := Padded(m);
            p[..|m|] == m && Uint32At(p, |p| - 4) == 8 * |m| % TWO32 && |m| + 9 <= |p| < |m| + 9 + 64
  {
    var p := Padded(m);
    var end := Uint32Bytes(8 * |m| % TWO32);
    assert p[|p| - 4..|p|] == end;
    Uint32Reads(8 * |m| % TWO32);
  }

  // ---- The code's helpers: numbers in, numbers out ----

  function AsHash(a: int, b: int, c: int, d: int, e: int, f: int, g: int, h: int): Hash {
    Hash(ToWord(a), ToWord(b), ToWord(c), ToWord(d), ToWord(e), ToWord(f), ToWord(g), ToWord(h))
  }

  function JsRotr(x: int, n: nat): int
    requires 0 < n < 32
  {
    JsOr(JsShiftRight(x, n), JsShiftLeft(x, 32 - n))
  }

  function JsCh(x: int, y: int, z: int): int {
    JsXor(JsAnd(x, y), JsAnd(JsNot(x), z))
  }

  function JsMaj(x: int, y: int, z: int): int {
    JsXor(JsXor(JsAnd(x, y), JsAnd(x, z)), JsAnd(y, z))
  }

  function JsEp0(x: int): int {
    JsXor(JsXor(JsRotr(x, 2), JsRotr(x, 13)), JsRotr(x, 22))
  }

  function JsEp1(x: int): int {
    JsXor(JsXor(JsRotr(x, 6), JsRotr(x, 11)), JsRotr(x, 25))
  }

  function JsSig0(x: int): int {
    JsXor(JsXor(JsRotr(x, 7), JsRotr(x, 18)), JsShiftRight(x, 3))
  }

  function JsSig1(x: int): int {
    JsXor(JsXor(JsRotr(x, 17), JsRotr(x, 19)), JsShiftRight(x, 10))
  }

  lemma RotrWord(x: int, n: nat)
    requires 0 < n < 32
    ensures ToWord(JsRotr(x, n)) == RotateRight(ToWord(x), n)
  {
    hide ToWord, JsOr, JsShiftRight, JsShiftLeft, Or, ShiftRight, ShiftLeft, RotateRight;
    OperatorWords(JsShiftRight(x, n), JsShiftLeft(x, 32 - n));
    ShiftWords(x, n);
    ShiftWords(x, 32 - n);
    ShiftsRotate(ToWord(x), n);
  }

  lemma ChMajWords(x: int, y: int, z: int)
    ensures ToWord(JsCh(x, y, z)) == Ch(ToWord(x), ToWord(y), ToWord(z))
    ensures ToWord(JsMaj(x, y, z)) == Maj(ToWord(x), ToWord(y), ToWord(z))
  {
    hide ToWord, JsAnd, JsXor, JsNot, And, Xor, Not;
    OperatorWords(x, y);
    OperatorWords(x, z);
    OperatorWords(y, z);
    OperatorWords(JsNot(x), z);
    OperatorWords(JsAnd(x, y), JsAnd(JsNot(x), z));
    OperatorWords(JsAnd(x, y), JsAnd(x, z));
    OperatorWords(JsXor(JsAnd(x, y), JsAnd(x, z)), JsAnd(y, z));
  }

  lemma Xor3Words(x: int, y: int, z: int)
    ensures ToWord(JsXor(JsXor(x, y), z)) == Xor(Xor(ToWord(x), ToWord(y)), ToWord(z))
  {
    hide ToWord, JsXor, Xor;
    OperatorWords(x, y);
    OperatorWords(JsXor(x, y), z);
  }

  lemma SigmaWords(x: int)
    ensures ToWord(JsEp0(x)) == BigSigma0(ToWord(x)) && ToWord(JsEp1(x)) == BigSigma1(ToWord(x))
    ensures ToWord(JsSig0(x)) == SmallSigma0(ToWord(x)) && ToWord(JsSig1(x)) == SmallSigma1(ToWord(x))
  {
    hide ToWord, JsXor, JsRotr, JsShiftRight, Xor, RotateRight, ShiftRight;
    Xor3Words(JsRotr(x, 2), JsRotr(x, 13), JsRotr(x, 22));
    Xor3Words(JsRotr(x, 6), JsRotr(x, 11), JsRotr(x, 25));
    Xor3Words(JsRotr(x, 7), JsRotr(x, 18), JsShiftRight(x, 3));
    Xor3Words(JsRotr(x, 17), JsRotr(x, 19), JsShiftRight(x, 10));
    RotrWord(x, 2); RotrWord(x, 13); RotrWord(x, 22);
    RotrWord(x, 6); RotrWord(x, 11); RotrWord(x, 25);
    RotrWord(x, 7); RotrWord(x, 18); RotrWord(x, 17); RotrWord(x, 19);
    ShiftWords(x, 3);
    ShiftWords(x, 10);
  }

  // ---- The loops ----

  method SetUint32(a: array<byte>, o: nat, v: int)
    requires o + 4 <= a.Length
    modifies a
    ensures a[..] == old(a[..o]) + Uint32Bytes(v % TWO32) + old(a[o + 4..])
  {
    var bs := Uint32Bytes(v % TWO32);
    a[o], a[o + 1], a[o + 2], a[o + 3] := bs[0], bs[1], bs[2], bs[3];
    assert a[o..o + 4] == bs;
    assert a[..] == a[..o] + a[o..o + 4] + a[o + 4..];
  }

  method Pad(bytes: array<byte>) returns (padded: array<byte>)
    ensures fresh(padded) && padded[..] == Padded(bytes[..])
  {
    var len := bytes.Length;
    var bitLen := len * 8;
    var paddedLen := PaddedLen(len);
    padded := CopyPadded(bytes, paddedLen);
    SetUint32(padded, paddedLen - 4, bitLen);
  }

  /** The message and the marker in a buffer of zeros. */
  method CopyPadded(bytes: array<byte>, paddedLen: nat) returns (padded: array<byte>)
    requires bytes.Length + 5 <= paddedLen
    ensures fresh(padded) && padded.Length == paddedLen
    ensures padded[..paddedLen - 4] == bytes[..] + [0x80] + Zeros(paddedLen - bytes.Length - 5)
    ensures padded[paddedLen..] == []
  {
    var len := bytes.Length;
    padded := new byte[paddedLen](_ => 0);
    var i := 0;
    while i < len
      invariant 0 <= i <= len && padded[..i] == bytes[..i]
      invariant forall k :: i <= k < paddedLen ==> padded[k] == 0
    {
      padded[i] := bytes[i];
      i := i + 1;
    }
    padded[len] := 0x80;
    ghost var head, zeros := padded[..len], padded[len + 1..paddedLen - 4];
    assert head == bytes[..];
    assert zeros == Zeros(paddedLen - len - 5);
    assert padded[..paddedLen - 4] == head + [padded[len]] + zeros;
  }

  /** x | 0 */
  function JsInt32(x: int): int {
    Wrap(x)
  }

  lemma Sum2Word(x: int, y: int)
    ensures ToWord(JsInt32(x + y)) == Add(ToWord(x), ToWord(y))
  {
    hide ToWord, Add;
    SumWord(x, y);
    WrapWord(x + y);
  }

  lemma Sum4Word(x: int, y: int, z: int, v: int)
    ensures ToWord(JsInt32(x + y + z + v)) == Add(Add(Add(ToWord(x), ToWord(y)), ToWord(z)), ToWord(v))
  {
    hide ToWord, Add;
    SumWord(x, y);
    SumWord(x + y, z);
    SumWord(x + y + z, v);
    WrapWord(x + y + z + v);
  }

  lemma Sum5Word(x: int, y: int, z: int, v: int, u: int)
    ensures ToWord(JsInt32(x + y + z + v + u))
         == Add(Add(Add(Add(ToWord(x), ToWord(y)), ToWord(z)), ToWord(v)), ToWord(u))
  {
    hide ToWord, Add;
    Sum4Word(x, y, z, v);
    WrapWord(x + y + z + v);
    SumWord(x + y + z + v, u);
    WrapWord(x + y + z + v + u);
  }

  lemma ScheduleStep(w2: nat, w7: nat, w15: nat, w16: nat)
    ensures ToWord(JsInt32(JsSig1(w2) + w7 + JsSig0(w15) + w16) % TWO32)
         == Add(Add(Add(SmallSigma1(ToWord(w2)), ToWord(w7)), SmallSigma0(ToWord(w15))), ToWord(w16))
  {
    hide ToWord, Add, JsSig0, JsSig1, SmallSigma0, SmallSigma1, JsInt32;
    SigmaWords(w2);
    SigmaWords(w15);
    Sum4Word(JsSig1(w2), w7, JsSig0(w15), w16);
    RemainderWord(JsInt32(JsSig1(w2) + w7 + JsSig0(w15) + w16));
  }

  lemma ScheduleNext(block: seq<Word>, t: nat)
    requires |block| == 16 && 16 <= t
    ensures Schedule(block, t)
         == Add(Add(Add(SmallSigma1(Schedule(block, t - 2)), Schedule(block, t - 7)),
                    SmallSigma0(Schedule(block, t - 15))),
                Schedule(block, t - 16))
  {
    hide Add, SmallSigma0, SmallSigma1;
  }

  lemma RemainderWord(x: int)
    ensures ToWord(x % TWO32) == ToWord(x)
  {
    Congruent(x % TWO32, x);
  }

  predicate Scheduled(w: seq<nat>, block: seq<Word>, n: nat)
    requires |block| == 16
  {
    n <= |w| && forall t :: 0 <= t < n ==> ToWord(w[t]) == Schedule(block, t)
  }

  lemma ScheduledNext(w: seq<nat>, block: seq<Word>, n: nat, w': seq<nat>)
    requires |block| == 16 && Scheduled(w, block, n) && n < |w| == |w'| && w'[..n] == w[..n]
    requires ToWord(w'[n]) == Schedule(block, n)
    ensures Scheduled(w', block, n + 1)
  {
    forall t | 0 <= t < n + 1 ensures ToWord(w'[t]) == Schedule(block, t) {
      assert t < n ==> w'[t] == w'[..n][t] == w[t];
    }
  }

  /** The message schedule of one chunk. */
  method Expand(padded: array<byte>, offset: nat) returns (w: array<nat>)
    requires offset + 64 <= padded.Length
    ensures fresh(w) && w.Length == 64 && Scheduled(w[..], BlockAt(padded[..], offset), 64)
  {
    ghost var block := BlockAt(padded[..], offset);
    w := new nat[64];
    hide ToWord, Schedule;
    for i := 0 to 16
      invariant Scheduled(w[..], block, i)
    {
      ghost var before := w[..];
      w[i] := Uint32At(padded[..], offset + i * 4);
      assert ToWord(w[i]) == Schedule(block, i) by {
        ScheduleFirst(block, i);
      }
      ScheduledNext(before, block, i, w[..]);
    }
    ExpandRest(w, block);
  }

  lemma ScheduleFirst(block: seq<Word>, t: nat)
    requires |block| == 16 && t < 16
    ensures Schedule(block, t) == block[t]
  {
  }

  method ExpandRest(w: array<nat>, ghost block: seq<Word>)
    requires w.Length == 64 && |block| == 16 && Scheduled(w[..], block, 16)
    modifies w
    ensures Scheduled(w[..], block, 64)
  {
    hide ToWord, Add, Schedule, JsInt32, JsSig0, JsSig1, SmallSigma0, SmallSigma1;
    for i := 16 to 64
      invariant Scheduled(w[..], block, i)
    {
      ghost var before := w[..];
      assert forall t :: 0 <= t < i ==> ToWord(before[t]) == Schedule(block, t);
      ScheduleNext(block, i);
      ScheduleStep(before[i - 2], before[i - 7], before[i - 15], before[i - 16]);
      w[i] := JsInt32(JsSig1(w[i - 2]) + w[i - 7] + JsSig0(w[i - 15]) + w[i - 16]) % TWO32;
      ScheduledNext(before, block, i, w[..]);
    }
  }

  function JsT1(e: int, f: int, g: int, h: int, k: int, w: int): int {
    JsInt32(h + JsEp1(e) + JsCh(e, f, g) + k + w)
  }

  function JsT2(a: int, b: int, c: int): int {
    JsInt32(JsEp0(a) + JsMaj(a, b, c))
  }

  lemma T1Word(e: int, f: int, g: int, h: int, k: int, w: int)
    ensures ToWord(JsT1(e, f, g, h, k, w))
         == Add(Add(Add(Add(ToWord(h), BigSigma1(ToWord(e))), Ch(ToWord(e), ToWord(f), ToWord(g))), ToWord(k)),
             ToWord(w))
  {
    hide ToWord, Add, JsEp0, JsEp1, JsCh, JsMaj, BigSigma0, BigSigma1, Ch, Maj, JsInt32;
    SigmaWords(e);
    ChMajWords(e, f, g);
    Sum5Word(h, JsEp1(e), JsCh(e, f, g), k, w);
  }

  lemma T2Word(a: int, b: int, c: int)
    ensures ToWord(JsT2(a, b, c)) == Add(BigSigma0(ToWord(a)), Maj(ToWord(a), ToWord(b), ToWord(c)))
  {
    hide ToWord, Add, JsEp0, JsEp1, JsCh, JsMaj, BigSigma0, BigSigma1, Ch, Maj, JsInt32;
    SigmaWords(a);
    ChMajWords(a, b, c);
    Sum2Word(JsEp0(a), JsMaj(a, b, c));
  }

  /** One round on numbers is the standard's round on their words. */
  lemma RoundStep(a: int, b: int, c: int, d: int, e: int, f: int, g: int, h: int, k: int, w: int)
    ensures AsHash(JsInt32(JsT1(e, f, g, h, k, w) + JsT2(a, b, c)), a, b, c,
                   JsInt32(d + JsT1(e, f, g, h, k, w)), e, f, g)
         == Round(AsHash(a, b, c, d, e, f, g, h), ToWord(k), ToWord(w))
  {
    hide ToWord, Add, BigSigma0, BigSigma1, Ch, Maj, JsInt32, JsT1, JsT2;
    T1Word(e, f, g, h, k, w);
    T2Word(a, b, c);
    Sum2Word(JsT1(e, f, g, h, k, w), JsT2(a, b, c));
    Sum2Word(d, JsT1(e, f, g, h, k, w));
  }

  /** The 64 rounds of one chunk. */
  method RunRounds(w: array<nat>, h0: int, h1: int, h2: int, h3: int, h4: int, h5: int, h6: int, h7: int,
                   ghost block: seq<Word>)
      returns (a: int, b: int, c: int, d: int, e: int, f: int, g: int, h: int)
    requires w.Length == 64 && |block| == 16
    requires Scheduled(w[..], block, 64)
    ensures AsHash(a, b, c, d, e, f, g, h) == Rounds(AsHash(h0, h1, h2, h3, h4, h5, h6, h7), block, 64)
  {
    var k := K();
    ghost var s := AsHash(h0, h1, h2, h3, h4, h5, h6, h7);
    a, b, c, d, e, f, g, h := h0, h1, h2, h3, h4, h5, h6, h7;
    hide ToWord, AsHash, Round, Schedule, K, JsInt32, JsT1, JsT2;
    for i := 0 to |k|
      invariant AsHash(a, b, c, d, e, f, g, h) == Rounds(s, block, i)
    {
      assert ToWord(w[i]) == Schedule(block, i) by {
        assert w[..][i] == w[i];
      }
      var t1 := JsT1(e, f, g, h, k[i], w[i]);
      var t2 := JsT2(a, b, c);
      RoundStep(a, b, c, d, e, f, g, h, k[i], w[i]);
      h := g;
      g := f;
      f := e;
      e := JsInt32(d + t1);
      d := c;
      c := b;
      b := a;
      a := JsInt32(t1 + t2);
    }
  }

  /** One chunk: the new hash values from the old ones. */
  method ProcessChunk(padded: array<byte>, offset: nat, h0: int, h1: int, h2: int, h3: int, h4: int, h5: int, h6: int,
                      h7: int)
      returns (a: int, b: int, c: int, d: int, e: int, f: int, g: int, h: int)
    requires offset + 64 <= padded.Length
    ensures AsHash(a, b, c, d, e, f, g, h)
         == Compress(AsHash(h0, h1, h2, h3, h4, h5, h6, h7), BlockAt(padded[..], offset))
  {
    ghost var block := BlockAt(padded[..], offset);
    var w := Expand(padded, offset);
    a, b, c, d, e, f, g, h := RunRounds(w, h0, h1, h2, h3, h4, h5, h6, h7, block);
    hide ToWord, Add, Rounds, JsInt32, K;
    Sum2Word(h0, a); Sum2Word(h1, b); Sum2Word(h2, c); Sum2Word(h3, d);
    Sum2Word(h4, e); Sum2Word(h5, f); Sum2Word(h6, g); Sum2Word(h7, h);
    a, b, c, d := JsInt32(h0 + a), JsInt32(h1 + b), JsInt32(h2 + c), JsInt32(h3 + d);
    e, f, g, h := JsInt32(h4 + e), JsInt32(h5 + f), JsInt32(h6 + g), JsInt32(h7 + h);
  }

  lemma UnsignedWord(x: int)
    ensures Uint32Bytes(x % TWO32) == Uint32Bytes(Unsigned(ToWord(x)))
  {
    UnsignedOf(x);
  }

  /** Write a word behind the first `at` bytes. */
  method PutUint32(a: array<byte>, at: nat, v: int)
    requires at + 4 <= a.Length
    modifies a
    ensures a[..at + 4] == old(a[..at]) + Uint32Bytes(Unsigned(ToWord(v)))
  {
    UnsignedWord(v);
    SetUint32(a, at, v);
  }

  method WriteHash(h0: int, h1: int, h2: int, h3: int, h4: int, h5: int, h6: int, h7: int) returns (result: array<byte>)
    ensures fresh(result) && result[..] == Output(AsHash(h0, h1, h2, h3, h4, h5, h6, h7))
  {
    hide Uint32Bytes, ToWord, Unsigned;
    result := new byte[32];
    assert result[..0] == [];
    PutUint32(result, 0, h0);
    PutUint32(result, 4, h1);
    PutUint32(result, 8, h2);
    PutUint32(result, 12, h3);
    PutUint32(result, 16, h4);
    PutUint32(result, 20, h5);
    PutUint32(result, 24, h6);
    PutUint32(result, 28, h7);
    assert result[..] == result[..32];
  }

  lemma DigestNext(p: seq<byte>, n: nat)
    requires 64 * (n + 1) <= |p|
    ensures Digest(p, n + 1) == Compress(Digest(p, n), BlockAt(p, 64 * n))
  {
    hide Compress, BlockAt, Initial;
  }

  method HashChunks(padded: array<byte>) returns (result: array<byte>)
    requires padded.Length % 64 == 0
    ensures fresh(result) && result[..] == HashPadded(padded[..])
  {
    hide ToWord, Compress, BlockAt, Output;
    var h0, h1, h2, h3 := 0x6a09e667, 0xbb67ae85, 0x3c6ef372, 0xa54ff53a;
    var h4, h5, h6, h7 := 0x510e527f, 0x9b05688c, 0x1f83d9ab, 0x5be0cd19;
    ghost var p := padded[..];
    ghost var n := 0;
    assert AsHash(h0, h1, h2, h3, h4, h5, h6, h7) == Digest(p, 0);
    hide AsHash, Digest;
    var offset := 0;
    while offset < padded.Length
      invariant offset == 64 * n && 0 <= offset <= padded.Length
      invariant AsHash(h0, h1, h2, h3, h4, h5, h6, h7) == Digest(p, n)
    {
      DigestNext(p, n);
      h0, h1, h2, h3, h4, h5, h6, h7 := ProcessChunk(padded, offset, h0, h1, h2, h3, h4, h5, h6, h7);
      offset := offset + 64;
      n := n + 1;
    }
    result := WriteHash(h0, h1, h2, h3, h4, h5, h6, h7);
  }

  /** The code computes the standard's hash value of the bytes it pads, so of every message shorter than
      2^29 bytes. */
  method JsSha256(bytes: array<byte>) returns (result: array<byte>)
    ensures result[..] == HashPadded(Padded(bytes[..]))
    ensures bytes.Length < 0x2000_0000 ==> result[..] == Sha256(bytes[..])
  {
    hide Padded, StandardPadded, HashPadded;
    var padded := Pad(bytes);
    result := HashChunks(padded);
    if bytes.Length < 0x2000_0000 {
      PaddingStandardIff(bytes[..]);
    }
  }
}
