/** Base32 text (RFC 4648 section 6, lower case, no padding) for byte strings.

    Encoder and decoder shift bytes and symbols through a 32-bit register from which old bits fall
    off at the top; what matters is the stream of bits that passes through it. */
module Base32 {

  const ALPHABET: string := "abcdefghijklm" + "nopqrstuvwxyz" + "234567"

  function Symbol(code: nat): char
    requires code < 32
  {
    if code < 26 then 'a' + code as char else '2' + (code - 26) as char
  }

  /** The decoder takes both cases and skips everything else. */
  predicate Accepted(c: char) {
    'a' <= c <= 'z' || 'A' <= c <= 'Z' || '2' <= c <= '7'
  }

  function CodeOf(c: char): (code: nat)
    requires Accepted(c)
    ensures code < 32
  {
    if c <= '7' then c as int - '2' as int + 26
    else if c <= 'Z' then c as int - 'A' as int
    else c as int - 'a' as int
  }

  lemma CodeOfSymbol(code: nat)
    requires code < 32
    ensures Accepted(Symbol(code)) && CodeOf(Symbol(code)) == code
  {
  }

  predicate Spelled(alphabet: string) {
    |alphabet| == 32 && forall code: nat :: code < 32 ==> alphabet[code] == Symbol(code)
  }

  lemma AlphabetIs()
    ensures Spelled(ALPHABET)
  {
    assert forall i :: 0 <= i < 13 ==> "abcdefghijklm"[i] as int == 'a' as int + i;
    assert forall i :: 0 <= i < 13 ==> "nopqrstuvwxyz"[i] as int == 'n' as int + i;
    assert forall i :: 0 <= i < 6 ==> "234567"[i] as int == '2' as int + i;
  }

  predicate BitAt(x: bv32, t: nat)
    requires t < 32
  {
    (x >> t) & 1 == 1
  }

  /** All bits of a register, least significant first. */
  function Bits(x: bv32): (r: seq<bool>)
    ensures |r| == 32 && forall t: nat :: t < 32 ==> r[t] == BitAt(x, t)
  {
    seq(32, t requires 0 <= t < 32 => BitAt(x, t))
  }

  /** The first `n` of some bits, in reverse. */
  function Reversed(r: seq<bool>, n: nat): (bits: seq<bool>)
    requires n <= |r|
    ensures |bits| == n && forall i :: 0 <= i < n ==> bits[i] == r[n - 1 - i]
  {
    seq(n, i requires 0 <= i < n => r[n - 1 - i])
  }

  /** The lowest `n` bits of a register, most significant first. */
  function Low(x: bv32, n: nat): (bits: seq<bool>)
    requires n <= 32
    ensures |bits| == n
  {
    Reversed(Bits(x), n)
  }

  function ByteBits(b: bv8): seq<bool> {
    Low(b as bv32, 8)
  }

  function CodeBits(code: nat): seq<bool>
    requires code < 32
  {
    Low(code as bv32, 5)
  }

  /** The bits of a byte string. */
  function Stream(bytes: seq<bv8>): (bits: seq<bool>)
    ensures |bits| == 8 * |bytes|
  {
    if bytes == [] then [] else Stream(bytes[..|bytes| - 1]) + ByteBits(bytes[|bytes| - 1])
  }

  /** The bits of a text: five for every accepted character. */
  function TextBits(s: string): seq<bool> {
    if s == [] then []
    else TextBits(s[..|s| - 1]) + if Accepted(s[|s| - 1]) then CodeBits(CodeOf(s[|s| - 1])) else []
  }

  predicate IsFiller(bits: seq<bool>) {
    |bits| < 5 && forall i :: 0 <= i < |bits| ==> !bits[i]
  }

  /** `s` spells exactly the bits of `bytes`, filled up with fewer than five zero bits. */
  predicate IsEncoding(bytes: seq<bv8>, s: string) {
    && (forall i :: 0 <= i < |s| ==> 'a' <= s[i] <= 'z' || '2' <= s[i] <= '7')
    && |Stream(bytes)| <= |TextBits(s)|
    && TextBits(s)[..|Stream(bytes)|] == Stream(bytes)
    && IsFiller(TextBits(s)[|Stream(bytes)|..])
  }

  /** `bytes` are all the whole bytes at the start of the bits of `s`. */
  predicate IsDecoding(s: string, bytes: seq<bv8>) {
    && |Stream(bytes)| <= |TextBits(s)| < |Stream(bytes)| + 8
    && TextBits(s)[..|Stream(bytes)|] == Stream(bytes)
  }

  lemma PushByteBit(x: bv32, b: bv8, t: nat)
    requires t < 12
    ensures BitAt((x << 8) | (b as bv32), t) == if t < 8 then BitAt(b as bv32, t) else BitAt(x, t - 8)
  {
    assert t == 0 || t == 1 || t == 2 || t == 3 || t == 4 || t == 5 || t == 6 || t == 7 || t == 8 || t == 9 || t == 10
        || t == 11;
  }

  lemma PushCodeBit(x: bv32, c: bv32, t: nat)
    requires t < 12 && c < 32
    ensures BitAt((x << 5) | c, t) == if t < 5 then BitAt(c, t) else BitAt(x, t - 5)
  {
    assert t == 0 || t == 1 || t == 2 || t == 3 || t == 4 || t == 5 || t == 6 || t == 7 || t == 8 || t == 9 || t == 10
        || t == 11;
  }

  /** Concatenating pending bits with new ones, given where every bit of the new register comes from. */
  lemma Joined(y: seq<bool>, x: seq<bool>, n: nat, z: seq<bool>, k: nat)
    requires |x| == |y| == |z| == 32 && n + k <= 12
    requires forall t: nat :: t < n + k ==> y[t] == if t < k then z[t] else x[t - k]
    ensures Reversed(y, n + k) == Reversed(x, n) + Reversed(z, k)
  {
  }

  lemma Split(x: seq<bool>, r: nat, y: seq<bool>, k: nat)
    requires |x| == |y| == 32 && r + k < 13
    requires forall t: nat :: t < k ==> y[t] == x[r + t]
    ensures Reversed(x, r + k) == Reversed(y, k) + Reversed(x, r)
  {
  }

  /** Shifting in a byte appends its bits to the pending ones. */
  lemma PushByte(x: bv32, n: nat, b: bv8)
    requires n < 5
    ensures Low((x << 8) | (b as bv32), n + 8) == Low(x, n) + ByteBits(b)
  {
    var y := (x << 8) | (b as bv32);
    forall t: nat | t < n + 8
      ensures BitAt(y, t) == if t < 8 then BitAt(b as bv32, t) else BitAt(x, t - 8)
    {
      PushByteBit(x, b, t);
    }
    Joined(Bits(y), Bits(x), n, Bits(b as bv32), 8);
  }

  /** Shifting in a symbol appends its bits. */
  lemma PushCode(x: bv32, n: nat, c: bv32)
    requires n < 8 && c < 32
    ensures Low((x << 5) | c, n + 5) == Low(x, n) + Low(c, 5)
  {
    var y := (x << 5) | c;
    forall t: nat | t < n + 5
      ensures Bits(y)[t] == if t < 5 then Bits(c)[t] else Bits(x)[t - 5]
    {
      PushCodeBit(x, c, t);
    }
    Joined(Bits(y), Bits(x), n, Bits(c), 5);
  }

  lemma SmallCode(code: nat)
    requires code < 32
    ensures code as bv32 < 32
  {
  }

  lemma TopCodeBit(x: bv32, r: nat, t: nat)
    requires r < 8 && t < 5
    ensures BitAt((x >> r) & 31, t) == BitAt(x, r + t)
  {
    assert r == 0 || r == 1 || r == 2 || r == 3 || r == 4 || r == 5 || r == 6 || r == 7;
    assert t == 0 || t == 1 || t == 2 || t == 3 || t == 4;
  }

  lemma TopByteBit(x: bv32, r: nat, t: nat)
    requires r < 5 && t < 8
    ensures BitAt((x >> r) & 255, t) == BitAt(x, r + t)
  {
    assert r == 0 || r == 1 || r == 2 || r == 3 || r == 4;
    assert t == 0 || t == 1 || t == 2 || t == 3 || t == 4 || t == 5 || t == 6 || t == 7;
  }

  /** Taking out the topmost five pending bits. */
  lemma PopCode(x: bv32, r: nat)
    requires r < 8
    ensures Low(x, r + 5) == Low((x >> r) & 31, 5) + Low(x, r)
  {
    var y := (x >> r) & 31;
    forall t: nat | t < 5
      ensures BitAt(y, t) == BitAt(x, r + t)
    {
      TopCodeBit(x, r, t);
    }
    Split(Bits(x), r, Bits(y), 5);
  }

  /** Taking out the topmost eight pending bits. */
  lemma PopByte(x: bv32, r: nat)
    requires r < 5
    ensures Low(x, r + 8) == Low((x >> r) & 255, 8) + Low(x, r)
  {
    var y := (x >> r) & 255;
    forall t: nat | t < 8
      ensures BitAt(y, t) == BitAt(x, r + t)
    {
      TopByteBit(x, r, t);
    }
    Split(Bits(x), r, Bits(y), 8);
  }

  lemma FillBit(x: bv32, r: nat, t: nat)
    requires r < 5 && t < 5
    ensures BitAt((x << r) & 31, t) == (t >= r && BitAt(x, t - r))
  {
    assert r == 0 || r == 1 || r == 2 || r == 3 || r == 4;
    assert t == 0 || t == 1 || t == 2 || t == 3 || t == 4;
  }

  /** The last symbol: the pending bits followed by zero bits. */
  lemma Fill(x: bv32, n: nat)
    requires 0 < n < 5
    ensures Low((x << (5 - n)) & 31, 5)[..n] == Low(x, n)
    ensures IsFiller(Low((x << (5 - n)) & 31, 5)[n..])
  {
    var y := (x << (5 - n)) & 31;
    forall t: nat | t < 5
      ensures BitAt(y, t) == (t >= 5 - n && BitAt(x, t - (5 - n)))
    {
      FillBit(x, 5 - n, t);
    }
  }

  lemma CodeOfMasked(x: bv32)
    ensures (x & 31) as int < 32 && ((x & 31) as int) as bv32 == x & 31
  {
    var y := x & 31;
    assert y < 32;
  }

  lemma ByteOfMasked(x: bv32)
    ensures (((x & 255) as bv8) as bv32) == x & 255
  {
  }

  lemma TextBitsAppend(s: string, code: nat)
    requires code < 32
    ensures TextBits(s + [Symbol(code)]) == TextBits(s) + CodeBits(code)
  {
    assert (s + [Symbol(code)])[..|s|] == s;
    CodeOfSymbol(code);
  }

  lemma StreamAppend(bytes: seq<bv8>, b: bv8)
    ensures Stream(bytes + [b]) == Stream(bytes) + ByteBits(b)
  {
    assert (bytes + [b])[..|bytes|] == bytes;
  }

  lemma StreamNext(bytes: seq<bv8>, i: nat)
    requires i < |bytes|
    ensures Stream(bytes[..i + 1]) == Stream(bytes[..i]) + ByteBits(bytes[i])
  {
    assert bytes[..i + 1][..i] == bytes[..i];
  }

  lemma {:induction false} SameStream(a: seq<bv8>, b: seq<bv8>)
    requires Stream(a) == Stream(b)
    ensures a == b
  {
    assert |a| == |b|;
    if a != [] {
      var n := |a| - 1;
      assert Stream(a) == Stream(a[..n]) + ByteBits(a[n]) && Stream(b) == Stream(b[..n]) + ByteBits(b[n]);
      assert Stream(a)[..8 * n] == Stream(a[..n]) && Stream(b)[..8 * n] == Stream(b[..n]);
      assert Stream(a)[8 * n..] == ByteBits(a[n]) && Stream(b)[8 * n..] == ByteBits(b[n]);
      SameByte(a[n], b[n]);
      SameStream(a[..n], b[..n]);
    }
  }

  lemma SameByte(a: bv8, b: bv8)
    requires ByteBits(a) == ByteBits(b)
    ensures a == b
  {
    forall t: nat {:trigger BitAt(a as bv32, t)} | t < 8
      ensures BitAt(a as bv32, t) == BitAt(b as bv32, t)
    {
      assert ByteBits(a)[7 - t] == ByteBits(b)[7 - t];
    }
    assert BitAt(a as bv32, 0) == BitAt(b as bv32, 0) && BitAt(a as bv32, 1) == BitAt(b as bv32, 1);
    assert BitAt(a as bv32, 2) == BitAt(b as bv32, 2) && BitAt(a as bv32, 3) == BitAt(b as bv32, 3);
    assert BitAt(a as bv32, 4) == BitAt(b as bv32, 4) && BitAt(a as bv32, 5) == BitAt(b as bv32, 5);
    assert BitAt(a as bv32, 6) == BitAt(b as bv32, 6) && BitAt(a as bv32, 7) == BitAt(b as bv32, 7);
  }

  /** A text has at most one decoding. */
  lemma DecodingUnique(s: string, a: seq<bv8>, b: seq<bv8>)
    requires IsDecoding(s, a) && IsDecoding(s, b)
    ensures a == b
  {
    assert |a| == |b|;
    SameStream(a, b);
  }

  /** Decoding undoes encoding, and an encoding of n bytes has ceil(8n/5) symbols. */
  lemma DecodeEncode(bytes: seq<bv8>, s: string, bytes': seq<bv8>)
    requires IsEncoding(bytes, s) && IsDecoding(s, bytes')
    ensures bytes' == bytes
    ensures |s| == (8 * |bytes| + 4) / 5
  {
    DecodingUnique(s, bytes, bytes');
    LowerCaseLength(s);
  }

  lemma {:induction false} StreamBit(bytes: seq<bv8>, k: nat)
    requires k < 8 * |bytes|
    ensures Stream(bytes)[k] == ByteBits(bytes[k / 8])[k % 8]
  {
    var n := |bytes| - 1;
    if k < 8 * n {
      StreamBit(bytes[..n], k);
    } else {
      assert k / 8 == n && k % 8 == k - 8 * n;
    }
  }

  lemma {:induction false} TextBit(s: string, i: nat, t: nat)
    requires i < |s| && t < 5 && forall j :: 0 <= j < |s| ==> Accepted(s[j])
    ensures 5 * i + t < |TextBits(s)| && TextBits(s)[5 * i + t] == CodeBits(CodeOf(s[i]))[t]
  {
    LowerCaseLength(s);
    LowerCaseLength(s[..|s| - 1]);
    if i < |s| - 1 {
      TextBit(s[..|s| - 1], i, t);
    }
  }

  lemma CodeBit(code: nat, t: nat)
    requires code < 32 && t < 5
    ensures CodeBits(code)[t] <==> (code as bv32 >> (4 - t)) & 1 == 1
  {
  }

  lemma ByteBit(b: bv8, t: nat)
    requires t < 8
    ensures ByteBits(b)[t] <==> (b >> (7 - t)) & 1 == 1
  {
    assert t == 0 || t == 1 || t == 2 || t == 3 || t == 4 || t == 5 || t == 6 || t == 7;
  }

  lemma TextBitIs(bytes: seq<bv8>, s: string, i: nat, t: nat, at: nat, u: nat)
    requires IsEncoding(bytes, s) && i < |s| && t < 5 && 5 * i + t == 8 * at + u && u < 8
    ensures CodeBits(CodeOf(s[i]))[t] <==> at < |bytes| && ByteBits(bytes[at])[u]
  {
    hide CodeBits, ByteBits, Stream, TextBits, CodeOf;
    TextBit(s, i, t);
    var k := 5 * i + t;
    if at < |bytes| {
      StreamBit(bytes, k);
      assert TextBits(s)[k] == TextBits(s)[..|Stream(bytes)|][k];
    } else {
      assert TextBits(s)[k] == TextBits(s)[|Stream(bytes)|..][k - |Stream(bytes)|];
    }
  }

  lemma CodeIs(code: nat)
    requires code < 32
    ensures var c := "abcdefghijklmnopqrstuvwxyz234567"[code]; Accepted(c) && CodeOf(c) == code
  {
    AlphabetIs();
    assert ALPHABET == "abcdefghijklmnopqrstuvwxyz234567";
    CodeOfSymbol(code);
  }

  /** RFC 4648, section 6: the i-th symbol is the lower-case letter or the digit from 2 to 7 for five bits of the
      bytes, read from the highest bit of the first byte on; behind the last byte the bits are 0. */
  lemma SymbolBits(bytes: seq<bv8>, s: string, i: nat, t: nat, code: nat, at: nat, u: nat)
    requires IsEncoding(bytes, s) && i < |s| && t < 5 && code < 32
    requires s[i] == "abcdefghijklmnopqrstuvwxyz234567"[code]
    requires 5 * i + t == 8 * at + u && u < 8
    ensures (code as bv32 >> (4 - t)) & 1 == 1 <==> at < |bytes| && (bytes[at] >> (7 - u)) & 1 == 1
  {
    hide CodeBits, ByteBits, IsEncoding, CodeOf;
    CodeIs(code);
    TextBitIs(bytes, s, i, t, at, u);
    CodeBit(code, t);
    if at < |bytes| {
      ByteBit(bytes[at], u);
    }
  }

  lemma {:induction false} LowerCaseLength(s: string)
    requires forall i :: 0 <= i < |s| ==> Accepted(s[i])
    ensures |TextBits(s)| == 5 * |s|
  {
    if s != [] {
      LowerCaseLength(s[..|s| - 1]);
    }
  }

  /** Only the accepted characters of a text count: padding, blanks and line breaks are skipped. */
  lemma {:induction false} ForeignSkipped(a: string, c: char, b: string)
    requires !Accepted(c)
    ensures TextBits(a + [c] + b) == TextBits(a + b)
  {
    if b == [] {
      TextBitsLast(a, c);
      assert a + [c] + b == a + [c] && a + b == a;
    } else {
      var n := |b| - 1;
      ForeignSkipped(a, c, b[..n]);
      TextBitsLast(a + [c] + b[..n], b[n]);
      TextBitsLast(a + b[..n], b[n]);
      assert a + [c] + b == (a + [c] + b[..n]) + [b[n]] && a + b == (a + b[..n]) + [b[n]];
    }
  }

  lemma TextBitsLast(s: string, c: char)
    ensures TextBits(s + [c]) == TextBits(s) + if Accepted(c) then CodeBits(CodeOf(c)) else []
  {
    assert (s + [c])[..|s|] == s;
  }

  method Encode(bytes: seq<bv8>) returns (result: string)
    ensures IsEncoding(bytes, result)
  {
    AlphabetIs();
    var alphabet := ALPHABET;
    result := EncodeWith(alphabet, bytes);
  }

  predicate LowerCase(s: string) {
    forall i :: 0 <= i < |s| ==> 'a' <= s[i] <= 'z' || '2' <= s[i] <= '7'
  }

  /** The bits seen so far are those written plus those pending in the register. */
  predicate Pending(seen: seq<bool>, written: seq<bool>, buffer: bv32, bits: nat) {
    bits <= 32 && seen == written + Low(buffer, bits)
  }

  lemma MoreSeen(seen: seq<bool>, more: seq<bool>, written: seq<bool>, low: seq<bool>, low': seq<bool>)
    requires seen == written + low && low' == low + more
    ensures seen + more == written + low'
  {
  }

  lemma MoreWritten(seen: seq<bool>, written: seq<bool>, more: seq<bool>, low: seq<bool>, low': seq<bool>)
    requires seen == written + low && low == more + low'
    ensures seen == (written + more) + low'
  {
  }

  method ShiftInByte(buffer: bv32, b: bv8, ghost bits: nat, ghost seen: seq<bool>, ghost written: seq<bool>)
    returns (next: bv32)
    requires bits < 5 && Pending(seen, written, buffer, bits)
    ensures Pending(seen + ByteBits(b), written, next, bits + 8)
  {
    next := (buffer << 8) | (b as bv32);
    PushByte(buffer, bits, b);
    MoreSeen(seen, ByteBits(b), written, Low(buffer, bits), Low(next, bits + 8));
  }

  method ShiftInCode(buffer: bv32, code: nat, ghost bits: nat, ghost seen: seq<bool>, ghost written: seq<bool>)
    returns (next: bv32)
    requires bits < 8 && code < 32 && Pending(seen, written, buffer, bits)
    ensures Pending(seen + CodeBits(code), written, next, bits + 5)
  {
    next := (buffer << 5) | (code as bv32);
    SmallCode(code);
    PushCode(buffer, bits, code as bv32);
    MoreSeen(seen, CodeBits(code), written, Low(buffer, bits), Low(next, bits + 5));
  }

  /** Read the topmost five of `bits + 5` pending bits. */
  method TakeCode(buffer: bv32, bits: nat, ghost seen: seq<bool>, ghost written: seq<bool>) returns (code: nat)
    requires bits < 8 && Pending(seen, written, buffer, bits + 5)
    ensures code < 32 && Pending(seen, written + CodeBits(code), buffer, bits)
  {
    PopCode(buffer, bits);
    var top := buffer >> bits;
    CodeOfMasked(top);
    code := (top & 31) as int;
    MoreWritten(seen, written, CodeBits(code), Low(buffer, bits + 5), Low(buffer, bits));
  }

  /** Read the topmost eight of `bits + 8` pending bits. */
  method TakeByte(buffer: bv32, bits: nat, ghost seen: seq<bool>, ghost written: seq<bool>) returns (b: bv8)
    requires bits < 5 && Pending(seen, written, buffer, bits + 8)
    ensures Pending(seen, written + ByteBits(b), buffer, bits)
  {
    PopByte(buffer, bits);
    var top := buffer >> bits;
    ByteOfMasked(top);
    b := (top & 255) as bv8;
    MoreWritten(seen, written, ByteBits(b), Low(buffer, bits + 8), Low(buffer, bits));
  }

  /** Read the last one to four pending bits and fill up with zero bits. */
  method TakeRest(buffer: bv32, bits: nat) returns (code: nat)
    requires 0 < bits < 5
    ensures code < 32 && CodeBits(code)[..bits] == Low(buffer, bits) && IsFiller(CodeBits(code)[bits..])
  {
    Fill(buffer, bits);
    var rest := buffer << (5 - bits);
    CodeOfMasked(rest);
    code := (rest & 31) as int;
  }

  lemma CutInside(a: seq<bool>, b: seq<bool>, n: nat)
    requires n <= |b|
    ensures (a + b)[..|a| + n] == a + b[..n] && (a + b)[|a| + n..] == b[n..]
  {
  }

  /** Write symbols while at least five bits are pending. */
  method Drain(alphabet: string, buffer: bv32, pending: nat, text: string, ghost seen: seq<bool>)
    returns (bits: nat, result: string)
    requires Spelled(alphabet) && LowerCase(text) && pending < 13 && Pending(seen, TextBits(text), buffer, pending)
    ensures bits < 5 && LowerCase(result) && Pending(seen, TextBits(result), buffer, bits)
  {
    bits, result := pending, text;
    while bits >= 5
      invariant bits < 13 && LowerCase(result) && Pending(seen, TextBits(result), buffer, bits)
    {
      bits := bits - 5;
      var code := TakeCode(buffer, bits, seen, TextBits(result));
      TextBitsAppend(result, code);
      result := result + [alphabet[code]];
    }
  }

  method EncodeWith(alphabet: string, bytes: seq<bv8>) returns (result: string)
    requires Spelled(alphabet)
    ensures IsEncoding(bytes, result)
  {
    var bits, buffer: bv32 := 0, 0;
    result := "";
    for i := 0 to |bytes|
      invariant 0 <= bits < 5 && LowerCase(result)
      invariant Pending(Stream(bytes[..i]), TextBits(result), buffer, bits)
    {
      StreamNext(bytes, i);
      buffer := ShiftInByte(buffer, bytes[i], bits, Stream(bytes[..i]), TextBits(result));
      bits, result := Drain(alphabet, buffer, bits + 8, result, Stream(bytes[..i + 1]));
    }
    assert bytes[..|bytes|] == bytes;
    if bits > 0 {
      var code := TakeRest(buffer, bits);
      FilledUp(bytes, result, Low(buffer, bits), code);
      result := result + [alphabet[code]];
    }
  }

  lemma FilledUp(bytes: seq<bv8>, text: string, low: seq<bool>, code: nat)
    requires LowerCase(text) && Stream(bytes) == TextBits(text) + low && |low| <= 5 && code < 32
    requires CodeBits(code)[..|low|] == low && IsFiller(CodeBits(code)[|low|..])
    ensures IsEncoding(bytes, text + [Symbol(code)])
  {
    var all := TextBits(text + [Symbol(code)]);
    TextBitsAppend(text, code);
    CutInside(TextBits(text), CodeBits(code), |low|);
    assert all[..|Stream(bytes)|] == Stream(bytes);
    assert all[|Stream(bytes)|..] == CodeBits(code)[|low|..];
  }

  method BuildLookup(alphabet: string) returns (lookup: map<char, nat>)
    requires Spelled(alphabet)
    ensures forall c :: c in lookup <==> Accepted(c)
    ensures forall c :: c in lookup ==> lookup[c] == CodeOf(c)
  {
    lookup := map[];
    for i := 0 to |alphabet|
      invariant forall c :: c in lookup ==> Accepted(c) && lookup[c] == CodeOf(c)
      invariant forall c :: Accepted(c) && !('A' <= c <= 'Z') && CodeOf(c) < i ==> c in lookup
    {
      CodeOfSymbol(i);
      lookup := lookup[alphabet[i] := i];
    }
    for i := 0 to |alphabet|
      invariant forall c :: c in lookup ==> Accepted(c) && lookup[c] == CodeOf(c)
      invariant forall c :: Accepted(c) && !('A' <= c <= 'Z') ==> c in lookup
      invariant forall c :: 'A' <= c <= 'Z' && CodeOf(c) < i ==> c in lookup
    {
      CodeOfSymbol(i);
      lookup := lookup[ToUpperCase(alphabet[i]) := i];
    }
  }

  function ToUpperCase(c: char): char {
    if 'a' <= c <= 'z' then 'A' + (c - 'a') else c
  }

  method Decode(s: string) returns (result: seq<bv8>)
    ensures IsDecoding(s, result)
  {
    AlphabetIs();
    var lookup := BuildLookup(ALPHABET);
    result := DecodeWith(lookup, s);
  }

  lemma TextBitsNext(s: string, i: nat)
    requires i < |s|
    ensures TextBits(s[..i + 1]) == TextBits(s[..i]) + if Accepted(s[i]) then CodeBits(CodeOf(s[i])) else []
  {
    assert s[..i + 1][..i] == s[..i];
  }

  method DecodeWith(lookup: map<char, nat>, s: string) returns (result: seq<bv8>)
    requires forall c :: c in lookup <==> Accepted(c)
    requires forall c :: c in lookup ==> lookup[c] == CodeOf(c)
    ensures IsDecoding(s, result)
  {
    var bits, buffer: bv32 := 0, 0;
    result := [];
    for i := 0 to |s|
      invariant 0 <= bits < 8
      invariant Pending(TextBits(s[..i]), Stream(result), buffer, bits)
    {
      TextBitsNext(s, i);
      ghost var seen := TextBits(s[..i + 1]);
      if s[i] in lookup {
        var val := lookup[s[i]];
        buffer := ShiftInCode(buffer, val, bits, TextBits(s[..i]), Stream(result));
        bits := bits + 5;
        if bits >= 8 {
          bits := bits - 8;
          var b := TakeByte(buffer, bits, seen, Stream(result));
          StreamAppend(result, b);
          result := result + [b];
        }
      }
    }
    assert s[..|s|] == s;
  }
}
