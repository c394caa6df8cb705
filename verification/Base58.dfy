/** Base58btc text for byte strings. */
module Base58 {
  import opened Bytes
  import opened Numerals
  import opened Transcoding

  const ALPHABET: string :=
    "123456789" + "ABCDEFGH" + "JKLMN" + "PQRSTUVWXYZ" + "abcdefghijk" + "mnopqrstuvwxyz"

  /** The symbol for a digit, run by run. */
  function Symbol(d: nat): char
    requires d < 58
  {
    if d < 9 then '1' + d as char
    else if d < 17 then 'A' + (d - 9) as char
    else if d < 22 then 'J' + (d - 17) as char
    else if d < 33 then 'P' + (d - 22) as char
    else if d < 44 then 'a' + (d - 33) as char
    else 'm' + (d - 44) as char
  }

  predicate InAlphabet(c: char) {
    '1' <= c <= '9' || ('A' <= c <= 'Z' && c != 'I' && c != 'O') || ('a' <= c <= 'z' && c != 'l')
  }

  function DigitOf(c: char): (d: nat)
    requires InAlphabet(c)
    ensures d < 58 && Symbol(d) == c
  {
    if c <= '9' then c as int - '1' as int
    else if c <= 'H' then c as int - 'A' as int + 9
    else if c <= 'N' then c as int - 'J' as int + 17
    else if c <= 'Z' then c as int - 'P' as int + 22
    else if c <= 'k' then c as int - 'a' as int + 33
    else c as int - 'm' as int + 44
  }

  lemma SymbolInverse(d: nat)
    requires d < 58
    ensures InAlphabet(Symbol(d)) && DigitOf(Symbol(d)) == d
  {
  }

  predicate IsRun(s: string, first: char) {
    forall i :: 0 <= i < |s| ==> s[i] as int == first as int + i
  }

  lemma UpperRuns()
    ensures IsRun("123456789", '1') && IsRun("ABCDEFGH", 'A') && IsRun("JKLMN", 'J')
  {
  }

  lemma MiddleRun()
    ensures IsRun("PQRSTUVWXYZ", 'P')
  {
  }

  lemma LowerRun()
    ensures IsRun("abcdefghijk", 'a')
  {
  }

  lemma LastRun()
    ensures IsRun("mnopqrstuvwxyz", 'm')
  {
  }

  /** The alphabet string spells out the symbols in digit order. */
  lemma AlphabetIs()
    ensures |ALPHABET| == 58 && forall d: nat :: d < 58 ==> ALPHABET[d] == Symbol(d)
  {
    UpperRuns();
    MiddleRun();
    LowerRun();
    LastRun();
  }

  function Symbols(ds: seq<nat>): (s: string)
    requires AreDigits(58, ds)
    ensures |s| == |ds|
  {
    if ds == [] then [] else Symbols(ds[..|ds| - 1]) + [Symbol(ds[|ds| - 1])]
  }

  predicate AllInAlphabet(s: string) {
    forall i :: 0 <= i < |s| ==> InAlphabet(s[i])
  }

  function DigitsOf(s: string): (ds: seq<nat>)
    requires AllInAlphabet(s)
    ensures |ds| == |s| && AreDigits(58, ds)
  {
    if s == [] then [] else DigitsOf(s[..|s| - 1]) + [DigitOf(s[|s| - 1])]
  }

  lemma {:induction false} DigitsOfSymbols(ds: seq<nat>)
    requires AreDigits(58, ds)
    ensures AllInAlphabet(Symbols(ds)) && DigitsOf(Symbols(ds)) == ds
  {
    if ds != [] {
      var n := |ds| - 1;
      DigitsOfSymbols(ds[..n]);
      SymbolInverse(ds[n]);
      var s := Symbols(ds);
      assert s[..n] == Symbols(ds[..n]) && s[n] == Symbol(ds[n]);
    }
  }

  lemma {:induction false} SymbolsOfDigits(s: string)
    requires AllInAlphabet(s)
    ensures Symbols(DigitsOf(s)) == s
  {
    if s != [] {
      var n := |s| - 1;
      SymbolsOfDigits(s[..n]);
      assert DigitsOf(s)[..n] == DigitsOf(s[..n]);
      assert s == s[..n] + [s[n]];
    }
  }

  lemma {:induction false} SymbolsConcat(a: seq<nat>, b: seq<nat>)
    requires AreDigits(58, a) && AreDigits(58, b)
    ensures Symbols(a + b) == Symbols(a) + Symbols(b)
  {
    if b == [] {
      assert a + b == a;
    } else {
      var n := |b| - 1;
      SymbolsConcat(a, b[..n]);
      assert (a + b)[..|a + b| - 1] == a + b[..n];
    }
  }

  lemma BytesAreDigits(bytes: seq<byte>)
    ensures AreDigits(256, bytes)
  {
  }

  /** The text of a byte string: one '1' per leading zero byte, then the rest as one number. */
  ghost function Encoded(bytes: seq<byte>): string {
    BytesAreDigits(bytes);
    TranscodeBack(256, 58, bytes);
    Symbols(Transcode(256, 58, bytes))
  }

  /** The bytes of a text; a text with a foreign character gives no bytes. */
  ghost function Decoded(s: string): seq<nat> {
    if AllInAlphabet(s) then Transcode(58, 256, DigitsOf(s)) else []
  }

  /** Decoding yields bytes. */
  lemma DecodedAreBytes(s: string)
    ensures AreDigits(256, Decoded(s))
  {
    if AllInAlphabet(s) {
      TranscodeBack(58, 256, DigitsOf(s));
    }
  }

  /** Decoding undoes encoding. */
  lemma DecodeEncode(bytes: seq<byte>)
    ensures Decoded(Encoded(bytes)) == bytes
  {
    BytesAreDigits(bytes);
    TranscodeBack(256, 58, bytes);
    DigitsOfSymbols(Transcode(256, 58, bytes));
  }

  /** Encoding undoes decoding exactly on the texts over the alphabet. */
  lemma EncodeDecode(s: string)
    ensures AreDigits(256, Decoded(s)) && (Encoded(Decoded(s)) == s <==> AllInAlphabet(s))
  {
    DecodedAreBytes(s);
    var bytes: seq<byte> := Decoded(s);
    if AllInAlphabet(s) {
      TranscodeBack(58, 256, DigitsOf(s));
      SymbolsOfDigits(s);
    } else {
      BytesAreDigits(bytes);
      TranscodeBack(256, 58, bytes);
      DigitsOfSymbols(Transcode(256, 58, bytes));
    }
  }

  /** The symbols are the letters and digits but for 0, I, O and l, in the order of their codes. */
  lemma SymbolOrder(c: char)
    ensures |ALPHABET| == 58 && forall i, j :: 0 <= i < j < 58 ==> ALPHABET[i] < ALPHABET[j]
    ensures c in ALPHABET <==>
            ('0' <= c <= '9' || 'A' <= c <= 'Z' || 'a' <= c <= 'z') && c != '0' && c != 'I' && c != 'O' && c != 'l'
    ensures forall i :: 0 <= i < 58 ==> InAlphabet(ALPHABET[i]) && DigitOf(ALPHABET[i]) == i
  {
    AlphabetIs();
    forall i | 0 <= i < 58
      ensures InAlphabet(ALPHABET[i]) && DigitOf(ALPHABET[i]) == i
    {
      SymbolInverse(i);
    }
    if InAlphabet(c) {
      assert ALPHABET[DigitOf(c)] == c;
    }
  }

  /** The text is the same number as the bytes, in base 58 instead of 256, and has a '1' for every leading zero byte
      and no other leading '1'. */
  lemma EncodedValue(bytes: seq<byte>) returns (z: nat)
    ensures AllInAlphabet(Encoded(bytes)) && Value(58, DigitsOf(Encoded(bytes))) == Value(256, bytes)
    ensures z <= |bytes| && z <= |Encoded(bytes)|
    ensures forall i :: 0 <= i < z ==> bytes[i] == 0 && Encoded(bytes)[i] == '1'
    ensures z < |bytes| ==> bytes[z] != 0
    ensures z < |Encoded(bytes)| ==> Encoded(bytes)[z] != '1'
  {
    BytesAreDigits(bytes);
    TranscodeBack(256, 58, bytes);
    z := LeadingZeroCount(bytes);
    var v := Value(256, bytes);
    var ds := Transcode(256, 58, bytes);
    DigitsValue(58, v);
    LeadingZeros(58, Zeros(z), Digits(58, v));
    DigitsOfSymbols(ds);
    SymbolsEach(ds);
    assert forall i :: 0 <= i < z ==> ds[i] == 0;
    if z < |ds| {
      assert ds[z] == Digits(58, v)[0] != 0;
      SymbolInverse(ds[z]);
    }
  }

  lemma {:induction false} SymbolsEach(ds: seq<nat>)
    requires AreDigits(58, ds)
    ensures forall i :: 0 <= i < |ds| ==> Symbols(ds)[i] == Symbol(ds[i])
  {
    if ds != [] {
      SymbolsEach(ds[..|ds| - 1]);
    }
  }

  predicate Spelled(alphabet: string) {
    |alphabet| == 58 && forall d: nat :: d < 58 ==> alphabet[d] == Symbol(d)
  }

  method NumberOfBytes(bytes: seq<byte>) returns (num: nat)
    ensures num == Value(256, bytes)
  {
    num := 0;
    for i := 0 to |bytes|
      invariant num == Value(256, bytes[..i])
    {
      ValueNext(256, bytes, i);
      num := num * 256 + bytes[i];
    }
    assert bytes[..|bytes|] == bytes;
  }

  /** Peel off digits from the right and prepend their symbols. */
  method TextOfNumber(alphabet: string, n: nat) returns (result: string)
    requires Spelled(alphabet)
    ensures AreDigits(58, Digits(58, n)) && result == Symbols(Digits(58, n))
  {
    var num := n;
    result := "";
    ghost var ds: seq<nat> := [];
    DigitsValue(58, n);
    while num > 0
      invariant AreDigits(58, ds) && Digits(58, num) + ds == Digits(58, n)
      invariant result == Symbols(ds)
    {
      PrependSymbol(num % 58, ds);
      assert Digits(58, num) + ds == Digits(58, num / 58) + ([num % 58] + ds);
      result := [alphabet[num % 58]] + result;
      ds := [num % 58] + ds;
      num := num / 58;
    }
    assert Digits(58, n) == Digits(58, 0) + ds == ds;
  }

  lemma PrependSymbol(d: nat, ds: seq<nat>)
    requires d < 58 && AreDigits(58, ds)
    ensures Symbols([d] + ds) == [Symbol(d)] + Symbols(ds)
  {
    SymbolsConcat([d], ds);
    assert Symbols([d]) == [Symbol(d)];
  }

  lemma OneMoreZero(n: nat, ds: seq<nat>)
    ensures Zeros(n + 1) + ds == [0] + (Zeros(n) + ds)
  {
  }

  lemma ZerosAreDigits(n: nat, ds: seq<nat>)
    requires AreDigits(58, ds)
    ensures AreDigits(58, Zeros(n) + ds)
  {
  }

  method PrependOnes(bytes: seq<byte>, text: string, ghost ds: seq<nat>) returns (result: string)
    requires AreDigits(58, ds) && text == Symbols(ds)
    ensures AreDigits(58, Zeros(LeadingZeroCount(bytes)) + ds)
    ensures result == Symbols(Zeros(LeadingZeroCount(bytes)) + ds)
  {
    hide Symbols, AreDigits;
    ZerosAreDigits(LeadingZeroCount(bytes), ds);
    result := text;
    var i := 0;
    assert Zeros(0) + ds == ds;
    while i < |bytes| && bytes[i] == 0
      invariant i <= LeadingZeroCount(bytes)
      invariant AreDigits(58, Zeros(i) + ds) && result == Symbols(Zeros(i) + ds)
    {
      ZerosAreDigits(i + 1, ds);
      OneMoreZero(i, ds);
      PrependSymbol(0, Zeros(i) + ds);
      result := "1" + result;
      i := i + 1;
    }
  }

  method Encode(bytes: seq<byte>) returns (result: string)
    ensures result == Encoded(bytes)
  {
    var num := NumberOfBytes(bytes);
    AlphabetIs();
    result := TextOfNumber(ALPHABET, num);
    result := PrependOnes(bytes, result, Digits(58, num));
  }

  /** The table from character to digit. */
  method BuildLookup(alphabet: string) returns (lookup: map<char, nat>)
    requires Spelled(alphabet)
    ensures forall c :: c in lookup <==> InAlphabet(c)
    ensures forall c :: c in lookup ==> lookup[c] == DigitOf(c)
  {
    lookup := map[];
    for i := 0 to |alphabet|
      invariant forall c :: c in lookup ==> InAlphabet(c) && lookup[c] == DigitOf(c)
      invariant forall c :: InAlphabet(c) && DigitOf(c) < i ==> c in lookup
    {
      SymbolInverse(i);
      lookup := lookup[alphabet[i] := i];
    }
  }

  lemma EmptyText()
    ensures AllInAlphabet("") && Value(58, DigitsOf("")) == 0
  {
  }

  lemma OneMoreSymbol(s: string, i: nat)
    requires i < |s| && AllInAlphabet(s[..i])
    ensures AllInAlphabet(s[..i + 1]) <==> InAlphabet(s[i])
    ensures InAlphabet(s[i]) ==>
              Value(58, DigitsOf(s[..i + 1])) == Value(58, DigitsOf(s[..i])) * 58 + DigitOf(s[i])
  {
    hide Value, InAlphabet, DigitOf;
    assert s[..i + 1][..i] == s[..i];
    if InAlphabet(s[i]) {
      ValueAppend(58, DigitsOf(s[..i]), DigitOf(s[i]));
    }
  }

  /** The number a text stands for, or `-1` when it has a foreign character. */
  method NumberOfText(lookup: map<char, nat>, s: string) returns (num: int)
    requires forall c :: c in lookup <==> InAlphabet(c)
    requires forall c :: c in lookup ==> lookup[c] == DigitOf(c)
    ensures num == if AllInAlphabet(s) then Value(58, DigitsOf(s)) else -1
  {
    hide Value, InAlphabet, DigitOf;
    EmptyText();
    num := 0;
    for i := 0 to |s|
      invariant AllInAlphabet(s[..i]) && num == Value(58, DigitsOf(s[..i]))
    {
      if s[i] !in lookup {
        return -1;
      }
      OneMoreSymbol(s, i);
      num := num * 58 + lookup[s[i]];
    }
    assert s[..|s|] == s;
  }

  method BytesOfNumber(n: nat) returns (result: seq<byte>)
    ensures result == Digits(256, n)
  {
    var num := n;
    result := [];
    while num > 0
      invariant Digits(256, num) + result == Digits(256, n)
    {
      assert Digits(256, num) + result == Digits(256, num / 256) + ([num % 256] + result);
      result := [num % 256] + result;
      num := num / 256;
    }
  }

  lemma {:induction false} DigitsOfAt(s: string, i: nat)
    requires AllInAlphabet(s) && i < |s|
    ensures DigitsOf(s)[i] == DigitOf(s[i])
  {
    if i < |s| - 1 {
      DigitsOfAt(s[..|s| - 1], i);
    }
  }

  method Decode(s: string) returns (result: seq<byte>)
    ensures result == Decoded(s)
  {
    AlphabetIs();
    var lookup := BuildLookup(ALPHABET);
    var num := NumberOfText(lookup, s);
    if num < 0 {
      return [];
    }
    result := BytesOfNumber(num);
    result := PrependZeros(s, result);
  }

  method PrependZeros(s: string, core: seq<byte>) returns (result: seq<byte>)
    requires AllInAlphabet(s)
    ensures result == Zeros(LeadingZeroCount(DigitsOf(s))) + core
  {
    result := core;
    ghost var ds := DigitsOf(s);
    var i := 0;
    while i < |s| && s[i] == '1'
      invariant i <= LeadingZeroCount(ds)
      invariant result == Zeros(i) + core
    {
      OneMoreZero(i, core);
      DigitsOfAt(s, i);
      result := [0] + result;
      i := i + 1;
    }
    if i < |s| {
      DigitsOfAt(s, i);
    }
  }
}
