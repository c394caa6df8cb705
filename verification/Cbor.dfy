/** DAG-CBOR: what the encoder writes, what the decoder reads, and that the second undoes the first. */
module Cbor {
  import opened Int32
  import opened Bytes
  import Base58

  /** Text is held as UTF-8.  An object is its entries in the order the encoder visits them.  A number is
      `Uint(n)` when it is a natural one, and otherwise `Float` of its bytes in IEEE 754 form; the decoder
      computes -1 - n for `Negative(n)`. */
  datatype Value =
    | Null
    | Bool(b: bool)
    | Uint(n: nat)
    | Negative(n: nat)
    | Float(ieee: seq<byte>)
    | ByteString(bytes: seq<byte>)
    | Text(utf8: seq<byte>)
    | Array(items: seq<Value>)
    | Object(entries: seq<Entry>)

  datatype Entry = Entry(key: seq<byte>, value: Value)

  const TWO53: nat := 0x20_0000_0000_0000
  const TWO64: nat := 0x1_0000_0000_0000_0000

  /** The bytes of "__proto__". */
  const PROTO: seq<byte> := [95, 95, 112, 114, 111, 116, 111, 95, 95]
  const BOM: seq<byte> := [0xef, 0xbb, 0xbf]

  /** The bytes of "$link". */
  const LINK: seq<byte> := [36, 108, 105, 110, 107]

  // ---- Natural numbers as doubles ----

  /** The distance between the doubles at and behind n. */
  function Spacing(n: nat): (u: nat)
    ensures u > 0
  {
    if n < TWO53 then 1 else 2 * Spacing(n / 2)
  }

  /** The double nearest to n, the even one of two. */
  function ToDouble(n: nat): nat {
    var u := Spacing(n);
    var q, r := n / u, n % u;
    if 2 * r > u || (2 * r == u && q % 2 == 1) then (q + 1) * u else q * u
  }

  predicate IsDouble(n: nat) {
    n % Spacing(n) == 0
  }

  lemma DoubleKept(n: nat)
    requires IsDouble(n)
    ensures ToDouble(n) == n
  {
  }

  lemma SmallIsDouble(n: nat)
    requires n < TWO53
    ensures Spacing(n) == 1 && IsDouble(n) && ToDouble(n) == n && n % TWO64 == n
  {
  }

  // ---- Encoding ----

  /** Initial byte and argument.  Every argument above 32 bits gets the 64-bit form, which keeps the low 64 bits. */
  function Head(major: nat, count: nat): (h: seq<byte>)
    requires major < 8
    ensures 1 <= |h| <= 9
  {
    if count < 24 then [32 * major + count]
    else if count < 0x100 then [32 * major + 24] + BigEndian(count, 1)
    else if count < 0x10000 then [32 * major + 25] + BigEndian(count, 2)
    else if count < TWO32 then [32 * major + 26] + BigEndian(count, 4)
    else [32 * major + 27] + BigEndian(count, 8)
  }

  /** For a number that is not a natural one the initial byte is assigned to the buffer object, not to the first
      of its bytes, and that one stays 0. */
  function Enc(v: Value): (e: seq<byte>)
    ensures |e| > 0
    decreases v, 1, 0
  {
    match v
    case Null => [0xf6]
    case Bool(b) => [if b then 0xf5 else 0xf4]
    case Uint(n) => Head(0, n)
    case Negative(n) => Head(1, n)
    case Float(ieee) => [0] + ieee
    case ByteString(bs) => Head(2, |bs|) + bs
    case Text(utf8) => Head(3, |utf8|) + utf8
    case Array(items) => Head(4, |items|) + EncItems(v, 0)
    case Object(entries) => Head(5, |entries|) + EncEntries(v, 0)
  }

  function EncItems(v: Value, i: nat): seq<byte>
    requires v.Array? && i <= |v.items|
    decreases v, 0, |v.items| - i
  {
    if i == |v.items| then [] else Enc(v.items[i]) + EncItems(v, i + 1)
  }

  function EncEntries(v: Value, i: nat): seq<byte>
    requires v.Object? && i <= |v.entries|
    decreases v, 0, |v.entries| - i
  {
    if i == |v.entries| then []
    else Head(3, |v.entries[i].key|) + v.entries[i].key + Enc(v.entries[i].value) + EncEntries(v, i + 1)
  }

  // ---- Decoding ----

  datatype Error = UnexpectedEnd | OutOfRange | Unmodelled

  datatype Decoded<T> = Ok(value: T, offset: nat) | Err(error: Error)

  /** The argument of a head whose initial byte ends before `o`. */
  function DecodeCount(bs: seq<byte>, o: nat, minor: nat): (r: Decoded<nat>)
    ensures r.Ok? ==> o <= r.offset <= o + 8
  {
    if minor < 24 then Ok(minor, o)
    else if minor == 24 then if o < |bs| then Ok(bs[o] as nat, o + 1) else Err(Unmodelled)
    else if minor == 25 then DecodeWide(bs, o, 2)
    else if minor == 26 then DecodeWide(bs, o, 4)
    else if minor == 27 then DecodeWide(bs, o, 8)
    else Ok(0, o)
  }

  function DecodeWide(bs: seq<byte>, o: nat, k: nat): (r: Decoded<nat>)
    ensures r.Ok? ==> r.offset == o + k
  {
    if o + k > |bs| then Err(OutOfRange)
    else Ok(ToDouble(ReadBigEndian(bs[o..o + k])), o + k)
  }

  function Left(bs: seq<byte>, o: nat): nat {
    if o < |bs| then |bs| - o else 0
  }

  /** A slice never fails; it stops at the end of the bytes. */
  function Slice(bs: seq<byte>, o: nat, count: nat): seq<byte> {
    if o >= |bs| then [] else if o + count > |bs| then bs[o..] else bs[o..o + count]
  }

  /** Text decoding drops a leading byte order mark and replaces what is not UTF-8. */
  function DecodeText(repair: seq<byte> -> seq<byte>, bs: seq<byte>): seq<byte> {
    if BOM <= bs then repair(bs[3..]) else repair(bs)
  }

  /** Assignment to a property: replaces it or adds it; assigning to __proto__ adds no property. */
  function SetProperty(es: seq<Entry>, key: seq<byte>, value: Value): (r: seq<Entry>)
    ensures |es| <= |r| <= |es| + 1
  {
    if key == PROTO then es else Assign(es, key, value)
  }

  function Assign(es: seq<Entry>, key: seq<byte>, value: Value): (r: seq<Entry>)
    ensures |es| <= |r| <= |es| + 1
    ensures |r| == |es| + 1 ==> r == es + [Entry(key, value)]
    ensures (forall i :: 0 <= i < |es| ==> es[i].key != key) ==> r == es + [Entry(key, value)]
  {
    if es == [] then [Entry(key, value)]
    else if es[0].key == key then [Entry(key, value)] + es[1..]
    else [es[0]] + Assign(es[1..], key, value)
  }

  function FloatWidth(minor: nat): nat {
    if minor == 25 then 2 else if minor == 26 then 4 else 8
  }

  /** A floating-point number from `o` on, its own bytes having been taken for an argument already. */
  function DecodeFloat(bs: seq<byte>, o: nat, k: nat): (r: Decoded<Value>)
    ensures r.Ok? ==> r.offset == o + k
  {
    if o + k > |bs| then Err(OutOfRange) else Ok(Float(bs[o..o + k]), o + k)
  }

  function Ascii(t: string): seq<byte> {
    seq(|t|, i requires 0 <= i < |t| => t[i] as int % 256)
  }

  /** A content identifier without its first byte, in base 58. */
  ghost function Link(bytes: seq<byte>): Value {
    Object([Entry(LINK, Text(Ascii(Base58.Encoded(if bytes == [] then [] else bytes[1..]))))])
  }

  ghost function DecodeAt(repair: seq<byte> -> seq<byte>, bs: seq<byte>, o: nat): (r: Decoded<Value>)
    ensures r.Ok? ==> o < r.offset && o < |bs|
    decreases Left(bs, o), 0
  {
    if o >= |bs| then Err(UnexpectedEnd)
    else
      var major, minor := bs[o] as nat / 32, bs[o] as nat % 32;
      var c := DecodeCount(bs, o + 1, minor);
      if c.Err? then Err(c.error)
      else
        var count, p := c.value, c.offset;
        if major == 0 then Ok(Uint(count), p)
        else if major == 1 then Ok(Negative(count), p)
        else if major == 2 then Ok(ByteString(Slice(bs, p, count)), p + count)
        else if major == 3 then Ok(Text(DecodeText(repair, Slice(bs, p, count))), p + count)
        else if major == 4 then DecodeItems(repair, bs, p, count, [])
        else if major == 5 then DecodeEntries(repair, bs, p, count, [])
        else if major == 6 then
          var tagged := DecodeAt(repair, bs, p);
          if tagged.Ok? && tagged.value.ByteString? && count == 42 then Ok(Link(tagged.value.bytes), tagged.offset)
          else tagged
        else if minor == 20 then Ok(Bool(false), p)
        else if minor == 21 then Ok(Bool(true), p)
        else if minor == 22 then Ok(Null, p)
        else if minor in {25, 26, 27} then DecodeFloat(bs, p, FloatWidth(minor))
        else Ok(Uint(count), p)
  }

  ghost function DecodeItems(repair: seq<byte> -> seq<byte>, bs: seq<byte>, o: nat, count: nat,
                             done: seq<Value>): (r: Decoded<Value>)
    ensures r.Ok? ==> o <= r.offset
    decreases Left(bs, o), 1
  {
    if count == 0 then Ok(Array(done), o)
    else
      var item := DecodeAt(repair, bs, o);
      if item.Err? then item else DecodeItems(repair, bs, item.offset, count - 1, done + [item.value])
  }

  ghost function DecodeEntries(repair: seq<byte> -> seq<byte>, bs: seq<byte>, o: nat, count: nat,
                               done: seq<Entry>): (r: Decoded<Value>)
    ensures r.Ok? ==> o <= r.offset
    decreases Left(bs, o), 1
  {
    if count == 0 then Ok(Object(done), o)
    else
      var key := DecodeAt(repair, bs, o);
      if key.Err? then key
      else
        var value := DecodeAt(repair, bs, key.offset);
        if value.Err? then value
        else if !key.value.Text? then Err(Unmodelled)
        else DecodeEntries(repair, bs, value.offset, count - 1, SetProperty(done, key.value.utf8, value.value))
  }

  // ---- What comes back ----

  /** The values the encoder is given: lengths within JavaScript's, natural numbers that are doubles, text well
      formed, and the keys of an object distinct. */
  ghost predicate WellFormed(repair: seq<byte> -> seq<byte>, v: Value) {
    match v
    case Null => true
    case Bool(_) => true
    case Uint(n) => IsDouble(n)
    case Negative(_) => false
    case Float(ieee) => |ieee| == 8
    case ByteString(bs) => |bs| < TWO32
    case Text(utf8) => WellFormedText(repair, utf8)
    case Array(items) => |items| < TWO32 && forall i :: 0 <= i < |items| ==> WellFormed(repair, items[i])
    case Object(entries) =>
      && |entries| < TWO32
      && (forall i :: 0 <= i < |entries| ==>
          WellFormedText(repair, entries[i].key) && WellFormed(repair, entries[i].value))
      && (forall i, j :: 0 <= i < j < |entries| ==> entries[i].key != entries[j].key)
  }

  /** Nothing to replace, with or without a byte order mark. */
  ghost predicate WellFormedText(repair: seq<byte> -> seq<byte>, utf8: seq<byte>) {
    |utf8| < TWO32 && repair(utf8) == utf8 && (BOM <= utf8 ==> repair(utf8[3..]) == utf8[3..])
  }

  function Strip(utf8: seq<byte>): seq<byte> {
    if BOM <= utf8 then utf8[3..] else utf8
  }

  /** No number in the value but natural ones. */
  ghost predicate Plain(v: Value) {
    match v
    case Float(_) => false
    case Array(items) => forall i :: 0 <= i < |items| ==> Plain(items[i])
    case Object(entries) => forall i :: 0 <= i < |entries| ==> Plain(entries[i].value)
    case _ => true
  }

  /** What decoding the encoding of such a value returns. */
  function Returned(v: Value): Value
    decreases v, 1, 0
  {
    match v
    case Uint(n) => Uint(ToDouble(n % TWO64))
    case Text(utf8) => Text(Strip(utf8))
    case Array(items) => Array(ReturnedItems(v, |items|))
    case Object(entries) => Object(ReturnedEntries(v, |entries|))
    case _ => v
  }

  function ReturnedItems(v: Value, n: nat): (items: seq<Value>)
    requires v.Array? && n <= |v.items|
    ensures |items| == n
    decreases v, 0, n
  {
    if n == 0 then [] else ReturnedItems(v, n - 1) + [Returned(v.items[n - 1])]
  }

  function ReturnedEntries(v: Value, n: nat): (entries: seq<Entry>)
    requires v.Object? && n <= |v.entries|
    ensures |entries| <= n
    decreases v, 0, n
  {
    if n == 0 then []
    else SetProperty(ReturnedEntries(v, n - 1), Strip(v.entries[n - 1].key), Returned(v.entries[n - 1].value))
  }

  /** `e` stands at offset `o` of the bytes. */
  predicate At(bs: seq<byte>, o: nat, e: seq<byte>): (b: bool)
    ensures b ==> o + |e| <= |bs|
  {
    o + |e| <= |bs| && bs[o..o + |e|] == e
  }

  lemma AtSplit(bs: seq<byte>, o: nat, a: seq<byte>, b: seq<byte>)
    requires At(bs, o, a + b)
    ensures At(bs, o, a) && At(bs, o + |a|, b)
  {
    var e := bs[o..o + |a + b|];
    assert bs[o..o + |a|] == e[..|a|] == (a + b)[..|a|];
    assert bs[o + |a|..o + |a| + |b|] == e[|a|..] == (a + b)[|a|..];
  }

  lemma WideReads(bs: seq<byte>, o: nat, count: nat, k: nat)
    requires At(bs, o, BigEndian(count, k))
    ensures DecodeWide(bs, o, k) == Ok(ToDouble(count % Pow256(k)), o + k)
  {
    hide BigEndian, ReadBigEndian, ToDouble, Pow256;
    BigEndianReads(count, k);
  }

  lemma OneByte(count: nat)
    requires count < 0x100
    ensures BigEndian(count, 1) == [count]
  {
    assert BigEndian(count / 256, 0) == [];
  }

  lemma FirstByte(bs: seq<byte>, o: nat, b: byte, rest: seq<byte>)
    requires At(bs, o, [b] + rest)
    ensures bs[o] == b && At(bs, o + 1, rest)
  {
    AtSplit(bs, o, [b], rest);
    assert bs[o] == bs[o..o + 1][0];
  }

  /** A head reads back as the major type it was written for, and the low 64 bits of the argument as a double. */
  lemma HeadReads(bs: seq<byte>, o: nat, major: nat, count: nat)
    requires major < 8 && At(bs, o, Head(major, count))
    ensures bs[o] as nat / 32 == major
    ensures DecodeCount(bs, o + 1, bs[o] as nat % 32) == Ok(ToDouble(count % TWO64), o + |Head(major, count)|)
  {
    hide At, BigEndian, DecodeWide, ToDouble;
    if count < TWO32 {
      SmallIsDouble(count);
    }
    if count < 24 {
      assert [32 * major + count] == [32 * major + count] + [];
      FirstByte(bs, o, 32 * major + count, []);
    } else if count < 0x100 {
      FirstByte(bs, o, 32 * major + 24, BigEndian(count, 1));
      OneByte(count);
      assert [count] == [count] + [];
      FirstByte(bs, o + 1, count, []);
      assert o + 1 < |bs| by {
        InRange(bs, o + 1, [count]);
      }
    } else if count < 0x10000 {
      WideHead(bs, o, 32 * major + 25, count, 2);
    } else if count < TWO32 {
      WideHead(bs, o, 32 * major + 26, count, 4);
    } else {
      WideHead(bs, o, 32 * major + 27, count, 8);
    }
  }

  /** The head of a length reads back as that length. */
  lemma LengthReads(bs: seq<byte>, o: nat, major: nat, count: nat)
    requires major < 8 && count < TWO53 && At(bs, o, Head(major, count))
    ensures bs[o] as nat / 32 == major
    ensures DecodeCount(bs, o + 1, bs[o] as nat % 32) == Ok(count, o + |Head(major, count)|)
  {
    hide ToDouble, Head, DecodeCount;
    HeadReads(bs, o, major, count);
    SmallIsDouble(count);
  }

  lemma InRange(bs: seq<byte>, o: nat, e: seq<byte>)
    requires At(bs, o, e)
    ensures o + |e| <= |bs|
  {
  }

  lemma WideHead(bs: seq<byte>, o: nat, first: byte, count: nat, k: nat)
    requires k in {2, 4, 8} && (k == 2 ==> count < 0x10000) && (k == 4 ==> count < TWO32)
    requires At(bs, o, [first] + BigEndian(count, k))
    ensures bs[o] == first && DecodeWide(bs, o + 1, k) == Ok(ToDouble(count % TWO64), o + 1 + k)
  {
    hide At, BigEndian, DecodeWide, ToDouble;
    FirstByte(bs, o, first, BigEndian(count, k));
    Widths();
    WideReads(bs, o + 1, count, k);
    if k < 8 {
      SmallIsDouble(count);
    }
  }

  lemma Widths()
    ensures Pow256(1) == 0x100 && Pow256(2) == 0x10000 && Pow256(4) == TWO32 && Pow256(8) == TWO64
  {
    assert Pow256(6) == TWO32 * 0x10000;
  }

  /** Decoding the encoding of any value without floating-point numbers, wherever it stands and whatever follows,
      returns what becomes of the value and stops exactly at the end of the encoding. */
  lemma {:induction false} RoundTrip(repair: seq<byte> -> seq<byte>, bs: seq<byte>, o: nat, v: Value)
    requires WellFormed(repair, v) && Plain(v) && At(bs, o, Enc(v))
    ensures DecodeAt(repair, bs, o) == Ok(Returned(v), o + |Enc(v)|)
    decreases v, 1, 0
  {
    hide DecodeAt, DecodeItems, DecodeEntries, At, Head;
    match v
    case Uint(n) => UintReads(repair, bs, o, n);
    case ByteString(b) => BytesRead(repair, bs, o, b);
    case Text(utf8) => TextReads(repair, bs, o, utf8);
    case Array(items) =>
      AtSplit(bs, o, Head(4, |items|), EncItems(v, 0));
      ArrayReads(repair, bs, o, |items|);
      ItemsRoundTrip(repair, bs, o + |Head(4, |items|)|, v, 0, |items|);
    case Object(entries) =>
      AtSplit(bs, o, Head(5, |entries|), EncEntries(v, 0));
      ObjectReads(repair, bs, o, |entries|);
      EntriesRoundTrip(repair, bs, o + |Head(5, |entries|)|, v, 0, |entries|);
    case Null => SimpleReads(repair, bs, o, v);
    case Bool(b) => SimpleReads(repair, bs, o, v);
  }

  lemma SimpleReads(repair: seq<byte> -> seq<byte>, bs: seq<byte>, o: nat, v: Value)
    requires (v.Null? || v.Bool?) && At(bs, o, Enc(v))
    ensures DecodeAt(repair, bs, o) == Ok(v, o + 1)
  {
    assert bs[o] == bs[o..o + 1][0] == Enc(v)[0];
  }

  lemma UintReads(repair: seq<byte> -> seq<byte>, bs: seq<byte>, o: nat, n: nat)
    requires At(bs, o, Head(0, n))
    ensures DecodeAt(repair, bs, o) == Ok(Uint(ToDouble(n % TWO64)), o + |Head(0, n)|)
  {
    hide Head, DecodeCount, ToDouble;
    HeadReads(bs, o, 0, n);
  }

  lemma SliceAt(bs: seq<byte>, o: nat, e: seq<byte>)
    requires At(bs, o, e)
    ensures Slice(bs, o, |e|) == e
  {
  }

  lemma BytesRead(repair: seq<byte> -> seq<byte>, bs: seq<byte>, o: nat, b: seq<byte>)
    requires |b| < TWO32 && At(bs, o, Head(2, |b|) + b)
    ensures DecodeAt(repair, bs, o) == Ok(ByteString(b), o + |Head(2, |b|) + b|)
  {
    hide Head, DecodeCount, At, Slice;
    AtSplit(bs, o, Head(2, |b|), b);
    SliceAt(bs, o + |Head(2, |b|)|, b);
    LengthReads(bs, o, 2, |b|);
  }

  lemma ArrayReads(repair: seq<byte> -> seq<byte>, bs: seq<byte>, o: nat, count: nat)
    requires count < TWO53 && At(bs, o, Head(4, count))
    ensures DecodeAt(repair, bs, o) == DecodeItems(repair, bs, o + |Head(4, count)|, count, [])
  {
    hide Head, DecodeCount, DecodeItems;
    LengthReads(bs, o, 4, count);
  }

  lemma ObjectReads(repair: seq<byte> -> seq<byte>, bs: seq<byte>, o: nat, count: nat)
    requires count < TWO53 && At(bs, o, Head(5, count))
    ensures DecodeAt(repair, bs, o) == DecodeEntries(repair, bs, o + |Head(5, count)|, count, [])
  {
    hide Head, DecodeCount, DecodeEntries;
    LengthReads(bs, o, 5, count);
  }

  lemma TextReads(repair: seq<byte> -> seq<byte>, bs: seq<byte>, o: nat, utf8: seq<byte>)
    requires WellFormedText(repair, utf8) && At(bs, o, Head(3, |utf8|) + utf8)
    ensures DecodeAt(repair, bs, o) == Ok(Text(Strip(utf8)), o + |Head(3, |utf8|) + utf8|)
  {
    hide Head, DecodeCount, At, Slice;
    AtSplit(bs, o, Head(3, |utf8|), utf8);
    SliceAt(bs, o + |Head(3, |utf8|)|, utf8);
    LengthReads(bs, o, 3, |utf8|);
  }

  lemma ReturnedItemsNext(v: Value, i: nat)
    requires v.Array? && i < |v.items|
    ensures ReturnedItems(v, i + 1) == ReturnedItems(v, i) + [Returned(v.items[i])]
  {
  }

  lemma ReturnedEntriesNext(v: Value, i: nat)
    requires v.Object? && i < |v.entries|
    ensures ReturnedEntries(v, i + 1)
         == SetProperty(ReturnedEntries(v, i), Strip(v.entries[i].key), Returned(v.entries[i].value))
  {
  }

  lemma ItemsSplit(bs: seq<byte>, o: nat, v: Value, i: nat)
    requires v.Array? && i < |v.items| && At(bs, o, EncItems(v, i))
    ensures var item := Enc(v.items[i]);
            && At(bs, o, item) && At(bs, o + |item|, EncItems(v, i + 1))
            && |EncItems(v, i)| == |item| + |EncItems(v, i + 1)|
  {
    hide At, Enc;
    AtSplit(bs, o, Enc(v.items[i]), EncItems(v, i + 1));
  }

  lemma WellFormedItem(repair: seq<byte> -> seq<byte>, v: Value, i: nat)
    requires v.Array? && WellFormed(repair, v) && i < |v.items|
    ensures WellFormed(repair, v.items[i])
  {
  }

  lemma WellFormedEntry(repair: seq<byte> -> seq<byte>, v: Value, i: nat)
    requires v.Object? && WellFormed(repair, v) && i < |v.entries|
    ensures WellFormedText(repair, v.entries[i].key) && WellFormed(repair, v.entries[i].value)
  {
  }

  lemma {:induction false} ItemsRoundTrip(repair: seq<byte> -> seq<byte>, bs: seq<byte>, o: nat, v: Value, i: nat,
                                          left: nat)
    requires v.Array? && WellFormed(repair, v) && Plain(v) && i + left == |v.items| && At(bs, o, EncItems(v, i))
    ensures DecodeItems(repair, bs, o, left, ReturnedItems(v, i))
         == Ok(Array(ReturnedItems(v, |v.items|)), o + |EncItems(v, i)|)
    decreases v, 0, left
  {
    hide DecodeAt, DecodeItems, At, WellFormed, Enc, EncItems, Returned, ReturnedItems;
    if left > 0 {
      var next := o + |Enc(v.items[i])|;
      ItemsSplit(bs, o, v, i);
      WellFormedItem(repair, v, i);
      RoundTrip(repair, bs, o, v.items[i]);
      ItemsStep(repair, bs, o, left, ReturnedItems(v, i), Returned(v.items[i]), next);
      ReturnedItemsNext(v, i);
      ItemsRoundTrip(repair, bs, next, v, i + 1, left - 1);
    } else {
      ItemsEnd(repair, bs, o, v);
    }
  }

  lemma ItemsEnd(repair: seq<byte> -> seq<byte>, bs: seq<byte>, o: nat, v: Value)
    requires v.Array?
    ensures DecodeItems(repair, bs, o, 0, ReturnedItems(v, |v.items|)) == Ok(Array(ReturnedItems(v, |v.items|)), o)
    ensures EncItems(v, |v.items|) == []
  {
    hide ReturnedItems;
  }

  lemma ItemsStep(repair: seq<byte> -> seq<byte>, bs: seq<byte>, o: nat, count: nat, done: seq<Value>, item: Value,
                  next: nat)
    requires count > 0 && DecodeAt(repair, bs, o) == Ok(item, next)
    ensures DecodeItems(repair, bs, o, count, done) == DecodeItems(repair, bs, next, count - 1, done + [item])
  {
    hide DecodeAt;
  }

  lemma EntriesEnd(repair: seq<byte> -> seq<byte>, bs: seq<byte>, o: nat, v: Value)
    requires v.Object?
    ensures DecodeEntries(repair, bs, o, 0, ReturnedEntries(v, |v.entries|))
         == Ok(Object(ReturnedEntries(v, |v.entries|)), o)
    ensures EncEntries(v, |v.entries|) == []
  {
    hide ReturnedEntries;
  }

  lemma EntriesStep(repair: seq<byte> -> seq<byte>, bs: seq<byte>, o: nat, count: nat, done: seq<Entry>,
                    key: seq<byte>, mid: nat, value: Value, next: nat)
    requires count > 0 && DecodeAt(repair, bs, o) == Ok(Text(key), mid) && DecodeAt(repair, bs, mid) == Ok(value, next)
    ensures DecodeEntries(repair, bs, o, count, done)
         == DecodeEntries(repair, bs, next, count - 1, SetProperty(done, key, value))
  {
    hide DecodeAt, SetProperty;
  }

  lemma EntriesSplit(bs: seq<byte>, o: nat, v: Value, i: nat)
    requires v.Object? && i < |v.entries| && At(bs, o, EncEntries(v, i))
    ensures var key := Head(3, |v.entries[i].key|) + v.entries[i].key;
            var value := Enc(v.entries[i].value);
            && At(bs, o, key) && At(bs, o + |key|, value) && At(bs, o + |key| + |value|, EncEntries(v, i + 1))
            && |EncEntries(v, i)| == |key| + |value| + |EncEntries(v, i + 1)|
  {
    hide At, Head, Enc;
    var key := Head(3, |v.entries[i].key|) + v.entries[i].key;
    var value := Enc(v.entries[i].value);
    var rest := EncEntries(v, i + 1);
    assert EncEntries(v, i) == key + value + rest;
    AtSplit(bs, o, key + value, rest);
    AtSplit(bs, o, key, value);
  }

  lemma {:induction false} EntriesRoundTrip(repair: seq<byte> -> seq<byte>, bs: seq<byte>, o: nat, v: Value, i: nat,
                                            left: nat)
    requires v.Object? && WellFormed(repair, v) && Plain(v) && i + left == |v.entries| && At(bs, o, EncEntries(v, i))
    ensures DecodeEntries(repair, bs, o, left, ReturnedEntries(v, i))
         == Ok(Object(ReturnedEntries(v, |v.entries|)), o + |EncEntries(v, i)|)
    decreases v, 0, left
  {
    hide DecodeAt, DecodeEntries, At, WellFormed, WellFormedText, Head, Enc, EncEntries, Returned, ReturnedEntries,
      SetProperty, Strip;
    if left > 0 {
      var entry := v.entries[i];
      var key := Head(3, |entry.key|) + entry.key;
      EntriesSplit(bs, o, v, i);
      WellFormedEntry(repair, v, i);
      TextReads(repair, bs, o, entry.key);
      RoundTrip(repair, bs, o + |key|, entry.value);
      var next := o + |key| + |Enc(entry.value)|;
      EntriesStep(repair, bs, o, left, ReturnedEntries(v, i), Strip(entry.key), o + |key|, Returned(entry.value), next);
      ReturnedEntriesNext(v, i);
      EntriesRoundTrip(repair, bs, next, v, i + 1, left - 1);
    } else {
      EntriesEnd(repair, bs, o, v);
    }
  }
}
