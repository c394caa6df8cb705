/** The items of RFC 8949 that the decoder reads, written with heads of any width, and what it makes of them. */
module CborItems {
  import opened Int32
  import opened Bytes
  import opened Cbor
  import Base58

  /** An item and the number of bytes its head spends on the argument.  The argument of a byte string, a text, a
      list or a map is its length.  `Skewed` is a floating-point number as the decoder takes it: the bytes of the
      number are consumed as an argument, and as many bytes behind them are the number. */
  datatype Item =
    | Unsigned(w: nat, n: nat)
    | Minus(w: nat, n: nat)
    | Bytes(w: nat, bytes: seq<byte>)
    | Chars(w: nat, utf8: seq<byte>)
    | List(w: nat, items: seq<Item>)
    | Map(w: nat, pairs: seq<Pair>)
    | Tagged(w: nat, tag: nat, item: Item)
    | Simple(w: nat, n: nat)
    | Skewed(w: nat, own: seq<byte>, next: seq<byte>)

  datatype Pair = Pair(w: nat, key: seq<byte>, value: Item)

  /** The low five bits of the initial byte. */
  function Info(w: nat, n: nat): nat {
    if w == 0 then n else if w == 1 then 24 else if w == 2 then 25 else if w == 4 then 26 else 27
  }

  predicate Fits(w: nat, n: nat) {
    w in {0, 1, 2, 4, 8} && if w == 0 then n < 24 else n < Pow256(w)
  }

  function ItemHead(major: nat, w: nat, n: nat): seq<byte>
    requires major < 8 && Fits(w, n)
  {
    [32 * major + Info(w, n)] + BigEndian(n, w)
  }

  /** Every argument fits its head, and no length is above 2^53. */
  predicate Proper(item: Item) {
    match item
    case Unsigned(w, n) => Fits(w, n)
    case Minus(w, n) => Fits(w, n)
    case Bytes(w, bytes) => Fits(w, |bytes|) && |bytes| < TWO53
    case Chars(w, utf8) => Fits(w, |utf8|) && |utf8| < TWO53
    case List(w, items) =>
      Fits(w, |items|) && |items| < TWO53 && forall i :: 0 <= i < |items| ==> Proper(items[i])
    case Map(w, pairs) =>
      Fits(w, |pairs|) && |pairs| < TWO53 && forall i :: 0 <= i < |pairs| ==> ProperPair(pairs[i])
    case Tagged(w, tag, i) => Fits(w, tag) && Proper(i)
    case Simple(w, n) => w <= 1 && Fits(w, n)
    case Skewed(w, own, next) => w in {2, 4, 8} && |own| == |next| == w
  }

  predicate ProperPair(p: Pair) {
    Fits(p.w, |p.key|) && |p.key| < TWO53 && Proper(p.value)
  }

  function Written(item: Item): (bs: seq<byte>)
    requires Proper(item)
    decreases item, 1, 0
  {
    match item
    case Unsigned(w, n) => ItemHead(0, w, n)
    case Minus(w, n) => ItemHead(1, w, n)
    case Bytes(w, bytes) => ItemHead(2, w, |bytes|) + bytes
    case Chars(w, utf8) => ItemHead(3, w, |utf8|) + utf8
    case List(w, items) => ItemHead(4, w, |items|) + WrittenItems(item, 0)
    case Map(w, pairs) => ItemHead(5, w, |pairs|) + WrittenPairs(item, 0)
    case Tagged(w, tag, i) => ItemHead(6, w, tag) + Written(i)
    case Simple(w, n) => ItemHead(7, w, n)
    case Skewed(w, own, next) => [32 * 7 + Info(w, 0)] + own + next
  }

  function WrittenItems(item: Item, i: nat): seq<byte>
    requires item.List? && Proper(item) && i <= |item.items|
    decreases item, 0, |item.items| - i
  {
    if i == |item.items| then [] else Written(item.items[i]) + WrittenItems(item, i + 1)
  }

  function WrittenPairs(item: Item, i: nat): seq<byte>
    requires item.Map? && Proper(item) && i <= |item.pairs|
    decreases item, 0, |item.pairs| - i
  {
    if i == |item.pairs| then []
    else
      var p := item.pairs[i];
      assert ProperPair(p);
      ItemHead(3, p.w, |p.key|) + p.key + Written(p.value) + WrittenPairs(item, i + 1)
  }

  /** What the decoder makes of an item. */
  ghost function Meaning(repair: seq<byte> -> seq<byte>, item: Item): Value
    decreases item, 1, 0
  {
    match item
    case Unsigned(w, n) => Uint(ToDouble(n))
    case Minus(w, n) => Negative(ToDouble(n))
    case Bytes(w, bytes) => ByteString(bytes)
    case Chars(w, utf8) => Text(DecodeText(repair, utf8))
    case List(w, items) => Array(MeaningItems(repair, item, |items|))
    case Map(w, pairs) => Object(MeaningPairs(repair, item, |pairs|))
    case Tagged(w, tag, i) =>
      var inner := Meaning(repair, i);
      if tag == 42 && inner.ByteString? then Link(inner.bytes) else inner
    case Simple(w, n) =>
      if w == 0 && n == 20 then Bool(false)
      else if w == 0 && n == 21 then Bool(true)
      else if w == 0 && n == 22 then Null
      else Uint(n)
    case Skewed(w, own, next) => Float(next)
  }

  ghost function MeaningItems(repair: seq<byte> -> seq<byte>, item: Item, n: nat): (items: seq<Value>)
    requires item.List? && n <= |item.items|
    ensures |items| == n
    decreases item, 0, n
  {
    if n == 0 then [] else MeaningItems(repair, item, n - 1) + [Meaning(repair, item.items[n - 1])]
  }

  ghost function MeaningPairs(repair: seq<byte> -> seq<byte>, item: Item, n: nat): seq<Entry>
    requires item.Map? && n <= |item.pairs|
    decreases item, 0, n
  {
    if n == 0 then []
    else
      var p := item.pairs[n - 1];
      SetProperty(MeaningPairs(repair, item, n - 1), DecodeText(repair, p.key), Meaning(repair, p.value))
  }

  // ---- Heads ----

  /** A head of any width reads back as its major type and its argument. */
  lemma HeadOfAnyWidth(bs: seq<byte>, o: nat, major: nat, w: nat, n: nat)
    requires major < 8 && Fits(w, n) && At(bs, o, ItemHead(major, w, n))
    ensures o < |bs| && bs[o] as nat / 32 == major && bs[o] as nat % 32 == Info(w, n)
    ensures DecodeCount(bs, o + 1, bs[o] as nat % 32) == Ok(ToDouble(n), o + |ItemHead(major, w, n)|)
    ensures n < TWO53 ==> ToDouble(n) == n
  {
    hide At, BigEndian, DecodeWide, ToDouble, Pow256;
    Widths();
    if n < TWO53 {
      SmallIsDouble(n);
    }
    FirstByte(bs, o, 32 * major + Info(w, n), BigEndian(n, w));
    if w == 1 {
      OneByte(n);
      assert [n] == [n] + [];
      FirstByte(bs, o + 1, n, []);
      assert o + 1 < |bs| by {
        InRange(bs, o + 1, [n]);
      }
    } else if w > 1 {
      WideReads(bs, o + 1, n, w);
    }
    InRange(bs, o, ItemHead(major, w, n));
  }

  // ---- Items ----

  /** Every item, however wide its heads and whatever stands before and behind it, decodes to its meaning, and
      decoding stops exactly at its end. */
  lemma {:induction false} ItemReads(repair: seq<byte> -> seq<byte>, bs: seq<byte>, o: nat, item: Item)
    requires Proper(item) && At(bs, o, Written(item))
    ensures DecodeAt(repair, bs, o) == Ok(Meaning(repair, item), o + |Written(item)|)
    decreases item, 1, 0
  {
    hide DecodeAt, DecodeItems, DecodeEntries, At, ItemHead, Fits, ToDouble;
    match item
    case Unsigned(w, n) => NumberReads(repair, bs, o, item);
    case Minus(w, n) => NumberReads(repair, bs, o, item);
    case Bytes(w, bytes) => StringReads(repair, bs, o, item);
    case Chars(w, utf8) => StringReads(repair, bs, o, item);
    case List(w, items) =>
      var head := ItemHead(4, w, |items|);
      AtSplit(bs, o, head, WrittenItems(item, 0));
      ListReads(repair, bs, o, w, |items|);
      ItemsRead(repair, bs, o + |head|, item, 0, |items|);
    case Map(w, pairs) =>
      var head := ItemHead(5, w, |pairs|);
      AtSplit(bs, o, head, WrittenPairs(item, 0));
      MapReads(repair, bs, o, w, |pairs|);
      PairsRead(repair, bs, o + |head|, item, 0, |pairs|);
    case Tagged(w, tag, i) =>
      var head := ItemHead(6, w, tag);
      AtSplit(bs, o, head, Written(i));
      ItemReads(repair, bs, o + |head|, i);
      TagReads(repair, bs, o, w, tag, Meaning(repair, i), o + |head| + |Written(i)|);
    case Simple(w, n) => SimpleItemReads(repair, bs, o, w, n);
    case Skewed(w, own, next) => SkewedReads(repair, bs, o, w, own, next);
  }

  lemma NumberReads(repair: seq<byte> -> seq<byte>, bs: seq<byte>, o: nat, item: Item)
    requires (item.Unsigned? || item.Minus?) && Proper(item) && At(bs, o, Written(item))
    ensures DecodeAt(repair, bs, o) == Ok(Meaning(repair, item), o + |Written(item)|)
  {
    hide ItemHead, DecodeCount, Fits, ToDouble, At;
    match item
    case Unsigned(w, n) => HeadOfAnyWidth(bs, o, 0, w, n);
    case Minus(w, n) => HeadOfAnyWidth(bs, o, 1, w, n);
  }

  lemma StringReads(repair: seq<byte> -> seq<byte>, bs: seq<byte>, o: nat, item: Item)
    requires (item.Bytes? || item.Chars?) && Proper(item) && At(bs, o, Written(item))
    ensures DecodeAt(repair, bs, o) == Ok(Meaning(repair, item), o + |Written(item)|)
  {
    hide ItemHead, DecodeCount, Fits, ToDouble, At, Slice, DecodeText;
    match item
    case Bytes(w, bytes) =>
      var head := ItemHead(2, w, |bytes|);
      AtSplit(bs, o, head, bytes);
      SliceAt(bs, o + |head|, bytes);
      HeadOfAnyWidth(bs, o, 2, w, |bytes|);
    case Chars(w, utf8) => KeyReads(repair, bs, o, w, utf8);
  }

  lemma KeyReads(repair: seq<byte> -> seq<byte>, bs: seq<byte>, o: nat, w: nat, utf8: seq<byte>)
    requires Fits(w, |utf8|) && |utf8| < TWO53 && At(bs, o, ItemHead(3, w, |utf8|) + utf8)
    ensures DecodeAt(repair, bs, o) == Ok(Text(DecodeText(repair, utf8)), o + |ItemHead(3, w, |utf8|) + utf8|)
  {
    hide ItemHead, DecodeCount, Fits, ToDouble, At, Slice, DecodeText;
    var head := ItemHead(3, w, |utf8|);
    AtSplit(bs, o, head, utf8);
    SliceAt(bs, o + |head|, utf8);
    HeadOfAnyWidth(bs, o, 3, w, |utf8|);
  }

  lemma ListReads(repair: seq<byte> -> seq<byte>, bs: seq<byte>, o: nat, w: nat, count: nat)
    requires Fits(w, count) && count < TWO53 && At(bs, o, ItemHead(4, w, count))
    ensures DecodeAt(repair, bs, o) == DecodeItems(repair, bs, o + |ItemHead(4, w, count)|, count, [])
  {
    hide ItemHead, DecodeCount, DecodeItems, Fits, ToDouble, At;
    HeadOfAnyWidth(bs, o, 4, w, count);
  }

  lemma MapReads(repair: seq<byte> -> seq<byte>, bs: seq<byte>, o: nat, w: nat, count: nat)
    requires Fits(w, count) && count < TWO53 && At(bs, o, ItemHead(5, w, count))
    ensures DecodeAt(repair, bs, o) == DecodeEntries(repair, bs, o + |ItemHead(5, w, count)|, count, [])
  {
    hide ItemHead, DecodeCount, DecodeEntries, Fits, ToDouble, At;
    HeadOfAnyWidth(bs, o, 5, w, count);
  }

  lemma TagReads(repair: seq<byte> -> seq<byte>, bs: seq<byte>, o: nat, w: nat, tag: nat, inner: Value, end: nat)
    requires Fits(w, tag) && At(bs, o, ItemHead(6, w, tag))
    requires DecodeAt(repair, bs, o + |ItemHead(6, w, tag)|) == Ok(inner, end)
    ensures DecodeAt(repair, bs, o) == Ok(if tag == 42 && inner.ByteString? then Link(inner.bytes) else inner, end)
  {
    hide ItemHead, DecodeCount, Fits, At, Link, ToDouble;
    HeadOfAnyWidth(bs, o, 6, w, tag);
    Not42(tag);
  }

  /** Rounding takes no other number to 42. */
  lemma Not42(n: nat)
    ensures ToDouble(n) == 42 <==> n == 42
  {
    SmallIsDouble(42);
    if n < TWO53 {
      SmallIsDouble(n);
    } else {
      SpacingBound(n);
      var u := Spacing(n);
      assert n / u * u == n - n % u;
      assert (n / u + 1) * u == n / u * u + u;
    }
  }

  lemma {:induction false} SpacingBound(n: nat)
    requires n >= TWO53
    ensures 43 + Spacing(n) <= n
  {
    if n / 2 >= TWO53 {
      SpacingBound(n / 2);
    }
  }

  lemma SimpleItemReads(repair: seq<byte> -> seq<byte>, bs: seq<byte>, o: nat, w: nat, n: nat)
    requires w <= 1 && Fits(w, n) && At(bs, o, ItemHead(7, w, n))
    ensures DecodeAt(repair, bs, o) == Ok(Meaning(repair, Simple(w, n)), o + |ItemHead(7, w, n)|)
  {
    hide ItemHead, DecodeCount, ToDouble, At;
    Widths();
    HeadOfAnyWidth(bs, o, 7, w, n);
  }

  lemma SkewedReads(repair: seq<byte> -> seq<byte>, bs: seq<byte>, o: nat, w: nat, own: seq<byte>, next: seq<byte>)
    requires w in {2, 4, 8} && |own| == |next| == w && At(bs, o, [32 * 7 + Info(w, 0)] + own + next)
    ensures DecodeAt(repair, bs, o) == Ok(Float(next), o + 1 + 2 * w)
  {
    hide DecodeWide, At;
    var first := 32 * 7 + Info(w, 0);
    assert [first] + own + next == [first] + (own + next);
    FirstByte(bs, o, first, own + next);
    AtSplit(bs, o + 1, own, next);
    InRange(bs, o + 1 + w, next);
    ArgumentReads(bs, o + 1, own);
    SliceAt(bs, o + 1 + w, next);
  }

  lemma ArgumentReads(bs: seq<byte>, o: nat, own: seq<byte>)
    requires At(bs, o, own)
    ensures DecodeWide(bs, o, |own|).Ok? && DecodeWide(bs, o, |own|).offset == o + |own|
  {
  }

  lemma {:induction false} ItemsRead(repair: seq<byte> -> seq<byte>, bs: seq<byte>, o: nat, item: Item, i: nat,
                                     left: nat)
    requires item.List? && Proper(item) && i + left == |item.items| && At(bs, o, WrittenItems(item, i))
    ensures DecodeItems(repair, bs, o, left, MeaningItems(repair, item, i))
         == Ok(Array(MeaningItems(repair, item, |item.items|)), o + |WrittenItems(item, i)|)
    decreases item, 0, left
  {
    hide DecodeAt, DecodeItems, At, Written, Meaning;
    if left > 0 {
      var first := item.items[i];
      var next := o + |Written(first)|;
      AtSplit(bs, o, Written(first), WrittenItems(item, i + 1));
      ItemReads(repair, bs, o, first);
      ItemsStep(repair, bs, o, left, MeaningItems(repair, item, i), Meaning(repair, first), next);
      ItemsRead(repair, bs, next, item, i + 1, left - 1);
    } else {
      NoMoreItems(repair, bs, o, MeaningItems(repair, item, i));
    }
  }

  lemma NoMoreItems(repair: seq<byte> -> seq<byte>, bs: seq<byte>, o: nat, done: seq<Value>)
    ensures DecodeItems(repair, bs, o, 0, done) == Ok(Array(done), o)
  {
  }

  lemma NoMoreEntries(repair: seq<byte> -> seq<byte>, bs: seq<byte>, o: nat, done: seq<Entry>)
    ensures DecodeEntries(repair, bs, o, 0, done) == Ok(Object(done), o)
  {
  }

  lemma {:induction false} PairsRead(repair: seq<byte> -> seq<byte>, bs: seq<byte>, o: nat, item: Item, i: nat,
                                     left: nat)
    requires item.Map? && Proper(item) && i + left == |item.pairs| && At(bs, o, WrittenPairs(item, i))
    ensures DecodeEntries(repair, bs, o, left, MeaningPairs(repair, item, i))
         == Ok(Object(MeaningPairs(repair, item, |item.pairs|)), o + |WrittenPairs(item, i)|)
    decreases item, 0, left
  {
    hide DecodeAt, DecodeEntries, At, Written, Meaning, ItemHead, Fits, SetProperty, DecodeText;
    if left > 0 {
      var p := item.pairs[i];
      assert ProperPair(p);
      var key := ItemHead(3, p.w, |p.key|) + p.key;
      var mid := o + |key|;
      var next := mid + |Written(p.value)|;
      AtSplit(bs, o, key + Written(p.value), WrittenPairs(item, i + 1));
      AtSplit(bs, o, key, Written(p.value));
      KeyReads(repair, bs, o, p.w, p.key);
      ItemReads(repair, bs, mid, p.value);
      EntriesStep(repair, bs, o, left, MeaningPairs(repair, item, i), DecodeText(repair, p.key), mid,
                  Meaning(repair, p.value), next);
      PairsRead(repair, bs, next, item, i + 1, left - 1);
    } else {
      NoMoreEntries(repair, bs, o, MeaningPairs(repair, item, i));
    }
  }

  // ---- The branches one by one ----

  /** A negative integer: the argument stands for -1 - n. */
  lemma NegativeReads(repair: seq<byte> -> seq<byte>, bs: seq<byte>, o: nat, n: nat)
    requires At(bs, o, Head(1, n))
    ensures DecodeAt(repair, bs, o) == Ok(Negative(ToDouble(n % TWO64)), o + |Head(1, n)|)
  {
    hide Head, DecodeCount, ToDouble, At;
    HeadReads(bs, o, 1, n);
  }

  /** Tag 42 on a byte string: an object whose one key is "$link" and whose value spells, in base 58, the bytes
      behind the first. */
  lemma LinkReads(repair: seq<byte> -> seq<byte>, bs: seq<byte>, o: nat, b: seq<byte>)
    requires |b| < TWO32 && At(bs, o, Head(6, 42) + (Head(2, |b|) + b))
    ensures DecodeAt(repair, bs, o)
         == Ok(Object([Entry([36, 108, 105, 110, 107],
                             Text(Ascii(Base58.Encoded(if b == [] then [] else b[1..]))))]),
               o + |Head(6, 42)| + |Head(2, |b|) + b|)
  {
    hide Head, DecodeCount, At, DecodeAt;
    AtSplit(bs, o, Head(6, 42), Head(2, |b|) + b);
    BytesRead(repair, bs, o + |Head(6, 42)|, b);
    OneTagReads(repair, bs, o, 42);
  }

  /** Any other tag, and tag 42 on anything else, is dropped. */
  lemma TagDropped(repair: seq<byte> -> seq<byte>, bs: seq<byte>, o: nat, tag: nat)
    requires tag < TWO53 && At(bs, o, Head(6, tag))
    ensures var inner := DecodeAt(repair, bs, o + |Head(6, tag)|);
            tag != 42 || inner.Err? || !inner.value.ByteString? ==> DecodeAt(repair, bs, o) == inner
  {
    hide Head, DecodeCount, At, DecodeAt, Link;
    OneTagReads(repair, bs, o, tag);
  }

  lemma OneTagReads(repair: seq<byte> -> seq<byte>, bs: seq<byte>, o: nat, tag: nat)
    requires tag < TWO53 && At(bs, o, Head(6, tag))
    ensures var inner := DecodeAt(repair, bs, o + |Head(6, tag)|);
            var link := inner.Ok? && inner.value.ByteString? && tag == 42;
            DecodeAt(repair, bs, o) == (if link then Ok(Link(inner.value.bytes), inner.offset) else inner)
  {
    hide Head, DecodeCount, At, Link;
    LengthReads(bs, o, 6, tag);
  }

  /** Major type 7, byte by byte.  A floating-point number is taken from behind the bytes that spell it. */
  lemma SimpleByteReads(repair: seq<byte> -> seq<byte>, bs: seq<byte>, o: nat)
    requires o < |bs| && 0xe0 <= bs[o]
    ensures var r, rest := DecodeAt(repair, bs, o), |bs| - o - 1;
            && (bs[o] == 0xf4 ==> r == Ok(Bool(false), o + 1))
            && (bs[o] == 0xf5 ==> r == Ok(Bool(true), o + 1))
            && (bs[o] == 0xf6 ==> r == Ok(Null, o + 1))
            && (bs[o] < 0xf4 || bs[o] == 0xf7 ==> r == Ok(Uint(bs[o] as nat - 0xe0), o + 1))
            && (bs[o] == 0xf8 && rest >= 1 ==> r == Ok(Uint(bs[o + 1] as nat), o + 2))
            && (bs[o] == 0xf9 && rest >= 4 ==> r == Ok(Float(bs[o + 3..o + 5]), o + 5))
            && (bs[o] == 0xfa && rest >= 8 ==> r == Ok(Float(bs[o + 5..o + 9]), o + 9))
            && (bs[o] == 0xfb && rest >= 16 ==> r == Ok(Float(bs[o + 9..o + 17]), o + 17))
            && ((bs[o] == 0xf9 && rest < 4) || (bs[o] == 0xfa && rest < 8) || (bs[o] == 0xfb && rest < 16)
                ==> r == Err(OutOfRange))
            && (bs[o] >= 0xfc ==> r == Ok(Uint(0), o + 1))
  {
    hide ToDouble, ReadBigEndian;
  }

  /** A string that is announced longer than the bytes left is cut there. */
  lemma CutShort(repair: seq<byte> -> seq<byte>, bs: seq<byte>, o: nat, n: nat)
    requires n < TWO53 && At(bs, o, Head(2, n)) && o + |Head(2, n)| + n > |bs|
    ensures DecodeAt(repair, bs, o) == Ok(ByteString(bs[o + |Head(2, n)|..]), o + |Head(2, n)| + n)
  {
    hide Head, DecodeCount, At;
    LengthReads(bs, o, 2, n);
    InRange(bs, o, Head(2, n));
    assert bs[|bs|..] == [];
  }

  /** Setting a property of an object with distinct keys replaces its value or adds it at the end; the key
      "__proto__" does neither. */
  lemma {:induction false} PropertySet(es: seq<Entry>, key: seq<byte>, value: Value)
    requires forall i, j :: 0 <= i < j < |es| ==> es[i].key != es[j].key
    ensures var r := SetProperty(es, key, value);
            && (key == [95, 95, 112, 114, 111, 116, 111, 95, 95] ==> r == es)
            && (key != [95, 95, 112, 114, 111, 116, 111, 95, 95] ==>
                  && (forall i :: 0 <= i < |es| && es[i].key == key ==> r == es[i := Entry(key, value)])
                  && ((forall i :: 0 <= i < |es| ==> es[i].key != key) ==> r == es + [Entry(key, value)]))
  {
    if es != [] && key != PROTO && es[0].key != key {
      PropertySet(es[1..], key, value);
      assert es == [es[0]] + es[1..];
    }
  }

  /** Text loses one byte order mark in front and is repaired. */
  lemma TextDecoded(repair: seq<byte> -> seq<byte>, utf8: seq<byte>)
    ensures DecodeText(repair, [0xef, 0xbb, 0xbf] + utf8) == repair(utf8)
    ensures |utf8| < 3 || utf8[..3] != [0xef, 0xbb, 0xbf] ==> DecodeText(repair, utf8) == repair(utf8)
  {
    assert ([0xef, 0xbb, 0xbf] + utf8)[3..] == utf8;
  }

  /** Encodings from appendix A of RFC 8949. */
  lemma AppendixA()
    ensures Enc(Uint(0)) == [0x00] && Enc(Uint(23)) == [0x17] && Enc(Uint(24)) == [0x18, 0x18]
    ensures Enc(Uint(1000)) == [0x19, 0x03, 0xe8] && Enc(Uint(1000000)) == [0x1a, 0x00, 0x0f, 0x42, 0x40]
    ensures Enc(Uint(1000000000000)) == [0x1b, 0x00, 0x00, 0x00, 0xe8, 0xd4, 0xa5, 0x10, 0x00]
    ensures Enc(Bool(false)) == [0xf4] && Enc(Bool(true)) == [0xf5] && Enc(Null) == [0xf6]
    ensures Enc(ByteString([1, 2, 3, 4])) == [0x44, 1, 2, 3, 4]
    ensures Enc(Text([73, 69, 84, 70])) == [0x64, 0x49, 0x45, 0x54, 0x46]
  {
  }

  lemma AppendixAContainers()
    ensures Enc(Array([Uint(1), Uint(2)])) == [0x82, 1, 2]
    ensures Enc(Object([Entry([97], Uint(1)), Entry([98], Null)])) == [0xa2, 0x61, 0x61, 0x01, 0x61, 0x62, 0xf6]
  {
  }

  lemma AppendixADecoded(repair: seq<byte> -> seq<byte>)
    ensures DecodeAt(repair, [0x20], 0) == Ok(Negative(0), 1)
    ensures DecodeAt(repair, [0x38, 0x63], 0) == Ok(Negative(99), 2)
    ensures DecodeAt(repair, [0x39, 0x03, 0xe7], 0) == Ok(Negative(999), 3)
  {
    NegativeReads(repair, [0x39, 0x03, 0xe7], 0, 999);
    SmallIsDouble(999);
  }
}
