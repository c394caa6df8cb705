/** Which values come back unchanged from encoding and decoding, and what becomes of the others. */
module CborReturns {
  import opened Bytes
  import opened Cbor
  import opened Words

  /** All numbers are natural ones below 2^64, no text or key begins with a byte order mark, and no key is
      __proto__. */
  ghost predicate Faithful(v: Value) {
    match v
    case Uint(n) => n < TWO64
    case Float(_) => false
    case Text(utf8) => !(BOM <= utf8)
    case Array(items) => forall i :: 0 <= i < |items| ==> Faithful(items[i])
    case Object(entries) =>
      forall i :: 0 <= i < |entries| ==> FaithfulKey(entries[i].key) && Faithful(entries[i].value)
    case _ => true
  }

  predicate FaithfulKey(key: seq<byte>) {
    !(BOM <= key) && key != PROTO
  }

  /** A natural double wraps at 2^64 and else comes back. */
  lemma UintReturned(n: nat)
    requires IsDouble(n)
    ensures ToDouble(n % TWO64) == n <==> n < TWO64
  {
    if n < TWO64 {
      DoubleKept(n);
    } else {
      NearestBound(n % TWO64);
    }
  }

  lemma {:induction false} SpacingDivides(n: nat, k: nat) returns (c: nat)
    requires n < TWO53 * Pow2(k)
    ensures Pow2(k) == Spacing(n) * c
    decreases k
  {
    if n < TWO53 {
      c := Pow2(k);
    } else {
      c := SpacingDivides(n / 2, k - 1);
    }
  }

  /** The doubles near n are the multiples of a power of two that makes n a number of 53 bits. */
  lemma {:induction false} SpacingIs(n: nat) returns (k: nat)
    ensures Spacing(n) == Pow2(k) && n / Spacing(n) < TWO53
    ensures k > 0 ==> TWO53 <= 2 * (n / Spacing(n))
    ensures k == 0 <==> n < TWO53
  {
    k := 0;
    if n >= TWO53 {
      k := SpacingIs(n / 2);
      HalfTwice(n, Spacing(n / 2));
      k := k + 1;
    }
  }

  lemma HalfTwice(n: nat, u: nat)
    requires u > 0
    ensures n / 2 / u == n / (2 * u)
  {
    var q, r := n / 2 / u, n / 2 % u;
    assert n == (2 * u) * q + (2 * r + n % 2);
    Remainder(n, 2 * u, q, 2 * r + n % 2);
    SameQuotient(n, 2 * u, q, 2 * r + n % 2);
  }

  /** Of the multiples around n it is the nearest, and between two as near the even one. */
  lemma NearestDouble(n: nat)
    ensures var u, d := Spacing(n), ToDouble(n);
            && d % u == 0 && 2 * n <= 2 * d + u && 2 * d <= 2 * n + u
            && (2 * n == 2 * d + u || 2 * d == 2 * n + u ==> d / u % 2 == 0)
  {
    hide Spacing;
    var u, q := Spacing(n), n / Spacing(n);
    assert n == u * q + n % u;
    assert q * u == u * q && (q + 1) * u == u * q + u;
    MultipleOf(q, u);
    MultipleOf(q + 1, u);
  }

  lemma MultipleOf(q: nat, u: nat)
    requires u > 0
    ensures q * u % u == 0 && q * u / u == q
  {
    Remainder(q * u, u, q, 0);
    SameQuotient(q * u, u, q, 0);
  }

  lemma Powers()
    ensures Pow2(11) == 2048 && Pow2(12) == 4096
  {
    assert Pow2(6) == 64;
  }

  /** Rounding a number below 2^64 does not pass it. */
  lemma NearestBound(n: nat)
    requires n < TWO64
    ensures ToDouble(n) <= TWO64 && (n == 0 ==> ToDouble(n) == 0)
  {
    Powers();
    var c := SpacingDivides(n, 11);
    var u := Spacing(n);
    assert u * (c * TWO53) == 2048 * TWO53;
    BelowMultiple(n, u, c * TWO53);
  }

  lemma BelowMultiple(n: nat, u: nat, c: nat)
    requires u > 0 && n < u * c
    ensures n / u * u <= n && (n / u + 1) * u <= u * c
  {
    var q := n / u;
    assert n == u * q + n % u;
    if q >= c {
      Grows(c, q, u);
    } else {
      Grows(q + 1, c, u);
    }
  }

  lemma Grows(a: nat, b: nat, u: nat)
    requires a <= b
    ensures u * a <= u * b
  {
    assert u * b == u * a + u * (b - a);
  }

  /** A well-formed value of natural numbers comes back unchanged exactly when it is faithful. */
  lemma {:induction false} ReturnedIff(repair: seq<byte> -> seq<byte>, v: Value)
    requires WellFormed(repair, v) && Plain(v)
    ensures Returned(v) == v <==> Faithful(v)
    decreases v
  {
    hide ToDouble, IsDouble, ReturnedItems, ReturnedEntries;
    match v
    case Uint(n) => UintReturned(n);
    case Array(items) =>
      forall i | 0 <= i < |items| ensures Returned(items[i]) == items[i] <==> Faithful(items[i]) {
        ReturnedIff(repair, items[i]);
      }
      ItemsReturned(v, |items|);
      assert forall i :: 0 <= i < |items| ==> ReturnedItems(v, |items|)[i] == Returned(items[i]);
    case Object(entries) =>
      forall i | 0 <= i < |entries|
        ensures Returned(entries[i].value) == entries[i].value <==> Faithful(entries[i].value)
      {
        ReturnedIff(repair, entries[i].value);
      }
      EntriesReturned(v, |entries|);
      EntriesKept(v, |entries|);
      assert v.entries[..|entries|] == entries;
      assert forall i :: 0 <= i < |entries| ==>
        (EntryReturned(v, i) <==> FaithfulKey(entries[i].key) && Faithful(entries[i].value));
    case _ =>
  }

  lemma {:induction false} ItemsReturned(v: Value, n: nat)
    requires v.Array? && n <= |v.items|
    ensures forall i :: 0 <= i < n ==> ReturnedItems(v, n)[i] == Returned(v.items[i])
  {
    if n > 0 {
      ItemsReturned(v, n - 1);
    }
  }

  predicate EntryReturned(v: Value, i: nat)
    requires v.Object? && i < |v.entries|
  {
    && FaithfulKey(v.entries[i].key)
    && Returned(v.entries[i].value) == v.entries[i].value
  }

  /** Entries that all come back unchanged come back as they were. */
  lemma {:induction false} EntriesReturned(v: Value, n: nat)
    requires v.Object? && n <= |v.entries|
    requires forall i, j :: 0 <= i < j < |v.entries| ==> v.entries[i].key != v.entries[j].key
    ensures (forall i :: 0 <= i < n ==> EntryReturned(v, i)) ==> ReturnedEntries(v, n) == v.entries[..n]
  {
    hide Returned, SetProperty;
    if n > 0 {
      EntriesReturned(v, n - 1);
      var before, entry := ReturnedEntries(v, n - 1), v.entries[n - 1];
      if forall i :: 0 <= i < n ==> EntryReturned(v, i) {
        assert EntryReturned(v, n - 1);
        forall i | 0 <= i < |before| ensures before[i].key != entry.key {
          assert before[i] == v.entries[i];
        }
        AddsNew(before, entry.key, entry.value);
        assert v.entries[..n] == v.entries[..n - 1] + [entry];
      }
    }
  }

  lemma AddsNew(es: seq<Entry>, key: seq<byte>, value: Value)
    requires key != PROTO && forall i :: 0 <= i < |es| ==> es[i].key != key
    ensures SetProperty(es, key, value) == es + [Entry(key, value)]
  {
  }

  /** To keep the number of entries, every entry must have been added as a new one. */
  lemma {:induction false} EntriesKept(v: Value, n: nat)
    requires v.Object? && n <= |v.entries|
    ensures ReturnedEntries(v, n) == v.entries[..n] ==> forall i :: 0 <= i < n ==> EntryReturned(v, i)
  {
    if n > 0 && ReturnedEntries(v, n) == v.entries[..n] {
      var before := ReturnedEntries(v, n - 1);
      var entry := v.entries[n - 1];
      assert Strip(entry.key) != PROTO;
      assert ReturnedEntries(v, n) == before + [Entry(Strip(entry.key), Returned(entry.value))];
      assert v.entries[..n][n - 1] == entry;
      assert before == v.entries[..n][..n - 1] == v.entries[..n - 1];
      EntriesKept(v, n - 1);
      assert |Strip(entry.key)| == |entry.key|;
    }
  }

  // ---- Floating-point numbers ----

  lemma {:induction false} ItemsGrow(repair: seq<byte> -> seq<byte>, bs: seq<byte>, o: nat, count: nat,
                                     done: seq<Value>)
    ensures var r := DecodeItems(repair, bs, o, count, done); r.Ok? ==> r.value.Array? && done <= r.value.items
    decreases count
  {
    hide DecodeAt;
    if count > 0 {
      var item := DecodeAt(repair, bs, o);
      if item.Ok? {
        ItemsGrow(repair, bs, item.offset, count - 1, done + [item.value]);
      }
    }
  }

  /** As many entries as announced can only come out when every one was added as a new one. */
  lemma {:induction false} EntriesGrow(repair: seq<byte> -> seq<byte>, bs: seq<byte>, o: nat, count: nat,
                                       done: seq<Entry>)
    ensures var r := DecodeEntries(repair, bs, o, count, done);
            r.Ok? ==> r.value.Object? && |r.value.entries| <= |done| + count
                      && (|r.value.entries| == |done| + count ==> done <= r.value.entries)
    decreases count
  {
    hide DecodeAt, SetProperty;
    if count > 0 {
      var key := DecodeAt(repair, bs, o);
      if key.Ok? && key.value.Text? {
        var value := DecodeAt(repair, bs, key.offset);
        if value.Ok? {
          var more := SetProperty(done, key.value.utf8, value.value);
          SetGrows(done, key.value.utf8, value.value);
          EntriesGrow(repair, bs, value.offset, count - 1, more);
        }
      }
    }
  }

  lemma SetGrows(es: seq<Entry>, key: seq<byte>, value: Value)
    ensures var r := SetProperty(es, key, value);
            |es| <= |r| <= |es| + 1 && (|r| == |es| + 1 ==> r == es + [Entry(key, value)])
  {
  }

  /** The encoding of a value with a floating-point number in it decodes to some other value, or not at all. */
  lemma {:induction false} FloatAstray(repair: seq<byte> -> seq<byte>, bs: seq<byte>, o: nat, v: Value)
    requires WellFormed(repair, v) && !Plain(v) && At(bs, o, Enc(v))
    ensures var r := DecodeAt(repair, bs, o); r.Ok? ==> r.value != v
    decreases v, 1, 0
  {
    hide DecodeAt, DecodeItems, DecodeEntries, At, Head;
    match v
    case Float(ieee) => FloatReads(repair, bs, o, ieee);
    case Array(items) =>
      AtSplit(bs, o, Head(4, |items|), EncItems(v, 0));
      ArrayReads(repair, bs, o, |items|);
      ItemsAstray(repair, bs, o + |Head(4, |items|)|, v, 0, |items|);
    case Object(entries) =>
      AtSplit(bs, o, Head(5, |entries|), EncEntries(v, 0));
      ObjectReads(repair, bs, o, |entries|);
      EntriesAstray(repair, bs, o + |Head(5, |entries|)|, v, 0, |entries|);
  }

  /** A floating-point number is read as 0, and its eight bytes as what comes next. */
  lemma FloatReads(repair: seq<byte> -> seq<byte>, bs: seq<byte>, o: nat, ieee: seq<byte>)
    requires At(bs, o, Enc(Float(ieee)))
    ensures DecodeAt(repair, bs, o) == Ok(Uint(0), o + 1)
  {
    FirstByte(bs, o, 0, ieee);
    SmallIsDouble(0);
  }

  lemma {:induction false} ItemsAstray(repair: seq<byte> -> seq<byte>, bs: seq<byte>, o: nat, v: Value, i: nat,
                                       left: nat)
    requires v.Array? && WellFormed(repair, v) && i + left == |v.items| && At(bs, o, EncItems(v, i))
    requires exists j :: i <= j < |v.items| && !Plain(v.items[j])
    ensures var r := DecodeItems(repair, bs, o, left, ReturnedItems(v, i)); r.Ok? ==> r.value != v
    decreases v, 0, left
  {
    hide DecodeAt, DecodeItems, At, WellFormed, Enc, EncItems, Returned, ReturnedItems, Plain;
    var item := v.items[i];
    var done, r := ReturnedItems(v, i), DecodeAt(repair, bs, o);
    ItemsSplit(bs, o, v, i);
    WellFormedItem(repair, v, i);
    if Plain(item) {
      var next := o + |Enc(item)|;
      RoundTrip(repair, bs, o, item);
      ItemsStep(repair, bs, o, left, done, Returned(item), next);
      ReturnedItemsNext(v, i);
      ItemsAstray(repair, bs, next, v, i + 1, left - 1);
    } else {
      FloatAstray(repair, bs, o, item);
      if r.Ok? {
        ItemsStep(repair, bs, o, left, done, r.value, r.offset);
        ItemsGrow(repair, bs, r.offset, left - 1, done + [r.value]);
        assert (done + [r.value])[i] == r.value;
      } else {
        ItemsFail(repair, bs, o, left, done);
      }
    }
  }

  lemma ItemsFail(repair: seq<byte> -> seq<byte>, bs: seq<byte>, o: nat, count: nat, done: seq<Value>)
    requires count > 0 && DecodeAt(repair, bs, o).Err?
    ensures DecodeItems(repair, bs, o, count, done).Err?
  {
    hide DecodeAt;
  }

  lemma {:induction false} EntriesAstray(repair: seq<byte> -> seq<byte>, bs: seq<byte>, o: nat, v: Value, i: nat,
                                         left: nat)
    requires v.Object? && WellFormed(repair, v) && i + left == |v.entries| && At(bs, o, EncEntries(v, i))
    requires exists j :: i <= j < |v.entries| && !Plain(v.entries[j].value)
    ensures var r := DecodeEntries(repair, bs, o, left, ReturnedEntries(v, i)); r.Ok? ==> r.value != v
    decreases v, 0, left
  {
    hide DecodeAt, DecodeEntries, At, WellFormed, WellFormedText, Head, Enc, EncEntries, Returned, ReturnedEntries,
      SetProperty, Strip, Plain;
    var entry := v.entries[i];
    var key := Head(3, |entry.key|) + entry.key;
    var mid := o + |key|;
    var done, r := ReturnedEntries(v, i), DecodeAt(repair, bs, mid);
    EntriesSplit(bs, o, v, i);
    WellFormedEntry(repair, v, i);
    TextReads(repair, bs, o, entry.key);
    if Plain(entry.value) {
      var next := mid + |Enc(entry.value)|;
      RoundTrip(repair, bs, mid, entry.value);
      EntriesStep(repair, bs, o, left, done, Strip(entry.key), mid, Returned(entry.value), next);
      ReturnedEntriesNext(v, i);
      EntriesAstray(repair, bs, next, v, i + 1, left - 1);
    } else {
      FloatAstray(repair, bs, mid, entry.value);
      if r.Ok? {
        EntriesStep(repair, bs, o, left, done, Strip(entry.key), mid, r.value, r.offset);
        SetGrows(done, Strip(entry.key), r.value);
        var more := SetProperty(done, Strip(entry.key), r.value);
        EntriesGrow(repair, bs, r.offset, left - 1, more);
        assert |more| == i + 1 ==> more[i].value == r.value;
      } else {
        EntriesFail(repair, bs, o, left, done, Strip(entry.key), mid);
      }
    }
  }

  lemma EntriesFail(repair: seq<byte> -> seq<byte>, bs: seq<byte>, o: nat, count: nat, done: seq<Entry>,
                    key: seq<byte>, mid: nat)
    requires count > 0 && DecodeAt(repair, bs, o) == Ok(Text(key), mid) && DecodeAt(repair, bs, mid).Err?
    ensures DecodeEntries(repair, bs, o, count, done).Err?
  {
    hide DecodeAt;
  }

  /** A floating-point number encoded as the standard says (RFC 8949, section 3.3) is decoded as the eight bytes
      behind it, or fails for want of them. */
  lemma StandardFloatSkipped(repair: seq<byte> -> seq<byte>, ieee: seq<byte>, rest: seq<byte>)
    requires |ieee| == 8
    ensures DecodeAt(repair, [0xfb] + ieee + rest, 0)
         == if |rest| < 8 then Err(OutOfRange) else Ok(Float(rest[..8]), 17)
  {
    var bs := [0xfb] + ieee + rest;
    assert bs[0] == 0xfb;
    if |rest| >= 8 {
      assert bs[9..17] == rest[..8];
    }
  }

  lemma FaithfulIsPlain(v: Value)
    ensures Faithful(v) ==> Plain(v)
  {
  }

  /** Decoding undoes encoding exactly for faithful values. */
  lemma DecodeUndoesEncodeIff(repair: seq<byte> -> seq<byte>, v: Value, rest: seq<byte>)
    requires WellFormed(repair, v)
    ensures var r := DecodeAt(repair, Enc(v) + rest, 0);
            && (r.Ok? && r.value == v <==> Faithful(v))
            && (Faithful(v) ==> r.offset == |Enc(v)|)
  {
    hide DecodeAt, Enc, Faithful, Plain, WellFormed;
    assert (Enc(v) + rest)[0..0 + |Enc(v)|] == Enc(v);
    FaithfulIsPlain(v);
    if Plain(v) {
      RoundTrip(repair, Enc(v) + rest, 0, v);
      ReturnedIff(repair, v);
    } else {
      FloatAstray(repair, Enc(v) + rest, 0, v);
    }
  }

  /** 2^64 comes back as 0, and so does every number that is not a natural one. */
  lemma NumbersLost(repair: seq<byte> -> seq<byte>, ieee: seq<byte>)
    requires |ieee| == 8
    ensures WellFormed(repair, Uint(TWO64)) && DecodeAt(repair, Enc(Uint(TWO64)), 0) == Ok(Uint(0), 9)
    ensures WellFormed(repair, Float(ieee)) && DecodeAt(repair, Enc(Float(ieee)), 0) == Ok(Uint(0), 1)
  {
    hide DecodeAt;
    Powers();
    var c := SpacingDivides(TWO64, 12);
    assert Spacing(TWO64) * (c * 0x10_0000_0000_0000) == TWO64;
    Remainder(TWO64, Spacing(TWO64), c * 0x10_0000_0000_0000, 0);
    var a, b := Enc(Uint(TWO64)), Enc(Float(ieee));
    assert a[0..|a|] == a && b[0..|b|] == b;
    SmallIsDouble(0);
    UintReads(repair, a, 0, TWO64);
    FloatReads(repair, b, 0, ieee);
  }

  /** An object whose one key is __proto__ comes back without it. */
  lemma ProtoLost(repair: seq<byte> -> seq<byte>)
    requires repair(PROTO) == PROTO
    ensures var v := Object([Entry(PROTO, Null)]);
            WellFormed(repair, v) && DecodeAt(repair, Enc(v), 0) == Ok(Object([]), |Enc(v)|)
  {
    var v := Object([Entry(PROTO, Null)]);
    assert !(BOM <= PROTO) by {
      assert PROTO[0] != BOM[0];
    }
    assert WellFormedText(repair, PROTO) && WellFormed(repair, Null);
    assert v.entries[0].key == PROTO && Strip(PROTO) == PROTO;
    assert ReturnedEntries(v, 1)
        == SetProperty(ReturnedEntries(v, 0), Strip(v.entries[0].key), Returned(v.entries[0].value));
    assert Enc(v)[0..|Enc(v)|] == Enc(v);
    RoundTrip(repair, Enc(v), 0, v);
  }

  /** No encoding is a proper prefix of another, floating-point numbers aside. */
  lemma PrefixFree(repair: seq<byte> -> seq<byte>, u: Value, v: Value, rest: seq<byte>)
    requires WellFormed(repair, u) && WellFormed(repair, v) && Plain(u) && Plain(v) && Enc(v) == Enc(u) + rest
    ensures rest == []
  {
    assert Enc(v)[0..0 + |Enc(v)|] == Enc(v) && Enc(v)[0..0 + |Enc(u)|] == Enc(u);
    RoundTrip(repair, Enc(v), 0, u);
    RoundTrip(repair, Enc(v), 0, v);
  }

  /** The encoding of every floating-point number begins with that of 0. */
  lemma ZeroIsPrefix(repair: seq<byte> -> seq<byte>, ieee: seq<byte>)
    requires |ieee| == 8
    ensures WellFormed(repair, Uint(0)) && WellFormed(repair, Float(ieee))
    ensures Enc(Float(ieee)) == Enc(Uint(0)) + ieee
  {
    SmallIsDouble(0);
  }

  /** Every head is the shortest one: whatever else decodes to the same major type and argument is no shorter
      (RFC 8949, section 4.2.1). */
  lemma HeadShortest(bs: seq<byte>, major: nat, count: nat, end: nat)
    requires major < 8 && bs != [] && bs[0] as nat / 32 == major && bs[0] as nat % 32 < 28
    requires DecodeCount(bs, 1, bs[0] as nat % 32) == Ok(count, end)
    ensures |Head(major, count)| <= end
  {
    var minor := bs[0] as nat % 32;
    if minor >= 25 {
      var k := end - 1;
      ReadBound(bs[1..1 + k]);
      Widths();
      if k < 8 {
        SmallIsDouble(ReadBigEndian(bs[1..1 + k]));
      }
    }
  }
}
