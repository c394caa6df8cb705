/** The encoder, which collects byte chunks, and the decoder, which moves an offset over its input. */
module CborCodec {
  import opened Int32
  import opened Bytes
  import Base58
  import opened Cbor
  import opened CborReturns

  function Concat(parts: seq<seq<byte>>): seq<byte> {
    if parts == [] then [] else Concat(parts[..|parts| - 1]) + parts[|parts| - 1]
  }

  class Encoder {
    var parts: seq<seq<byte>>
    /** What text decoding replaces; the encoder is only given text in which that is nothing. */
    ghost const repair: seq<byte> -> seq<byte>

    constructor (ghost repair: seq<byte> -> seq<byte>)
      ensures Written() == [] && this.repair == repair
    {
      parts := [];
      this.repair := repair;
    }

    ghost function Written(): seq<byte>
      reads this
    {
      Concat(parts)
    }

    method Push(part: seq<byte>)
      modifies this
      ensures Written() == old(Written()) + part
    {
      parts := parts + [part];
    }

    /** The initial byte and the argument in the fewest bytes; `wide` allows the 64-bit form. */
    method EncodeHead(major: nat, count: nat, wide: bool)
      requires major < 8 && (count < TWO32 || wide)
      modifies this
      ensures Written() == old(Written()) + Head(major, count)
    {
      hide Concat, BigEndian;
      if count < 24 {
        Push([32 * major + count]);
      } else if count < 0x100 {
        Push([32 * major + 24] + BigEndian(count, 1));
      } else if count < 0x10000 {
        Push([32 * major + 25] + BigEndian(count, 2));
      } else if count < TWO32 {
        Push([32 * major + 26] + BigEndian(count, 4));
      } else {
        Push([32 * major + 27] + BigEndian(count, 8));
      }
    }

    method EncodeText(utf8: seq<byte>)
      requires |utf8| < TWO32
      modifies this
      ensures Written() == old(Written()) + (Head(3, |utf8|) + utf8)
    {
      hide Concat, Head;
      EncodeHead(3, |utf8|, false);
      Push(utf8);
    }

    method EncodeValue(v: Value)
      requires WellFormed(repair, v)
      modifies this
      ensures Written() == old(Written()) + Enc(v)
      decreases v, 1
    {
      hide Written, Head, EncItems, EncEntries;
      match v {
        case Null => Push([0xf6]);
        case Bool(b) => Push([if b then 0xf5 else 0xf4]);
        case Uint(n) => EncodeHead(0, n, true);
        case Float(ieee) => Push([0] + ieee);
        case ByteString(bs) =>
          EncodeHead(2, |bs|, false);
          Push(bs);
        case Text(utf8) => EncodeText(utf8);
        case Array(items) =>
          EncodeHead(4, |items|, false);
          EncodeItems(v);
        case Object(entries) =>
          EncodeHead(5, |entries|, false);
          EncodeEntries(v);
      }
    }

    method EncodeItems(v: Value)
      requires WellFormed(repair, v) && v.Array?
      modifies this
      ensures Written() == old(Written()) + EncItems(v, 0)
      decreases v, 0
    {
      ghost var all := Written() + EncItems(v, 0);
      var i := 0;
      while i < |v.items|
        invariant 0 <= i <= |v.items|
        invariant Written() + EncItems(v, i) == all
      {
        hide Written, Enc, EncItems, WellFormed;
        WellFormedItem(repair, v, i);
        ghost var before := Written();
        EncodeValue(v.items[i]);
        ItemsStep(before, v, i);
        i := i + 1;
      }
      assert EncItems(v, |v.items|) == [];
    }

    method EncodeEntries(v: Value)
      requires WellFormed(repair, v) && v.Object?
      modifies this
      ensures Written() == old(Written()) + EncEntries(v, 0)
      decreases v, 0
    {
      ghost var all := Written() + EncEntries(v, 0);
      var i := 0;
      while i < |v.entries|
        invariant 0 <= i <= |v.entries|
        invariant Written() + EncEntries(v, i) == all
      {
        hide Written, Enc, EncEntries, Head, WellFormed;
        WellFormedEntry(repair, v, i);
        ghost var before := Written();
        EncodeText(v.entries[i].key);
        EncodeValue(v.entries[i].value);
        EntriesStep(before, v, i);
        i := i + 1;
      }
      assert EncEntries(v, |v.entries|) == [];
    }

    static lemma ItemsStep(before: seq<byte>, v: Value, i: nat)
      requires v.Array? && i < |v.items|
      ensures before + Enc(v.items[i]) + EncItems(v, i + 1) == before + EncItems(v, i)
    {
      hide Enc;
      var item, rest := Enc(v.items[i]), EncItems(v, i + 1);
      assert before + (item + rest) == before + item + rest;
    }

    static lemma EntriesStep(before: seq<byte>, v: Value, i: nat)
      requires v.Object? && i < |v.entries|
      ensures before + (Head(3, |v.entries[i].key|) + v.entries[i].key) + Enc(v.entries[i].value) + EncEntries(v, i + 1)
           == before + EncEntries(v, i)
    {
      hide Enc, Head;
      var key := Head(3, |v.entries[i].key|) + v.entries[i].key;
      var value, rest := Enc(v.entries[i].value), EncEntries(v, i + 1);
      assert EncEntries(v, i) == key + value + rest;
      assert before + (key + value + rest) == before + key + value + rest;
    }

    /** The chunks one after the other in one buffer of the total length. */
    method Concatenate() returns (result: array<byte>)
      ensures fresh(result) && result[..] == Written()
    {
      var totalLen := 0;
      for i := 0 to |parts|
        invariant totalLen == |Concat(parts[..i])|
      {
        assert parts[..i + 1][..i] == parts[..i];
        totalLen := totalLen + |parts[i]|;
      }
      assert parts[..|parts|] == parts;
      result := new byte[totalLen];
      var offset := 0;
      for i := 0 to |parts|
        invariant 0 <= offset <= totalLen && result[..offset] == Concat(parts[..i])
      {
        assert parts[..i + 1][..i] == parts[..i];
        PrefixFits(parts, i + 1);
        SetAt(result, parts[i], offset);
        offset := offset + |parts[i]|;
      }
    }
  }

  lemma {:induction false} PrefixFits(parts: seq<seq<byte>>, n: nat)
    requires n <= |parts|
    ensures |Concat(parts[..n])| <= |Concat(parts)|
    decreases |parts| - n
  {
    if n < |parts| {
      assert parts[..n + 1][..n] == parts[..n];
      PrefixFits(parts, n + 1);
    } else {
      assert parts[..n] == parts;
    }
  }

  method SetAt(result: array<byte>, part: seq<byte>, offset: nat)
    requires offset + |part| <= result.Length
    modifies result
    ensures result[..offset + |part|] == old(result[..offset]) + part
  {
    var k := 0;
    while k < |part|
      invariant 0 <= k <= |part| && result[..offset + k] == old(result[..offset]) + part[..k]
    {
      result[offset + k] := part[k];
      k := k + 1;
    }
  }

  datatype Result<T> = Success(value: T) | Failure(error: Error)

  class Decoder {
    const bytes: seq<byte>
    const repair: seq<byte> -> seq<byte>
    var offset: nat

    constructor (bytes: seq<byte>, repair: seq<byte> -> seq<byte>)
      ensures this.bytes == bytes && this.repair == repair && offset == 0
    {
      this.bytes, this.repair, offset := bytes, repair, 0;
    }

    /** The outcome a pure description gives, as a return value and an offset. */
    ghost predicate Gives<T>(d: Decoded<T>, r: Result<T>)
      reads this`offset
    {
      match d
      case Ok(value, o) => r == Success(value) && offset == o
      case Err(error) => r == Failure(error)
    }

    method ReadWide(k: nat) returns (r: Result<nat>)
      modifies this
      ensures Gives(DecodeWide(bytes, old(offset), k), r)
    {
      if offset + k > |bytes| {
        return Failure(OutOfRange);
      }
      r := Success(ToDouble(ReadBigEndian(bytes[offset..offset + k])));
      offset := offset + k;
    }

    method ReadFloat(k: nat) returns (r: Result<Value>)
      modifies this
      ensures Gives(DecodeFloat(bytes, old(offset), k), r)
    {
      if offset + k > |bytes| {
        return Failure(OutOfRange);
      }
      r := Success(Float(bytes[offset..offset + k]));
      offset := offset + k;
    }

    /** The object that stands for a content identifier. */
    static method ReadLink(cid: seq<byte>) returns (link: Value)
      ensures link == Link(cid)
    {
      var text := Base58.Encode(if cid == [] then [] else cid[1..]);
      link := Object([Entry(LINK, Text(Ascii(text)))]);
    }

    method ReadCount(minor: nat) returns (r: Result<nat>)
      modifies this
      ensures Gives(DecodeCount(bytes, old(offset), minor), r)
    {
      if minor < 24 {
        return Success(minor);
      }
      if minor == 24 {
        if offset >= |bytes| {
          return Failure(Unmodelled);
        }
        r := Success(bytes[offset] as nat);
        offset := offset + 1;
        return;
      }
      if minor == 25 {
        r := ReadWide(2);
        return;
      }
      if minor == 26 {
        r := ReadWide(4);
        return;
      }
      if minor == 27 {
        r := ReadWide(8);
        return;
      }
      r := Success(0);
    }

    method Decode() returns (r: Result<Value>)
      modifies this
      ensures Gives(DecodeAt(repair, bytes, old(offset)), r)
      decreases Left(bytes, offset), 0
    {
      hide DecodeCount, DecodeItems, DecodeEntries, Slice, DecodeText;
      if offset >= |bytes| {
        return Failure(UnexpectedEnd);
      }
      var initial := bytes[offset] as nat;
      offset := offset + 1;
      var major, minor := initial / 32, initial % 32;
      var c := ReadCount(minor);
      if c.Failure? {
        return Failure(c.error);
      }
      var count := c.value;
      match major {
        case 0 => r := Success(Uint(count));
        case 1 => r := Success(Negative(count));
        case 2 =>
          r := Success(ByteString(Slice(bytes, offset, count)));
          offset := offset + count;
        case 3 =>
          r := Success(Text(DecodeText(repair, Slice(bytes, offset, count))));
          offset := offset + count;
        case 4 => r := ReadItems(count);
        case 5 => r := ReadEntries(count);
        case 6 =>
          r := Decode();
          if r.Success? && r.value.ByteString? && count == 42 {
            var link := ReadLink(r.value.bytes);
            r := Success(link);
          }
        case _ =>
          if minor == 20 {
            r := Success(Bool(false));
          } else if minor == 21 {
            r := Success(Bool(true));
          } else if minor == 22 {
            r := Success(Null);
          } else if minor in {25, 26, 27} {
            r := ReadFloat(FloatWidth(minor));
          } else {
            r := Success(Uint(count));
          }
      }
    }

    method ReadItems(count: nat) returns (r: Result<Value>)
      modifies this
      ensures Gives(DecodeItems(repair, bytes, old(offset), count, []), r)
      decreases Left(bytes, offset), 1
    {
      hide DecodeAt;
      ghost var all := DecodeItems(repair, bytes, offset, count, []);
      var result: seq<Value> := [];
      var i := 0;
      while i < count
        invariant 0 <= i <= count && old(offset) <= offset && (i > 0 ==> old(offset) < |bytes|)
        invariant i > 0 ==> old(offset) < offset
        invariant DecodeItems(repair, bytes, offset, count - i, result) == all
      {
        var item := Decode();
        if item.Failure? {
          return item;
        }
        result := result + [item.value];
        i := i + 1;
      }
      r := Success(Array(result));
    }

    method ReadEntries(count: nat) returns (r: Result<Value>)
      modifies this
      ensures Gives(DecodeEntries(repair, bytes, old(offset), count, []), r)
      decreases Left(bytes, offset), 1
    {
      hide DecodeAt, SetProperty;
      ghost var all := DecodeEntries(repair, bytes, offset, count, []);
      var result: seq<Entry> := [];
      var i := 0;
      while i < count
        invariant 0 <= i <= count && old(offset) <= offset && (i > 0 ==> old(offset) < |bytes|)
        invariant i > 0 ==> old(offset) < offset
        invariant DecodeEntries(repair, bytes, offset, count - i, result) == all
      {
        var key := Decode();
        if key.Failure? {
          return key;
        }
        var value := Decode();
        if value.Failure? {
          return value;
        }
        if !key.value.Text? {
          return Failure(Unmodelled);
        }
        result := SetProperty(result, key.value.utf8, value.value);
        i := i + 1;
      }
      r := Success(Object(result));
    }
  }

  method DagCborEncode(v: Value, ghost repair: seq<byte> -> seq<byte>) returns (result: array<byte>)
    requires WellFormed(repair, v)
    ensures fresh(result) && result[..] == Enc(v)
  {
    var encoder := new Encoder(repair);
    encoder.EncodeValue(v);
    result := encoder.Concatenate();
  }

  method DagCborDecode(data: seq<byte>, repair: seq<byte> -> seq<byte>) returns (r: Result<Value>)
    ensures match DecodeAt(repair, data, 0)
            case Ok(value, _) => r == Success(value)
            case Err(error) => r == Failure(error)
  {
    var decoder := new Decoder(data, repair);
    r := decoder.Decode();
  }

  /** Encode and decode again: the value itself exactly when it is faithful. */
  method ThereAndBack(v: Value, repair: seq<byte> -> seq<byte>) returns (r: Result<Value>)
    requires WellFormed(repair, v)
    ensures r == Success(v) <==> Faithful(v)
  {
    var data := DagCborEncode(v, repair);
    r := DagCborDecode(data[..], repair);
    assert Enc(v) + [] == Enc(v);
    DecodeUndoesEncodeIff(repair, v, []);
  }
}
