/** Collection markers: a type prefix followed by a collection id in decimal. */
module Markers {
  import opened Int32
  import opened Bytes
  import opened Numerals
  import opened CollectionIds
  import opened Options
  import opened StringHeap

  const ZERO: byte := 48
  /** (2^31 - 1) / 10: an accumulator above this is not multiplied any more. */
  const PARSE_LIMIT: nat := 214748364
  const MAX_PARSED: nat := 2147483649

  predicate IsDigit(c: byte) {
    ZERO <= c <= ZERO + 9
  }

  function DigitText(ds: seq<nat>): (text: seq<byte>)
    requires AreDigits(10, ds)
    ensures |text| == |ds| && forall i :: 0 <= i < |ds| ==> text[i] == ZERO + ds[i]
  {
    if ds == [] then [] else DigitText(ds[..|ds| - 1]) + [ZERO + ds[|ds| - 1]]
  }

  function DecimalDigits(n: nat): (ds: seq<nat>)
    ensures AreDigits(10, ds) && Value(10, ds) == n && ds != []
    ensures |ds| > 1 ==> ds[0] != 0
  {
    DigitsValue(10, n);
    if n == 0 then [0] else Digits(10, n)
  }

  function Decimal(n: nat): seq<byte> {
    DigitText(DecimalDigits(n))
  }

  /** The number read from position `i` on, `acc` having been read before.  An accumulator that has
      grown too large makes the whole number 0. */
  function ParseFrom(s: seq<byte>, i: nat, acc: nat): (id: nat)
    requires acc <= MAX_PARSED
    ensures id <= MAX_PARSED
    decreases |s| - i
  {
    if i < |s| && IsDigit(s[i]) then
      if acc > PARSE_LIMIT then 0 else ParseFrom(s, i + 1, acc * 10 + (s[i] - ZERO))
    else acc
  }

  lemma {:induction false} ValuePrefixMonotone(ds: seq<nat>, i: nat, j: nat)
    requires i <= j <= |ds|
    ensures Value(10, ds[..i]) <= Value(10, ds[..j])
    decreases j
  {
    if i < j {
      ValueNext(10, ds, j - 1);
      ValuePrefixMonotone(ds, i, j - 1);
    }
  }

  /** Reading a text of digits behind a prefix: the value, unless it exceeds the limit. */
  lemma {:induction false} ParseDigits(prefix: seq<byte>, ds: seq<nat>, i: nat)
    requires AreDigits(10, ds) && i <= |ds| && Value(10, ds[..i]) <= MAX_PARSED
    ensures ParseFrom(prefix + DigitText(ds), |prefix| + i, Value(10, ds[..i]))
            == if Value(10, ds) <= MAX_PARSED then Value(10, ds) else 0
    decreases |ds| - i
  {
    var s := prefix + DigitText(ds);
    if i == |ds| {
      assert ds[..i] == ds;
    } else {
      assert s[|prefix| + i] == ZERO + ds[i];
      ValueNext(10, ds, i);
      ValuePrefixMonotone(ds, i + 1, |ds|);
      assert ds[..|ds|] == ds;
      if Value(10, ds[..i]) <= PARSE_LIMIT {
        ParseDigits(prefix, ds, i + 1);
      }
    }
  }

  /** A printed id parses back exactly when it is at most 2147483649; a larger one parses to 0. */
  lemma ParsePrinted(prefix: seq<byte>, id: nat)
    ensures ParseFrom(prefix + Decimal(id), |prefix|, 0) == if id <= MAX_PARSED then id else 0
  {
    ParseDigits(prefix, DecimalDigits(id), 0);
  }

  /** The collection a marker text stands for, or 0. */
  function FromMarker(t: IdTable, s: seq<byte>, prefix: seq<byte>): nat
    requires Shaped(t)
  {
    if prefix <= s then Resolve(t, ParseFrom(s, |prefix|, 0)) else 0
  }

  function Marker(prefix: seq<byte>, id: nat): seq<byte> {
    prefix + Decimal(id)
  }

  /** The marker of a collection leads back to it exactly when it is live, its slot's generation
      fits in 16 bits, and its id is small enough to be parsed; otherwise to no collection. */
  lemma MarkerLeadsBack(t: IdTable, prefix: seq<byte>, id: nat)
    requires Shaped(t) && !t.active[0] && 0 < id < TWO32 && SlotOf(id) < MAX_COLLECTIONS
    ensures FromMarker(t, Marker(prefix, id), prefix) == id
            <==> id in LiveIds(t) && t.generation[SlotOf(id)] < TWO_16 && id <= MAX_PARSED
    ensures FromMarker(t, Marker(prefix, id), prefix) == id || FromMarker(t, Marker(prefix, id), prefix) == 0
  {
    ParsePrinted(prefix, id);
    ResolveLive(t, id);
  }

  /** The first live collection no marker leads to: slot 2 in its generation 32768. */
  lemma HighMarkerLost(t: IdTable, prefix: seq<byte>)
    requires Shaped(t) && !t.active[0] && t.active[2] && t.generation[2] == 32768
    ensures 2147483650 in LiveIds(t) && FromMarker(t, Marker(prefix, 2147483650), prefix) == 0
  {
    hide Decimal, ParseFrom, Resolve;
    var id := 2147483650;
    assert IdOf(t.generation[2], 2) == id;
    ParsePrinted(prefix, id);
    assert FromMarker(t, Marker(prefix, id), prefix) == Resolve(t, 0);
    ResolveNone(t);
  }

  lemma ResolveNone(t: IdTable)
    requires Shaped(t) && !t.active[0]
    ensures Resolve(t, 0) == 0
  {
  }

  /** The parser's loop, with its 32-bit accumulator: no multiplication overflows. */
  method ParseId(s: seq<byte>, start: nat) returns (id: nat)
    requires start <= |s|
    ensures id == ParseFrom(s, start, 0)
  {
    id := 0;
    var i := start;
    while i < |s| && IsDigit(s[i])
      invariant start <= i <= |s| && id <= MAX_PARSED
      invariant ParseFrom(s, start, 0) == ParseFrom(s, i, id)
    {
      var digit := s[i] - ZERO;
      if id > PARSE_LIMIT {
        return 0;
      }
      assert id * 10 + digit < TWO32;
      id := (id * 10 + digit) % TWO32;
      i := i + 1;
    }
  }

  /** Number of decimal digits. */
  method CountDigits(n: nat) returns (digits: nat)
    ensures digits == |DecimalDigits(n)|
  {
    digits := 0;
    if n == 0 {
      digits := 1;
    } else {
      var t := n;
      while t > 0
        invariant digits + |Digits(10, t)| == |Digits(10, n)|
      {
        digits := digits + 1;
        t := t / 10;
      }
    }
  }

  /** The digits from position `d` on have been written at `pos + d` and after. */
  predicate Written(before: seq<byte>, pos: nat, ds: seq<nat>, d: nat, now: seq<byte>) {
    && |now| == |before| && pos + |ds| <= |now|
    && (forall k :: 0 <= k < pos ==> now[k] == before[k])
    && (forall k :: pos + d <= k < pos + |ds| ==> now[k] == ZERO + ds[k - pos])
  }

  /** The number still to be printed once the digits from `d` on are written. */
  predicate Remains(ds: seq<nat>, d: nat, t: nat) {
    d <= |ds| && AreDigits(10, ds) && t == Value(10, ds[..d]) && (|ds| > 1 ==> ds[0] != 0)
  }

  lemma OneDigit(ds: seq<nat>, d: nat, t: nat)
    requires Remains(ds, d, t) && d > 0
    ensures t % 10 == ds[d - 1] && Remains(ds, d - 1, t / 10)
    ensures d < |ds| ==> t > 0
    ensures d - 1 > 0 ==> t / 10 > 0
  {
    ValueNext(10, ds, d - 1);
    if |ds| > 1 {
      ValuePositive(10, ds[..d]);
      if d - 1 > 0 {
        ValuePositive(10, ds[..d - 1]);
      }
    }
  }

  /** Print an id behind what is already in the buffer, digits from right to left, and a NUL. */
  method WriteDigits(buf: array<byte>, pos: nat, id: nat) returns (digits: nat)
    requires pos + |Decimal(id)| < buf.Length
    modifies buf
    ensures digits == |Decimal(id)|
    ensures buf[..pos] == old(buf[..pos]) && buf[pos..pos + digits] == Decimal(id) && buf[pos + digits] == 0
  {
    digits := CountDigits(id);
    ghost var ds, before := DecimalDigits(id), buf[..];
    assert ds[..digits] == ds;
    OneDigit(ds, digits, id);
    // A do-while loop: the first round always runs.
    var d: nat := digits - 1;
    buf[pos + d] := ZERO + id % 10;
    var t: nat := id / 10;
    while t > 0
      invariant 0 <= d < digits && Remains(ds, d, t) && (d > 0 ==> t > 0)
      invariant Written(before, pos, ds, d, buf[..])
    {
      assert d > 0 by {
        assert ds[..0] == [];
      }
      OneDigit(ds, d, t);
      d := d - 1;
      buf[pos + d] := ZERO + t % 10;
      t := t / 10;
    }
    buf[pos + digits] := 0;
    Spelled(before, pos, id, buf[..]);
  }

  lemma Spelled(before: seq<byte>, pos: nat, id: nat, now: seq<byte>)
    requires Written(before, pos, DecimalDigits(id), 0, now)
    ensures now[..pos] == before[..pos] && now[pos..pos + |Decimal(id)|] == Decimal(id)
  {
  }

  const MARKER_BUFFER: nat := 64

  method CopyPrefix(buf: array<byte>, prefix: seq<byte>)
    requires |prefix| < buf.Length
    modifies buf
    ensures buf[..|prefix|] == prefix && buf[|prefix|] == 0
  {
    var i := 0;
    while i < |prefix|
      invariant 0 <= i <= |prefix| && buf[..i] == prefix[..i]
    {
      buf[i] := prefix[i];
      i := i + 1;
    }
    buf[i] := 0;
  }

  /** A new string with the marker of a collection, built in a fixed buffer; null when the heap has no room. */
  method MakeMarker(heap: Heap, prefix: seq<byte>, id: nat) returns (h: ObjId)
    requires heap.Valid() && 0 !in prefix && |Marker(prefix, id)| < MARKER_BUFFER
    modifies heap, heap.objects, heap.stringPool
    ensures heap.Valid() && (old(heap.Conserved()) ==> heap.Conserved())
    ensures h == OBJ_NULL <==> old(heap.stringPoolOffset) + |Marker(prefix, id)| + 1 > STRING_POOL_SIZE
                               || (old(heap.freeSlots) == [] && old(heap.objectCount) + 1 == MAX_OBJECTS)
    ensures h != OBJ_NULL ==> old(heap.StringOf(h)) == None && heap.StringOf(h) == Some(Marker(prefix, id))
    ensures forall k: ObjId :: k != h ==> heap.StringOf(k) == old(heap.StringOf(k))
  {
    hide Decimal, DigitText, DecimalDigits, StringHeap.Prefix;
    var buf := new byte[MARKER_BUFFER];
    CopyPrefix(buf, prefix);
    var digits := WriteDigits(buf, |prefix|, id);
    assert buf[..|prefix| + digits] == Marker(prefix, id);
    MarkerNoNul(prefix, id);
    PrefixIs(buf[..], |prefix| + digits, |prefix| + digits);
    h := heap.ObjAllocStr(buf[..], |prefix| + digits);
  }

  lemma MarkerNoNul(prefix: seq<byte>, id: nat)
    requires 0 !in prefix
    ensures 0 !in Marker(prefix, id)
  {
    assert forall i :: 0 <= i < |Decimal(id)| ==> Decimal(id)[i] >= ZERO;
  }
}
