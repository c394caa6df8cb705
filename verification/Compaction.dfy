/** What a compaction of the string pool does to its bytes, as a relation on sequences.

    The collector slides every live string towards offset 0.  Its result has a description that
    mentions neither sorting nor relocation tables: a byte of a live string moves down by the
    number of dead bytes below it, so it lands at the number of live bytes below it. */
module Compaction {
  import opened Bytes

  /** The offset just past the terminating NUL of the string at `o`, clamped to `limit`. */
  function StrEnd(pool: seq<byte>, limit: nat, o: nat): (e: nat)
    requires limit <= |pool|
    ensures o < limit ==> o < e <= limit
    ensures o >= limit ==> e == o
    decreases limit - o
  {
    if o >= limit then o
    else if pool[o] == 0 then o + 1
    else StrEnd(pool, limit, o + 1)
  }

  /** The scan stops at the first NUL, or at the limit. */
  lemma {:induction false} StrEndScan(pool: seq<byte>, limit: nat, o: nat)
    requires limit <= |pool| && o < limit
    ensures forall k :: o <= k < StrEnd(pool, limit, o) - 1 ==> pool[k] != 0
    ensures pool[StrEnd(pool, limit, o) - 1] == 0 || StrEnd(pool, limit, o) == limit
    decreases limit - o
  {
    if pool[o] != 0 && o + 1 < limit {
      StrEndScan(pool, limit, o + 1);
    }
  }

  lemma {:induction false} StrEndUnique(pool: seq<byte>, limit: nat, o: nat, e: nat)
    requires limit <= |pool| && o < e <= limit
    requires forall k :: o <= k < e - 1 ==> pool[k] != 0
    requires pool[e - 1] == 0 || e == limit
    ensures StrEnd(pool, limit, o) == e
    decreases e - o
  {
    if o + 1 < e {
      StrEndUnique(pool, limit, o + 1, e);
    }
  }

  /** The string at `o` ends with a NUL inside the used pool. */
  predicate Terminated(pool: seq<byte>, limit: nat, o: nat)
    requires limit <= |pool|
  {
    o < limit && pool[StrEnd(pool, limit, o) - 1] == 0
  }

  /** The characters of the string at `o`: up to its NUL, or up to `limit` when it has none. */
  function Text(pool: seq<byte>, limit: nat, o: nat): seq<byte>
    requires limit <= |pool|
  {
    if o >= limit then []
    else if Terminated(pool, limit, o) then pool[o..StrEnd(pool, limit, o) - 1]
    else pool[o..limit]
  }

  /** Strings at different live offsets do not overlap. */
  ghost predicate Disjoint(pool: seq<byte>, limit: nat, live: set<nat>)
    requires limit <= |pool|
  {
    forall a, b :: a in live && b in live && a < b ==> StrEnd(pool, limit, a) <= b || limit <= b
  }

  /** Position `k` belongs to some live string. */
  ghost predicate Covered(pool: seq<byte>, limit: nat, live: set<nat>, k: nat)
    requires limit <= |pool|
  {
    exists o :: o in live && o <= k < StrEnd(pool, limit, o)
  }

  /** How many positions below `k` belong to a live string. */
  ghost function LiveBelow(pool: seq<byte>, limit: nat, live: set<nat>, k: nat): (n: nat)
    requires limit <= |pool|
    ensures n <= k
  {
    if k == 0 then 0
    else LiveBelow(pool, limit, live, k - 1) + if Covered(pool, limit, live, k - 1) then 1 else 0
  }

  lemma {:induction false} LiveBelowInString(pool: seq<byte>, limit: nat, live: set<nat>, o: nat, k: nat)
    requires limit <= |pool| && o in live && o <= k <= StrEnd(pool, limit, o)
    ensures LiveBelow(pool, limit, live, k) == LiveBelow(pool, limit, live, o) + (k - o)
    decreases k
  {
    if o < k {
      LiveBelowInString(pool, limit, live, o, k - 1);
      assert Covered(pool, limit, live, k - 1);
    }
  }

  lemma {:induction false} LiveBelowGap(pool: seq<byte>, limit: nat, live: set<nat>, a: nat, b: nat)
    requires limit <= |pool| && a <= b
    requires forall k :: a <= k < b ==> !Covered(pool, limit, live, k)
    ensures LiveBelow(pool, limit, live, b) == LiveBelow(pool, limit, live, a)
    decreases b
  {
    if a < b {
      LiveBelowGap(pool, limit, live, a, b - 1);
    }
  }

  lemma {:induction false} LiveBelowMonotone(pool: seq<byte>, limit: nat, live: set<nat>, a: nat, b: nat)
    requires limit <= |pool| && a <= b
    ensures LiveBelow(pool, limit, live, a) <= LiveBelow(pool, limit, live, b)
    ensures LiveBelow(pool, limit, live, b) - LiveBelow(pool, limit, live, a) <= b - a
    ensures a < b && Covered(pool, limit, live, a)
            ==> LiveBelow(pool, limit, live, a) < LiveBelow(pool, limit, live, b)
    decreases b
  {
    if a < b {
      LiveBelowMonotone(pool, limit, live, a, b - 1);
    }
  }

  /** Every position of the compacted pool is the image of exactly one live byte. */
  lemma {:induction false} LiveBelowOnto(pool: seq<byte>, limit: nat, live: set<nat>, top: nat, k: nat) returns (m: nat)
    requires limit <= |pool| && k < LiveBelow(pool, limit, live, top)
    ensures m < top && Covered(pool, limit, live, m) && LiveBelow(pool, limit, live, m) == k
    decreases top
  {
    if LiveBelow(pool, limit, live, top - 1) == k {
      m := top - 1;
    } else {
      m := LiveBelowOnto(pool, limit, live, top - 1, k);
    }
  }

  /** Byte `m` is found, after the compaction, at the number of live bytes below it. */
  ghost predicate Lands(pool: seq<byte>, limit: nat, live: set<nat>, pool': seq<byte>, m: nat)
    requires limit <= |pool| == |pool'| && m < limit
  {
    pool'[LiveBelow(pool, limit, live, m)] == pool[m]
  }

  /** The compaction relation: `pool` with `limit` used bytes becomes `pool'` with `limit'` used
      bytes when the strings at the offsets in `live` are kept. */
  ghost predicate Compacted(pool: seq<byte>, limit: nat, live: set<nat>, pool': seq<byte>, limit': nat)
  {
    && limit <= |pool| == |pool'|
    && limit' == LiveBelow(pool, limit, live, limit)
    && (forall m: nat {:trigger Lands(pool, limit, live, pool', m)} ::
          m < limit && Covered(pool, limit, live, m) ==> Lands(pool, limit, live, pool', m))
    && pool'[limit'..] == pool[limit'..]
  }

  /** The offsets after a compaction. */
  ghost function Moved(pool: seq<byte>, limit: nat, live: set<nat>): set<nat>
    requires limit <= |pool|
  {
    set o | o in live :: LiveBelow(pool, limit, live, o)
  }

  /** Where byte `k` of the string at `o` lands. */
  lemma ByteKept(pool: seq<byte>, limit: nat, live: set<nat>, pool': seq<byte>, limit': nat, o: nat, k: nat)
    requires Compacted(pool, limit, live, pool', limit')
    requires o in live && o < limit && o <= k < StrEnd(pool, limit, o)
    ensures LiveBelow(pool, limit, live, o) + (k - o) < limit'
    ensures pool'[LiveBelow(pool, limit, live, o) + (k - o)] == pool[k]
  {
    assert Covered(pool, limit, live, k);
    assert Lands(pool, limit, live, pool', k);
    LiveBelowInString(pool, limit, live, o, k);
    LiveBelowMonotone(pool, limit, live, k, limit);
  }

  /** The image of the first `n` bytes of the string at `o`. */
  lemma {:induction false} BytesKept(pool: seq<byte>, limit: nat, live: set<nat>, pool': seq<byte>, limit': nat,
                                     o: nat, n: nat)
    requires Compacted(pool, limit, live, pool', limit')
    requires o in live && o < limit && o + n <= StrEnd(pool, limit, o)
    ensures LiveBelow(pool, limit, live, o) + n <= limit'
    ensures pool'[LiveBelow(pool, limit, live, o)..LiveBelow(pool, limit, live, o) + n] == pool[o..o + n]
  {
    if n == 0 {
      LiveBelowMonotone(pool, limit, live, o, limit);
    } else {
      BytesKept(pool, limit, live, pool', limit', o, n - 1);
      ByteKept(pool, limit, live, pool', limit', o, o + n - 1);
      SliceGrows(pool', LiveBelow(pool, limit, live, o), pool, o, n);
    }
  }

  lemma SliceGrows(a: seq<byte>, i: nat, b: seq<byte>, j: nat, n: nat)
    requires n > 0 && i + n <= |a| && j + n <= |b|
    requires a[i..i + n - 1] == b[j..j + n - 1] && a[i + n - 1] == b[j + n - 1]
    ensures a[i..i + n] == b[j..j + n]
  {
    assert a[i..i + n] == a[i..i + n - 1] + [a[i + n - 1]];
    assert b[j..j + n] == b[j..j + n - 1] + [b[j + n - 1]];
  }

  lemma SlicesAgree(a: seq<byte>, i: nat, b: seq<byte>, j: nat, n: nat)
    requires i + n <= |a| && j + n <= |b|
    requires forall k :: i <= k < i + n ==> a[k] == b[k - i + j]
    ensures a[i..i + n] == b[j..j + n]
  {
  }

  lemma SliceByte(a: seq<byte>, i: nat, b: seq<byte>, j: nat, n: nat, k: nat)
    requires i + n <= |a| && j + n <= |b| && a[i..i + n] == b[j..j + n] && i <= k < i + n
    ensures a[k] == b[k - i + j]
  {
    assert a[i..i + n][k - i] == b[j..j + n][k - i];
  }

  /** A string that appears unchanged elsewhere ends at the corresponding place. */
  lemma EndOfCopy(pool: seq<byte>, limit: nat, o: nat, pool': seq<byte>, limit': nat, o': nat, n: nat)
    requires limit <= |pool| && limit' <= |pool'| && o < limit
    requires StrEnd(pool, limit, o) == o + n && o' + n <= limit'
    requires pool'[o'..o' + n] == pool[o..o + n]
    requires pool[o + n - 1] == 0 || o' + n == limit'
    ensures StrEnd(pool', limit', o') == o' + n
    ensures pool'[o' + n - 1] == pool[o + n - 1]
  {
    StrEndScan(pool, limit, o);
    forall k | o' <= k < o' + n
      ensures pool'[k] == pool[k - o' + o]
    {
      SliceByte(pool', o', pool, o, n, k);
    }
    StrEndUnique(pool', limit', o', o' + n);
  }

  lemma TextFromSpan(pool: seq<byte>, limit: nat, o: nat, span: seq<byte>)
    requires limit <= |pool| && o < limit && span == pool[o..StrEnd(pool, limit, o)]
    ensures Terminated(pool, limit, o) <==> span[|span| - 1] == 0
    ensures Text(pool, limit, o) == if span[|span| - 1] == 0 then span[..|span| - 1] else span
  {
    StrEndScan(pool, limit, o);
  }

  /** ... and reads the same. */
  lemma TextOfCopy(pool: seq<byte>, limit: nat, o: nat, pool': seq<byte>, limit': nat, o': nat, n: nat)
    requires limit <= |pool| && limit' <= |pool'| && o < limit
    requires StrEnd(pool, limit, o) == o + n && o' + n <= limit'
    requires pool'[o'..o' + n] == pool[o..o + n]
    requires pool[o + n - 1] == 0 || o' + n == limit'
    ensures StrEnd(pool', limit', o') == o' + n
    ensures Terminated(pool', limit', o') == Terminated(pool, limit, o)
    ensures Text(pool', limit', o') == Text(pool, limit, o)
  {
    EndOfCopy(pool, limit, o, pool', limit', o', n);
    TextFromSpan(pool, limit, o, pool[o..o + n]);
    TextFromSpan(pool', limit', o', pool'[o'..o' + n]);
  }

  /** Sliding a string keeps its length, its characters and its terminator; its end moves along,
      terminated or not. */
  lemma StringKept(pool: seq<byte>, limit: nat, live: set<nat>, pool': seq<byte>, limit': nat, o: nat)
    requires Compacted(pool, limit, live, pool', limit') && Disjoint(pool, limit, live)
    requires o in live && o < limit
    ensures LiveBelow(pool, limit, live, o) < limit'
    ensures StrEnd(pool', limit', LiveBelow(pool, limit, live, o))
         == LiveBelow(pool, limit, live, StrEnd(pool, limit, o))
    ensures Terminated(pool', limit', LiveBelow(pool, limit, live, o)) == Terminated(pool, limit, o)
    ensures Text(pool', limit', LiveBelow(pool, limit, live, o)) == Text(pool, limit, o)
  {
    var n := StrEnd(pool, limit, o) - o;
    WholeStringMoves(pool, limit, live, pool', limit', o, n);
    TextOfCopy(pool, limit, o, pool', limit', LiveBelow(pool, limit, live, o), n);
  }

  lemma WholeStringMoves(pool: seq<byte>, limit: nat, live: set<nat>, pool': seq<byte>, limit': nat, o: nat, n: nat)
    requires Compacted(pool, limit, live, pool', limit') && Disjoint(pool, limit, live)
    requires o in live && o < limit && StrEnd(pool, limit, o) == o + n
    ensures LiveBelow(pool, limit, live, o + n) == LiveBelow(pool, limit, live, o) + n <= limit'
    ensures pool'[LiveBelow(pool, limit, live, o)..LiveBelow(pool, limit, live, o) + n] == pool[o..o + n]
    ensures pool[o + n - 1] == 0 || LiveBelow(pool, limit, live, o) + n == limit'
  {
    BytesKept(pool, limit, live, pool', limit', o, n);
    LiveBelowInString(pool, limit, live, o, o + n);
    StrEndScan(pool, limit, o);
  }

  /** Appending to the pool leaves a terminated string alone. */
  lemma TextStable(pool: seq<byte>, limit: nat, pool': seq<byte>, limit': nat, o: nat)
    requires limit <= |pool| && limit' <= |pool'| && limit <= limit' && pool[..limit] == pool'[..limit]
    requires Terminated(pool, limit, o)
    ensures StrEnd(pool', limit', o) == StrEnd(pool, limit, o)
    ensures Terminated(pool', limit', o) && Text(pool', limit', o) == Text(pool, limit, o)
  {
    var n := StrEnd(pool, limit, o) - o;
    assert pool[o + n - 1] == 0;
    hide StrEnd, Terminated, Text;
    forall k | o <= k < o + n ensures pool'[k] == pool[k] {
      assert pool[..limit][k] == pool'[..limit][k];
    }
    assert pool'[o..o + n] == pool[o..o + n];
    TextOfCopy(pool, limit, o, pool', limit', o, n);
  }

  /** Different live strings stay different and in the same order. */
  lemma OrderKept(pool: seq<byte>, limit: nat, live: set<nat>, a: nat, b: nat)
    requires limit <= |pool| && Disjoint(pool, limit, live)
    requires a in live && b in live && a < b && a < limit
    ensures LiveBelow(pool, limit, live, a) < LiveBelow(pool, limit, live, b)
    ensures LiveBelow(pool, limit, live, StrEnd(pool, limit, a)) <= LiveBelow(pool, limit, live, b)
  {
    var e := StrEnd(pool, limit, a);
    LiveBelowInString(pool, limit, live, a, e);
    LiveBelowMonotone(pool, limit, live, e, b);
  }

  /** A live string below the limit ends, moved, where or before any later one begins. */
  lemma EndsBefore(pool: seq<byte>, limit: nat, live: set<nat>, pool': seq<byte>, limit': nat, a: nat, b: nat)
    requires Compacted(pool, limit, live, pool', limit') && Disjoint(pool, limit, live)
    requires a in live && b in live && a < limit
    requires LiveBelow(pool, limit, live, a) < LiveBelow(pool, limit, live, b)
    ensures StrEnd(pool', limit', LiveBelow(pool, limit, live, a)) <= LiveBelow(pool, limit, live, b)
  {
    hide Disjoint, StrEnd, LiveBelow;
    MovedOrder(pool, limit, live, a, b);
    StringKept(pool, limit, live, pool', limit', a);
    OrderKept(pool, limit, live, a, b);
  }

  /** A live offset behind the limit moves to the end of the compacted pool, and nothing moves further. */
  lemma MovedBehind(pool: seq<byte>, limit: nat, live: set<nat>, limit': nat, a: nat, b: nat)
    requires limit <= |pool| && limit' == LiveBelow(pool, limit, live, limit) && limit <= a
    requires LiveBelow(pool, limit, live, a) < LiveBelow(pool, limit, live, b)
    ensures limit' <= LiveBelow(pool, limit, live, b)
  {
    hide LiveBelow;
    MovedOrder(pool, limit, live, a, b);
    LiveBelowCapped(pool, limit, live, b);
  }

  lemma MovedOrder(pool: seq<byte>, limit: nat, live: set<nat>, a: nat, b: nat)
    requires limit <= |pool| && LiveBelow(pool, limit, live, a) < LiveBelow(pool, limit, live, b)
    ensures a < b
  {
    if b <= a {
      LiveBelowMonotone(pool, limit, live, b, a);
    }
  }

  /** The compacted strings do not overlap. */
  lemma DisjointKept(pool: seq<byte>, limit: nat, live: set<nat>, pool': seq<byte>, limit': nat)
    requires Compacted(pool, limit, live, pool', limit') && Disjoint(pool, limit, live)
    ensures Disjoint(pool', limit', Moved(pool, limit, live))
  {
    forall a', b' | a' in Moved(pool, limit, live) && b' in Moved(pool, limit, live) && a' < b'
      ensures StrEnd(pool', limit', a') <= b' || limit' <= b'
    {
      hide StrEnd, LiveBelow, Disjoint;
      var a :| a in live && a' == LiveBelow(pool, limit, live, a);
      var b :| b in live && b' == LiveBelow(pool, limit, live, b);
      if a < limit {
        EndsBefore(pool, limit, live, pool', limit', a, b);
      } else {
        MovedBehind(pool, limit, live, limit', a, b);
      }
    }
  }

  /** Perfect compaction: no dead byte is left in the used part of the pool. */
  lemma FullyCovered(pool: seq<byte>, limit: nat, live: set<nat>, pool': seq<byte>, limit': nat, k: nat)
    requires Compacted(pool, limit, live, pool', limit') && Disjoint(pool, limit, live)
    requires k < limit'
    ensures Covered(pool', limit', Moved(pool, limit, live), k)
  {
    var m := LiveBelowOnto(pool, limit, live, limit, k);
    var o :| o in live && o <= m < StrEnd(pool, limit, o);
    var o' := LiveBelow(pool, limit, live, o);
    StringKept(pool, limit, live, pool', limit', o);
    LiveBelowMonotone(pool, limit, live, o, m);
    LiveBelowMonotone(pool, limit, live, m, StrEnd(pool, limit, o));
    assert o' in Moved(pool, limit, live);
    assert o' <= k < StrEnd(pool', limit', o');
  }

  /** When every used byte is live, a compaction has nowhere to move anything. */
  lemma {:induction false} LiveBelowFull(pool: seq<byte>, limit: nat, live: set<nat>, k: nat)
    requires limit <= |pool| && k <= limit
    requires forall m :: 0 <= m < limit ==> Covered(pool, limit, live, m)
    ensures LiveBelow(pool, limit, live, k) == k
  {
    if k > 0 {
      LiveBelowFull(pool, limit, live, k - 1);
    }
  }

  /** Compacting twice is compacting once: the second pass moves no offset and changes no byte. */
  lemma Idempotent(pool: seq<byte>, limit: nat, live: set<nat>, pool': seq<byte>, limit': nat,
                   pool'': seq<byte>, limit'': nat)
    requires Compacted(pool, limit, live, pool', limit') && Disjoint(pool, limit, live)
    requires Compacted(pool', limit', Moved(pool, limit, live), pool'', limit'')
    ensures limit'' == limit' && pool'' == pool'
    ensures forall o :: o in Moved(pool, limit, live)
                        ==> LiveBelow(pool', limit', Moved(pool, limit, live), o) == o
  {
    var live' := Moved(pool, limit, live);
    forall m | 0 <= m < limit'
      ensures Covered(pool', limit', live', m)
    {
      FullyCovered(pool, limit, live, pool', limit', m);
    }
    forall k | 0 <= k <= limit'
      ensures LiveBelow(pool', limit', live', k) == k
    {
      LiveBelowFull(pool', limit', live', k);
    }
    forall o | o in live'
      ensures o <= limit'
    {
      var o0 :| o0 in live && o == LiveBelow(pool, limit, live, o0);
      LiveBelowCapped(pool, limit, live, o0);
    }
    forall k | 0 <= k < limit'
      ensures pool''[k] == pool'[k]
    {
      assert Lands(pool', limit', live', pool'', k);
    }
    SamePool(pool', pool'', limit');
  }

  lemma SamePool(a: seq<byte>, b: seq<byte>, n: nat)
    requires n <= |a| == |b| && b[n..] == a[n..]
    requires forall k :: 0 <= k < n ==> b[k] == a[k]
    ensures a == b
  {
    assert a == a[..n] + a[n..] && b == b[..n] + b[n..];
    assert a[..n] == b[..n];
  }

  /** Nothing at or above the used part of the pool is live. */
  lemma LiveBelowCapped(pool: seq<byte>, limit: nat, live: set<nat>, k: nat)
    requires limit <= |pool|
    ensures k >= limit ==> LiveBelow(pool, limit, live, k) == LiveBelow(pool, limit, live, limit)
    ensures LiveBelow(pool, limit, live, k) <= LiveBelow(pool, limit, live, limit)
  {
    if k >= limit {
      forall m: nat | limit <= m < k
        ensures !Covered(pool, limit, live, m)
      {
      }
      LiveBelowGap(pool, limit, live, limit, k);
    } else {
      LiveBelowMonotone(pool, limit, live, k, limit);
    }
  }

  /** Back to back from offset 0: the lowest live string lands at 0, and every other one lands
      exactly where the live string before it ends. */
  lemma BackToBack(pool: seq<byte>, limit: nat, live: set<nat>, o: nat)
    requires limit <= |pool| && Disjoint(pool, limit, live) && o in live && o < limit
    ensures (forall a :: a in live ==> o <= a) ==> LiveBelow(pool, limit, live, o) == 0
    ensures forall a :: a in live && a < o && (forall b :: b in live && b < o ==> b <= a)
                        ==> LiveBelow(pool, limit, live, o)
                            == LiveBelow(pool, limit, live, a) + (StrEnd(pool, limit, a) - a)
    ensures (forall b :: b in live ==> b <= o)
            ==> LiveBelow(pool, limit, live, limit)
                == LiveBelow(pool, limit, live, o) + (StrEnd(pool, limit, o) - o)
  {
    hide LiveBelow, StrEnd, Disjoint;
    if forall a :: a in live ==> o <= a {
      LowestAtZero(pool, limit, live, o);
    }
    forall a | a in live && a < o && (forall b :: b in live && b < o ==> b <= a)
      ensures LiveBelow(pool, limit, live, o)
              == LiveBelow(pool, limit, live, a) + (StrEnd(pool, limit, a) - a)
    {
      EndsBy(pool, limit, live, a, o);
      GapAfter(pool, limit, live, a, o);
    }
    if forall b :: b in live ==> b <= o {
      EndsInside(pool, limit, o);
      GapAfter(pool, limit, live, o, limit);
    }
  }

  lemma EndsBy(pool: seq<byte>, limit: nat, live: set<nat>, a: nat, o: nat)
    requires limit <= |pool| && Disjoint(pool, limit, live) && a in live && o in live && a < o < limit
    ensures StrEnd(pool, limit, a) <= o
  {
    hide StrEnd;
  }

  lemma EndsInside(pool: seq<byte>, limit: nat, o: nat)
    requires limit <= |pool| && o < limit
    ensures StrEnd(pool, limit, o) <= limit
  {
    hide StrEnd;
  }

  lemma LowestAtZero(pool: seq<byte>, limit: nat, live: set<nat>, o: nat)
    requires limit <= |pool| && forall a :: a in live ==> o <= a
    ensures LiveBelow(pool, limit, live, o) == 0
  {
    LiveBelowGap(pool, limit, live, 0, o);
  }

  lemma GapAfter(pool: seq<byte>, limit: nat, live: set<nat>, a: nat, top: nat)
    requires limit <= |pool| && Disjoint(pool, limit, live) && a in live && a < top <= limit
    requires StrEnd(pool, limit, a) <= top
    requires forall b :: b in live && b < top ==> b <= a
    ensures LiveBelow(pool, limit, live, top) == LiveBelow(pool, limit, live, a) + (StrEnd(pool, limit, a) - a)
  {
    var e := StrEnd(pool, limit, a);
    LiveBelowInString(pool, limit, live, a, e);
    forall k: nat | e <= k < top
      ensures !Covered(pool, limit, live, k)
    {
    }
    LiveBelowGap(pool, limit, live, e, top);
  }

  predicate Ascending(offsets: seq<nat>) {
    forall i, j :: 0 <= i < j < |offsets| ==> offsets[i] < offsets[j]
  }

  /** The lengths of the strings at these offsets, and one more for each terminator. */
  function TotalLength(pool: seq<byte>, limit: nat, offsets: seq<nat>): nat
    requires limit <= |pool|
  {
    if offsets == [] then 0
    else
      var n := |offsets| - 1;
      TotalLength(pool, limit, offsets[..n]) + |Text(pool, limit, offsets[n])| + 1
  }

  /** Up to the i-th of the live offsets, the live bytes are those of the strings before it. */
  lemma {:induction false} LiveBelowIsSum(pool: seq<byte>, limit: nat, live: set<nat>, offsets: seq<nat>, i: nat)
    requires limit <= |pool| && Disjoint(pool, limit, live) && i <= |offsets|
    requires Ascending(offsets) && (forall o :: o in offsets <==> o in live)
    requires forall o :: o in offsets ==> Terminated(pool, limit, o)
    ensures LiveBelow(pool, limit, live, if i < |offsets| then offsets[i] else limit)
         == TotalLength(pool, limit, offsets[..i])
  {
    hide LiveBelow, Covered, Disjoint, StrEnd, Text, Terminated;
    var top := if i < |offsets| then offsets[i] else limit;
    var end := if i == 0 then 0 else StrEnd(pool, limit, offsets[i - 1]);
    NoneBetween(pool, limit, live, offsets, i);
    LiveBelowGap(pool, limit, live, end, top);
    if i > 0 {
      var o := offsets[i - 1];
      assert o in offsets;
      LiveBelowIsSum(pool, limit, live, offsets, i - 1);
      TextLength(pool, limit, o);
      LiveBelowInString(pool, limit, live, o, end);
      assert offsets[..i][..i - 1] == offsets[..i - 1];
    } else {
      NoneBelowZero(pool, limit, live);
    }
  }

  lemma NoneBelowZero(pool: seq<byte>, limit: nat, live: set<nat>)
    requires limit <= |pool|
    ensures LiveBelow(pool, limit, live, 0) == 0
  {
  }

  lemma TextLength(pool: seq<byte>, limit: nat, o: nat)
    requires limit <= |pool| && Terminated(pool, limit, o)
    ensures |Text(pool, limit, o)| + 1 == StrEnd(pool, limit, o) - o
  {
  }

  /** Between the end of one string and the next offset nothing is live. */
  lemma NoneBetween(pool: seq<byte>, limit: nat, live: set<nat>, offsets: seq<nat>, i: nat)
    requires limit <= |pool| && Disjoint(pool, limit, live) && i <= |offsets|
    requires Ascending(offsets) && (forall o :: o in offsets <==> o in live)
    requires forall o :: o in offsets ==> Terminated(pool, limit, o)
    ensures var end := if i == 0 then 0 else StrEnd(pool, limit, offsets[i - 1]);
            var top := if i < |offsets| then offsets[i] else limit;
            end <= top && forall k :: end <= k < top ==> !Covered(pool, limit, live, k)
  {
    hide StrEnd;
    var end := if i == 0 then 0 else StrEnd(pool, limit, offsets[i - 1]);
    var top := if i < |offsets| then offsets[i] else limit;
    assert i > 0 ==> offsets[i - 1] in live && Terminated(pool, limit, offsets[i - 1]);
    assert i < |offsets| ==> offsets[i] in live && Terminated(pool, limit, offsets[i]);
    assert 0 < i < |offsets| ==> offsets[i - 1] < offsets[i];
    forall o | o in live ensures StrEnd(pool, limit, o) <= end || top <= o {
      var t :| 0 <= t < |offsets| && offsets[t] == o;
      assert Terminated(pool, limit, o);
      assert t < i - 1 ==> offsets[t] < offsets[i - 1];
      assert i < t ==> offsets[i] < offsets[t];
    }
  }

  lemma LiveBelowIsTotal(pool: seq<byte>, limit: nat, live: set<nat>, offsets: seq<nat>)
    requires limit <= |pool| && Disjoint(pool, limit, live)
    requires Ascending(offsets) && (forall o :: o in offsets <==> o in live)
    requires forall o :: o in offsets ==> Terminated(pool, limit, o)
    ensures LiveBelow(pool, limit, live, limit) == TotalLength(pool, limit, offsets)
  {
    LiveBelowIsSum(pool, limit, live, offsets, |offsets|);
    assert offsets[..|offsets|] == offsets;
  }
}
