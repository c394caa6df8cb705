/** The collector's relocation table: one entry per live handle, sorted by old offset. */
module Relocation {
  import opened Bytes
  import opened Compaction

  datatype RelocEntry = RelocEntry(oldOff: nat, newOff: nat)

  ghost predicate Sorted(rs: seq<RelocEntry>) {
    forall i, j :: 0 <= i < j < |rs| ==> rs[i].oldOff <= rs[j].oldOff
  }

  /** The old offsets in the table are exactly the offsets in `live`; they may repeat. */
  ghost predicate Lists(rs: seq<RelocEntry>, live: set<nat>) {
    && (forall t :: 0 <= t < |rs| ==> rs[t].oldOff in live)
    && (forall o :: o in live ==> exists t :: 0 <= t < |rs| && rs[t].oldOff == o)
  }

  lemma ListsPermuted(rs: seq<RelocEntry>, rs': seq<RelocEntry>, live: set<nat>)
    requires multiset(rs) == multiset(rs') && Lists(rs, live)
    ensures Lists(rs', live)
  {
    forall t | 0 <= t < |rs'|
      ensures rs'[t].oldOff in live
    {
      assert rs'[t] in multiset(rs');
      assert rs'[t] in rs;
    }
    forall o | o in live
      ensures exists t :: 0 <= t < |rs'| && rs'[t].oldOff == o
    {
      var t :| 0 <= t < |rs| && rs[t].oldOff == o;
      assert rs[t] in multiset(rs);
      assert rs[t] in rs';
    }
  }

  /** Where the strings of the first `i` entries end. */
  ghost function Front(pool: seq<byte>, limit: nat, rs: seq<RelocEntry>, i: nat): nat
    requires limit <= |pool| && i <= |rs|
  {
    if i == 0 then 0 else StrEnd(pool, limit, rs[i - 1].oldOff)
  }

  /** A live string ends within the part covered by the first `i` entries, or starts at a later one. */
  lemma EntryPlace(pool: seq<byte>, limit: nat, live: set<nat>, rs: seq<RelocEntry>, i: nat, o: nat)
    requires limit <= |pool| && Disjoint(pool, limit, live) && Lists(rs, live) && Sorted(rs) && i <= |rs|
    requires o in live
    ensures StrEnd(pool, limit, o) <= Front(pool, limit, rs, i) || (i < |rs| && rs[i].oldOff <= o)
  {
    var t :| 0 <= t < |rs| && rs[t].oldOff == o;
    if t < i {
      assert o <= rs[i - 1].oldOff && rs[i - 1].oldOff in live;
    }
  }

  /** Nothing is live between the strings of the first `i` entries and the next one. */
  lemma NothingBetween(pool: seq<byte>, limit: nat, live: set<nat>, rs: seq<RelocEntry>, i: nat, top: nat)
    requires limit <= |pool| && Disjoint(pool, limit, live) && Lists(rs, live) && Sorted(rs) && i <= |rs|
    requires i < |rs| ==> top == rs[i].oldOff
    ensures forall k: nat :: Front(pool, limit, rs, i) <= k < top ==> !Covered(pool, limit, live, k)
  {
    forall o | o in live
      ensures StrEnd(pool, limit, o) <= Front(pool, limit, rs, i) || (i < |rs| && top <= o)
    {
      EntryPlace(pool, limit, live, rs, i, o);
    }
  }

  /** The live bytes below `top` have reached their new places. */
  ghost predicate Settled(pool: seq<byte>, limit: nat, live: set<nat>, pool': seq<byte>, top: nat)
    requires limit <= |pool| == |pool'|
  {
    forall m: nat {:trigger Lands(pool, limit, live, pool', m)} ::
      m < limit && m < top && Covered(pool, limit, live, m) ==> Lands(pool, limit, live, pool', m)
  }

  lemma FrontBelowNext(pool: seq<byte>, limit: nat, live: set<nat>, rs: seq<RelocEntry>, i: nat)
    requires limit <= |pool| && Disjoint(pool, limit, live) && Lists(rs, live) && Sorted(rs) && i < |rs|
    requires i > 0 ==> rs[i - 1].oldOff != rs[i].oldOff
    ensures Front(pool, limit, rs, i) <= rs[i].oldOff
    ensures LiveBelow(pool, limit, live, rs[i].oldOff) == LiveBelow(pool, limit, live, Front(pool, limit, rs, i))
  {
    if i > 0 {
      assert rs[i - 1].oldOff in live && rs[i].oldOff in live;
    }
    NothingBetween(pool, limit, live, rs, i, rs[i].oldOff);
    LiveBelowGap(pool, limit, live, Front(pool, limit, rs, i), rs[i].oldOff);
  }

  lemma SettledGap(pool: seq<byte>, limit: nat, live: set<nat>, pool': seq<byte>, front: nat, top: nat)
    requires limit <= |pool| == |pool'| && Settled(pool, limit, live, pool', front)
    requires forall k: nat :: front <= k < top ==> !Covered(pool, limit, live, k)
    ensures Settled(pool, limit, live, pool', top)
  {
  }

  /** Copying one more string to the end of the settled part settles it and disturbs nothing. */
  lemma SettledString(pool: seq<byte>, limit: nat, live: set<nat>, mid: seq<byte>, pool': seq<byte>, o: nat, len: nat)
    requires limit <= |pool| == |mid| == |pool'| && Settled(pool, limit, live, mid, o)
    requires o in live && o < limit && StrEnd(pool, limit, o) == o + len
    requires pool'[..LiveBelow(pool, limit, live, o)] == mid[..LiveBelow(pool, limit, live, o)]
    requires pool'[LiveBelow(pool, limit, live, o)..LiveBelow(pool, limit, live, o) + len] == pool[o..o + len]
    ensures Settled(pool, limit, live, pool', o + len)
  {
    var o' := LiveBelow(pool, limit, live, o);
    forall m: nat | m < limit && m < o + len && Covered(pool, limit, live, m)
      ensures Lands(pool, limit, live, pool', m)
    {
      if m < o {
        assert Lands(pool, limit, live, mid, m);
        LiveBelowMonotone(pool, limit, live, m, o);
        SliceByte(pool', 0, mid, 0, o', LiveBelow(pool, limit, live, m));
      } else {
        LiveBelowInString(pool, limit, live, o, m);
        SliceByte(pool', o', pool, o, len, o' + (m - o));
      }
    }
  }

  lemma SameEnd(a: seq<byte>, b: seq<byte>, i: nat, j: nat)
    requires i <= j <= |a| && |a| == |b| && a[i..] == b[i..]
    ensures a[j..] == b[j..]
  {
    assert a[j..] == a[i..][j - i..] && b[j..] == b[i..][j - i..];
  }

  /** Where a string ends depends on the bytes from its start on only. */
  lemma EndFromTail(a: seq<byte>, b: seq<byte>, limit: nat, o: nat)
    requires limit <= |a| == |b| && o < limit && a[o..] == b[o..]
    ensures StrEnd(a, limit, o) == StrEnd(b, limit, o)
  {
    StrEndScan(b, limit, o);
    var e := StrEnd(b, limit, o);
    forall k | o <= k < |a|
      ensures a[k] == b[k]
    {
      assert a[o..][k - o] == b[o..][k - o];
    }
    StrEndUnique(a, limit, o, e);
  }

  /** While the pool from `i` on is original, so is a string starting at or after `i`. */
  lemma StillThere(a: seq<byte>, b: seq<byte>, limit: nat, i: nat, o: nat)
    requires i <= o < limit <= |a| == |b| && a[i..] == b[i..]
    ensures StrEnd(a, limit, o) == StrEnd(b, limit, o)
    ensures a[o..StrEnd(b, limit, o)] == b[o..StrEnd(b, limit, o)]
  {
    SameEnd(a, b, i, o);
    EndFromTail(a, b, limit, o);
    var n := StrEnd(b, limit, o) - o;
    assert a[o..o + n] == a[o..][..n] && b[o..o + n] == b[o..][..n];
  }

  lemma AllSettled(pool: seq<byte>, limit: nat, live: set<nat>, pool': seq<byte>, rs: seq<RelocEntry>)
    requires limit <= |pool| == |pool'| && Disjoint(pool, limit, live) && Lists(rs, live) && Sorted(rs)
    requires Settled(pool, limit, live, pool', Front(pool, limit, rs, |rs|))
    ensures Settled(pool, limit, live, pool', limit)
    ensures LiveBelow(pool, limit, live, Front(pool, limit, rs, |rs|)) == LiveBelow(pool, limit, live, limit)
  {
    var front := Front(pool, limit, rs, |rs|);
    NothingBetween(pool, limit, live, rs, |rs|, limit);
    if front <= limit {
      LiveBelowGap(pool, limit, live, front, limit);
    } else {
      LiveBelowCapped(pool, limit, live, front);
    }
  }

  /** Insertion sort by old offset. */
  method SortByOldOffset(relocs: array<RelocEntry>, n: nat)
    requires n <= relocs.Length
    modifies relocs
    ensures Sorted(relocs[..n])
    ensures multiset(relocs[..n]) == old(multiset(relocs[..n]))
  {
    var i := 1;
    while i < n
      invariant 1 <= i
      invariant i <= n ==> Sorted(relocs[..i])
      invariant n < i ==> n == 0
      invariant multiset(relocs[..n]) == old(multiset(relocs[..n]))
    {
      ghost var before := relocs[..];
      SinkLast(relocs, i);
      SplitAt(before, relocs[..], i + 1, n);
      i := i + 1;
    }
  }

  lemma SplitAt(a: seq<RelocEntry>, b: seq<RelocEntry>, i: nat, n: nat)
    requires i <= n <= |a| == |b| && a[i..] == b[i..]
    requires multiset(a[..i]) == multiset(b[..i])
    ensures multiset(a[..n]) == multiset(b[..n])
  {
    assert a[..n] == a[..i] + a[i..][..n - i];
    assert b[..n] == b[..i] + b[i..][..n - i];
  }

  /** One round of the sort: entry `i` moves down past every larger one. */
  method SinkLast(relocs: array<RelocEntry>, i: nat)
    requires 0 < i < relocs.Length && Sorted(relocs[..i])
    modifies relocs
    ensures Sorted(relocs[..i + 1])
    ensures multiset(relocs[..i + 1]) == old(multiset(relocs[..i + 1]))
    ensures relocs[i + 1..] == old(relocs[i + 1..])
  {
    ghost var r0 := relocs[..];
    var tmp := relocs[i];
    var j := i;
    while j > 0 && relocs[j - 1].oldOff > tmp.oldOff
      invariant 0 <= j <= i
      invariant forall k :: 0 <= k < j ==> relocs[k] == r0[k]
      invariant forall k :: j < k <= i ==> relocs[k] == r0[k - 1]
      invariant forall k :: i < k < relocs.Length ==> relocs[k] == r0[k]
      invariant j < i ==> r0[j].oldOff > tmp.oldOff
    {
      relocs[j] := relocs[j - 1];
      j := j - 1;
    }
    relocs[j] := tmp;
    assert relocs[i + 1..] == r0[i + 1..];
    assert relocs[..i + 1] == r0[..i][..j] + [tmp] + r0[..i][j..];
    assert r0[..i + 1] == r0[..i] + [tmp];
    InsertedSorted(r0[..i], j, tmp);
    InsertedPermutes(r0[..i], j, tmp);
  }

  lemma InsertedSorted(rs: seq<RelocEntry>, j: nat, e: RelocEntry)
    requires Sorted(rs) && j <= |rs|
    requires j > 0 ==> rs[j - 1].oldOff <= e.oldOff
    requires j < |rs| ==> rs[j].oldOff > e.oldOff
    ensures Sorted(rs[..j] + [e] + rs[j..])
  {
    var rs' := rs[..j] + [e] + rs[j..];
    forall a, b | 0 <= a < b < |rs'|
      ensures rs'[a].oldOff <= rs'[b].oldOff
    {
      if a != j && b != j {
        assert rs'[a] == rs[if a < j then a else a - 1] && rs'[b] == rs[if b < j then b else b - 1];
      }
    }
  }

  lemma InsertedPermutes(rs: seq<RelocEntry>, j: nat, e: RelocEntry)
    requires j <= |rs|
    ensures multiset(rs[..j] + [e] + rs[j..]) == multiset(rs + [e])
  {
    assert rs == rs[..j] + rs[j..];
  }

  /** The first entry whose old offset is at least `off`. */
  method LowerBound(relocs: array<RelocEntry>, n: nat, off: nat) returns (lo: nat)
    requires n <= relocs.Length && Sorted(relocs[..n])
    ensures lo <= n
    ensures forall t :: 0 <= t < lo ==> relocs[t].oldOff < off
    ensures forall t :: lo <= t < n ==> off <= relocs[t].oldOff
  {
    lo := 0;
    var hi := n;
    while lo < hi
      invariant lo <= hi <= n
      invariant forall t :: 0 <= t < lo ==> relocs[t].oldOff < off
      invariant forall t :: hi <= t < n ==> off <= relocs[t].oldOff
    {
      var mid := lo + (hi - lo) / 2;
      assert relocs[..n][mid] == relocs[mid];
      assert forall t :: 0 <= t < n ==> relocs[..n][t] == relocs[t];
      if relocs[mid].oldOff < off {
        lo := mid + 1;
      } else {
        hi := mid;
      }
    }
  }

  /** Length of the C string at `from`.  The scan stops at the end of the pool. */
  method CStrLen(pool: array<byte>, from: nat, ghost limit: nat) returns (n: nat)
    requires from < limit <= pool.Length
    ensures from + n <= pool.Length
    ensures StrEnd(pool[..], limit, from) == if from + n + 1 > limit then limit else from + n + 1
  {
    n := 0;
    while from + n < pool.Length && pool[from + n] != 0
      invariant from + n <= pool.Length
      invariant forall k :: from <= k < from + n ==> pool[k] != 0
    {
      n := n + 1;
    }
    StrEndUnique(pool[..], limit, from, if from + n + 1 > limit then limit else from + n + 1);
  }

  /** How many bytes to move for the string at `from`: its characters and its NUL, clamped so that
      nothing beyond the used pool is read. */
  method StringSpan(pool: array<byte>, limit: nat, from: nat) returns (len: nat)
    requires from < limit <= pool.Length
    ensures from + len == StrEnd(pool[..], limit, from)
  {
    len := CStrLen(pool, from, limit);
    len := len + 1;
    if from + len > limit {
      len := limit - from;
    }
  }

  method MemMove(a: array<byte>, dst: nat, src: nat, len: nat)
    requires dst + len <= a.Length && src + len <= a.Length
    modifies a
    ensures a[..dst] == old(a[..dst])
    ensures a[dst..dst + len] == old(a[src..src + len])
    ensures a[dst + len..] == old(a[dst + len..])
  {
    ghost var before := a[..];
    forall k | 0 <= k < len {
      a[dst + k] := a[src + k];
    }
    ghost var moved, were := a[dst..dst + len], before[src..src + len];
    assert forall k :: 0 <= k < len ==> moved[k] == were[k];
  }

  /** Slide one string down to `newOffset`; returns the offset just past its new place. */
  method SlideOne(pool: array<byte>, limit: nat, oldOff: nat, newOffset: nat, ghost p: seq<byte>, ghost live: set<nat>)
    returns (next: nat)
    requires limit <= pool.Length == |p| && oldOff in live && oldOff < limit
    requires newOffset == LiveBelow(p, limit, live, oldOff) && pool[newOffset..] == p[newOffset..]
    requires Settled(p, limit, live, pool[..], oldOff)
    modifies pool
    ensures next == LiveBelow(p, limit, live, StrEnd(p, limit, oldOff)) <= limit
    ensures pool[next..] == p[next..]
    ensures Settled(p, limit, live, pool[..], StrEnd(p, limit, oldOff))
  {
    ghost var q := pool[..];
    StillThere(q, p, limit, newOffset, oldOff);
    var len := StringSpan(pool, limit, oldOff);
    next := newOffset + len;
    SameEnd(q, p, newOffset, next);
    if oldOff != newOffset {
      MemMove(pool, newOffset, oldOff, len);
    }
    assert pool[newOffset..next] == p[oldOff..oldOff + len] && pool[..newOffset] == q[..newOffset];
    SettledString(p, limit, live, q, pool[..], oldOff, len);
    LiveBelowInString(p, limit, live, oldOff, oldOff + len);
  }

  /** The first `i` entries know their new offsets. */
  ghost predicate Filled(p: seq<byte>, limit: nat, live: set<nat>, rs: seq<RelocEntry>, i: nat, cur: seq<RelocEntry>)
    requires limit <= |p|
  {
    && |cur| == |rs| && i <= |rs|
    && (forall t :: 0 <= t < |rs| ==> cur[t].oldOff == rs[t].oldOff)
    && (forall t :: 0 <= t < i ==> cur[t].newOff == LiveBelow(p, limit, live, cur[t].oldOff))
  }

  /** Filling in the new offsets keeps the order and the old offsets. */
  lemma FilledKeeps(p: seq<byte>, limit: nat, live: set<nat>, rs: seq<RelocEntry>, cur: seq<RelocEntry>)
    requires limit <= |p| && Filled(p, limit, live, rs, |rs|, cur) && Sorted(rs) && Lists(rs, live)
    ensures Sorted(cur) && Lists(cur, live)
  {
    forall o | o in live
      ensures exists t :: 0 <= t < |cur| && cur[t].oldOff == o
    {
      var t :| 0 <= t < |rs| && rs[t].oldOff == o;
      assert cur[t].oldOff == o;
    }
  }

  lemma FilledAt(p: seq<byte>, limit: nat, live: set<nat>, rs: seq<RelocEntry>, i: nat, cur: seq<RelocEntry>)
    requires limit <= |p| && Filled(p, limit, live, rs, i, cur) && i < |rs| && Lists(rs, live)
    ensures rs[i].oldOff in live
    ensures |cur| == |rs| && cur[i].oldOff == rs[i].oldOff
    ensures i > 0 ==> cur[i - 1] == RelocEntry(rs[i - 1].oldOff, LiveBelow(p, limit, live, rs[i - 1].oldOff))
  {
  }

  lemma FilledNext(p: seq<byte>, limit: nat, live: set<nat>, rs: seq<RelocEntry>, i: nat,
                   cur: seq<RelocEntry>, next: seq<RelocEntry>)
    requires limit <= |p| && Filled(p, limit, live, rs, i, cur) && i < |rs|
    requires next == cur[i := RelocEntry(rs[i].oldOff, LiveBelow(p, limit, live, rs[i].oldOff))]
    ensures Filled(p, limit, live, rs, i + 1, next)
  {
  }

  /** The strings of the first `i` entries are in place and end at `newOffset`; the pool from there
      on is still the original one. */
  ghost predicate Progress(p: seq<byte>, limit: nat, live: set<nat>, rs: seq<RelocEntry>, i: nat,
                           pool: seq<byte>, newOffset: nat)
    requires limit <= |p| == |pool| && i <= |rs|
  {
    && newOffset == LiveBelow(p, limit, live, Front(p, limit, rs, i))
    && newOffset <= limit
    && pool[newOffset..] == p[newOffset..]
    && Settled(p, limit, live, pool, Front(p, limit, rs, i))
  }

  lemma SlideBegins(p: seq<byte>, limit: nat, live: set<nat>, rs: seq<RelocEntry>)
    requires limit <= |p|
    ensures Filled(p, limit, live, rs, 0, rs) && Progress(p, limit, live, rs, 0, p, 0)
  {
  }

  lemma ProgressToNext(p: seq<byte>, limit: nat, live: set<nat>, rs: seq<RelocEntry>, i: nat,
                       pool: seq<byte>, newOffset: nat)
    requires limit <= |p| == |pool| && i < |rs| && Progress(p, limit, live, rs, i, pool, newOffset)
    requires Disjoint(p, limit, live) && Lists(rs, live) && Sorted(rs)
    requires i > 0 ==> rs[i - 1].oldOff != rs[i].oldOff
    ensures newOffset == LiveBelow(p, limit, live, rs[i].oldOff) <= limit
    ensures pool[newOffset..] == p[newOffset..] && Settled(p, limit, live, pool, rs[i].oldOff)
  {
    FrontBelowNext(p, limit, live, rs, i);
    NothingBetween(p, limit, live, rs, i, rs[i].oldOff);
    SettledGap(p, limit, live, pool, Front(p, limit, rs, i), rs[i].oldOff);
  }

  lemma ProgressAfter(p: seq<byte>, limit: nat, live: set<nat>, rs: seq<RelocEntry>, i: nat,
                      pool: seq<byte>, newOffset: nat)
    requires limit <= |p| == |pool| && i < |rs| && newOffset <= limit && pool[newOffset..] == p[newOffset..]
    requires newOffset == LiveBelow(p, limit, live, StrEnd(p, limit, rs[i].oldOff))
    requires Settled(p, limit, live, pool, StrEnd(p, limit, rs[i].oldOff))
    ensures Progress(p, limit, live, rs, i + 1, pool, newOffset)
  {
  }

  /** An entry for the same string as the one before it moves nothing. */
  lemma ProgressAgain(p: seq<byte>, limit: nat, live: set<nat>, rs: seq<RelocEntry>, i: nat,
                      pool: seq<byte>, newOffset: nat)
    requires limit <= |p| == |pool| && 0 < i < |rs| && rs[i - 1].oldOff == rs[i].oldOff
    requires Progress(p, limit, live, rs, i, pool, newOffset)
    ensures Progress(p, limit, live, rs, i + 1, pool, newOffset)
  {
  }

  lemma ProgressDone(p: seq<byte>, limit: nat, live: set<nat>, rs: seq<RelocEntry>, pool: seq<byte>, newOffset: nat)
    requires limit <= |p| == |pool| && Progress(p, limit, live, rs, |rs|, pool, newOffset)
    requires Disjoint(p, limit, live) && Lists(rs, live) && Sorted(rs)
    ensures Compacted(p, limit, live, pool, newOffset)
  {
    AllSettled(p, limit, live, pool, rs);
  }

  /** Slide the strings listed in the table to the bottom of the pool and fill in their new offsets.
      Offsets at or above `limit` are stale and take no room. */
  method SlideDown(pool: array<byte>, limit: nat, relocs: array<RelocEntry>, n: nat, ghost live: set<nat>)
    returns (newOffset: nat)
    requires limit <= pool.Length && n <= relocs.Length
    requires Disjoint(pool[..], limit, live) && Lists(relocs[..n], live) && Sorted(relocs[..n])
    modifies pool, relocs
    ensures Compacted(old(pool[..]), limit, live, pool[..], newOffset)
    ensures Filled(old(pool[..]), limit, live, old(relocs[..n]), n, relocs[..n])
    ensures Sorted(relocs[..n]) && Lists(relocs[..n], live)
  {
    hide Filled, Progress, Disjoint, Lists, Sorted, Settled, Compacted, LiveBelow;
    ghost var p, rs := pool[..], relocs[..n];
    newOffset := 0;
    var i := 0;
    SlideBegins(p, limit, live, rs);
    while i < n
      invariant 0 <= i <= n
      invariant Filled(p, limit, live, rs, i, relocs[..n])
      invariant Progress(p, limit, live, rs, i, pool[..], newOffset)
    {
      ghost var before := relocs[..n];
      FilledAt(p, limit, live, rs, i, before);
      var oldOff := relocs[i].oldOff;
      if i > 0 && relocs[i - 1].oldOff == oldOff {
        relocs[i] := relocs[i].(newOff := relocs[i - 1].newOff);
        ProgressAgain(p, limit, live, rs, i, pool[..], newOffset);
      } else {
        ProgressToNext(p, limit, live, rs, i, pool[..], newOffset);
        relocs[i] := relocs[i].(newOff := newOffset);
        // A stale offset, beyond the used pool, takes no room.
        if oldOff < limit {
          newOffset := SlideOne(pool, limit, oldOff, newOffset, p, live);
        }
        ProgressAfter(p, limit, live, rs, i, pool[..], newOffset);
      }
      FilledNext(p, limit, live, rs, i, before, relocs[..n]);
      i := i + 1;
    }
    ProgressDone(p, limit, live, rs, pool[..], newOffset);
    FilledKeeps(p, limit, live, rs, relocs[..n]);
  }
}
