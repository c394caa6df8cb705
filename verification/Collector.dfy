/** The mark-compact collector of the string pool. */
module Collector {
  import opened Options
  import opened Bytes
  import opened Compaction
  import opened Relocation
  import opened StringHeap
  import opened Roots
  import opened LiveBits

  const MAX_STRING_POOL_MARKS: nat := 4096

  /** The handle table after a collection that keeps `kept`, seen from outside the free list. */
  ghost predicate CollectedTable(pool: seq<byte>, used: nat, objects: ObjectTable, kept: set<ObjId>,
                                 objects': ObjectTable)
    requires used <= |pool|
  {
    && |objects'| == |objects|
    && (forall h: ObjId :: IsActive(objects', h) <==> h in kept && IsActive(objects, h))
    && (forall h: ObjId :: IsActive(objects', h) ==>
          objects'[h].poolOffset == LiveBelow(pool, used, OffsetsOf(objects, kept), objects[h].poolOffset))
  }

  /** A collection: the pool is compacted around the kept strings and the table follows. */
  ghost predicate Collected(pool: seq<byte>, used: nat, objects: ObjectTable, kept: set<ObjId>,
                            pool': seq<byte>, used': nat, objects': ObjectTable)
  {
    && Compacted(pool, used, OffsetsOf(objects, kept), pool', used')
    && CollectedTable(pool, used, objects, kept, objects')
  }

  lemma FewerOffsets(pool: seq<byte>, used: nat, objects: ObjectTable, kept: set<ObjId>)
    requires used <= |pool| && NoOverlap(pool, used, objects)
    ensures Disjoint(pool, used, OffsetsOf(objects, kept))
  {
    assert OffsetsOf(objects, kept) <= OffsetsOf(objects, ActiveHandles(objects));
  }

  lemma OffsetsMove(pool: seq<byte>, used: nat, objects: ObjectTable, kept: set<ObjId>,
                    pool': seq<byte>, used': nat, objects': ObjectTable)
    requires Collected(pool, used, objects, kept, pool', used', objects')
    ensures OffsetsOf(objects', ActiveHandles(objects')) == Moved(pool, used, OffsetsOf(objects, kept))
    ensures OffsetsOf(objects', kept) == Moved(pool, used, OffsetsOf(objects, kept))
  {
    var live := OffsetsOf(objects, kept);
    forall o' | o' in Moved(pool, used, live)
      ensures o' in OffsetsOf(objects', ActiveHandles(objects')) && o' in OffsetsOf(objects', kept)
    {
      var o :| o in live && o' == LiveBelow(pool, used, live, o);
      var h :| h in kept && IsActive(objects, h) && objects[h].poolOffset == o;
      assert IsActive(objects', h);
    }
    forall h: ObjId | IsActive(objects', h)
      ensures objects'[h].poolOffset in Moved(pool, used, live)
    {
      assert objects[h].poolOffset in live;
    }
  }

  /** A collection is invisible: a kept handle dereferences to the same string as before, whoever
      shares its offset; every other handle dereferences to nothing; the heap invariant survives. */
  lemma CollectionInvisible(pool: seq<byte>, used: nat, objects: ObjectTable, kept: set<ObjId>,
                            pool': seq<byte>, used': nat, objects': ObjectTable)
    requires used <= |pool| && AllTerminated(pool, used, objects) && NoOverlap(pool, used, objects)
    requires Collected(pool, used, objects, kept, pool', used', objects')
    ensures AllTerminated(pool', used', objects') && NoOverlap(pool', used', objects')
    ensures forall h: ObjId :: Deref(pool', used', objects', h)
                               == if h in kept then Deref(pool, used, objects, h) else None
  {
    var live := OffsetsOf(objects, kept);
    FewerOffsets(pool, used, objects, kept);
    forall h: ObjId | IsActive(objects', h)
      ensures Terminated(pool', used', objects'[h].poolOffset)
      ensures Text(pool', used', objects'[h].poolOffset) == Text(pool, used, objects[h].poolOffset)
    {
      assert objects[h].poolOffset in live;
      StringKept(pool, used, live, pool', used', objects[h].poolOffset);
    }
    DisjointKept(pool, used, live, pool', used');
    OffsetsMove(pool, used, objects, kept, pool', used', objects');
  }

  /** A second collection that keeps the same handles moves no string and changes no byte. */
  lemma SecondCollectionIdle(pool: seq<byte>, used: nat, objects: ObjectTable, kept: set<ObjId>,
                             pool': seq<byte>, used': nat, objects': ObjectTable,
                             pool'': seq<byte>, used'': nat, objects'': ObjectTable)
    requires used <= |pool| && NoOverlap(pool, used, objects)
    requires Collected(pool, used, objects, kept, pool', used', objects')
    requires Collected(pool', used', objects', kept, pool'', used'', objects'')
    ensures pool'' == pool' && used'' == used'
    ensures forall h: ObjId :: IsActive(objects'', h) <==> IsActive(objects', h)
    ensures forall h: ObjId :: IsActive(objects'', h) ==> objects''[h].poolOffset == objects'[h].poolOffset
  {
    var live := OffsetsOf(objects, kept);
    FewerOffsets(pool, used, objects, kept);
    OffsetsMove(pool, used, objects, kept, pool', used', objects');
    Idempotent(pool, used, live, pool', used', pool'', used'');
    forall h: ObjId | IsActive(objects'', h)
      ensures objects''[h].poolOffset == objects'[h].poolOffset
    {
      assert objects'[h].poolOffset in OffsetsOf(objects', kept);
    }
  }

  /** A collection leaves the kept handles of the same roots kept, so a second one finds nothing to do. */
  lemma CollectingAgain(pool: seq<byte>, used: nat, objects: ObjectTable, r: RootTables,
                        pool': seq<byte>, used': nat, objects': ObjectTable,
                        pool'': seq<byte>, used'': nat, objects'': ObjectTable)
    requires used <= |pool| && NoOverlap(pool, used, objects)
    requires Collected(pool, used, objects, Kept(objects, r), pool', used', objects')
    requires Collected(pool', used', objects', Kept(objects', r), pool'', used'', objects'')
    ensures Kept(objects', r) == Kept(objects, r) == ActiveHandles(objects')
    ensures pool'' == pool' && used'' == used'
    ensures forall h: ObjId :: IsActive(objects'', h) <==> IsActive(objects', h)
    ensures forall h: ObjId :: IsActive(objects'', h) ==> objects''[h].poolOffset == objects'[h].poolOffset
  {
    hide RootHandles;
    assert forall h: ObjId :: h in Kept(objects', r) <==> h in Kept(objects, r);
    assert Kept(objects', r) == Kept(objects, r);
    SecondCollectionIdle(pool, used, objects, Kept(objects, r), pool', used', objects', pool'', used'', objects'');
  }

  /** The pool shrinks to exactly the kept strings, each with its terminator. */
  lemma UsedIsSum(pool: seq<byte>, used: nat, objects: ObjectTable, kept: set<ObjId>,
                  pool': seq<byte>, used': nat, objects': ObjectTable, offsets: seq<nat>)
    requires used <= |pool| && AllTerminated(pool, used, objects) && NoOverlap(pool, used, objects)
    requires Collected(pool, used, objects, kept, pool', used', objects')
    requires Ascending(offsets) && forall o :: o in offsets <==> o in OffsetsOf(objects, kept)
    ensures used' == TotalLength(pool, used, offsets)
  {
    FewerOffsets(pool, used, objects, kept);
    forall o | o in offsets ensures Terminated(pool, used, o) {
      assert o in OffsetsOf(objects, kept);
    }
    LiveBelowIsTotal(pool, used, OffsetsOf(objects, kept), offsets);
  }

  /** The free list after freeing the handles below `n` that are active but not kept: every freed
      slot goes to the front, in ascending order. */
  ghost function FreedBelow(objects: ObjectTable, kept: set<ObjId>, n: nat, slots: seq<ObjId>): seq<ObjId>
    requires n <= |objects|
  {
    if n == 0 then slots
    else if objects[n - 1].active && (n - 1) !in kept then [n - 1] + FreedBelow(objects, kept, n - 1, slots)
    else FreedBelow(objects, kept, n - 1, slots)
  }

  ghost function Freed(objects: ObjectTable, kept: set<ObjId>, slots: seq<ObjId>): seq<ObjId> {
    FreedBelow(objects, kept, |objects|, slots)
  }

  lemma {:induction false} FreedMembers(objects: ObjectTable, kept: set<ObjId>, n: nat, slots: seq<ObjId>)
    requires n <= |objects|
    ensures forall h: ObjId :: h in FreedBelow(objects, kept, n, slots)
                               <==> h in slots || (h < n && IsActive(objects, h) && h !in kept)
  {
    if n > 0 {
      FreedMembers(objects, kept, n - 1, slots);
    }
  }

  predicate Descending(hs: seq<ObjId>) {
    forall i, j :: 0 <= i < j < |hs| ==> hs[j] < hs[i]
  }

  /** The slots given up stand before the old free list, the highest handle first. */
  lemma {:induction false} FreedOrder(objects: ObjectTable, kept: set<ObjId>, n: nat, slots: seq<ObjId>)
    returns (given: seq<ObjId>)
    requires n <= |objects|
    ensures FreedBelow(objects, kept, n, slots) == given + slots && Descending(given)
    ensures forall i :: 0 <= i < |given| ==> given[i] < n && objects[given[i]].active && given[i] !in kept
    ensures forall h: ObjId :: h < n && objects[h].active && h !in kept ==> h in given
  {
    given := [];
    if n > 0 {
      var before := FreedOrder(objects, kept, n - 1, slots);
      given := before;
      if objects[n - 1].active && (n - 1) !in kept {
        given := [n - 1] + before;
        assert forall h: ObjId :: h in before ==> h in given;
        assert given[0] == n - 1;
      }
    }
  }

  ghost predicate FreedUpTo(objects: ObjectTable, kept: set<ObjId>, n: nat, objects': ObjectTable) {
    && |objects'| == |objects|
    && (forall h :: 0 <= h < |objects| ==>
          if h < n && objects[h].active && h !in kept then !objects'[h].active else objects'[h] == objects[h])
  }

  lemma FreedNext(objects: ObjectTable, kept: set<ObjId>, n: nat, slots: seq<ObjId>, cur: ObjectTable,
                  next: ObjectTable)
    requires n < |objects| && FreedUpTo(objects, kept, n, cur) && |next| == |cur|
    requires if objects[n].active && n !in kept then !next[n].active && next == cur[n := next[n]] else next == cur
    ensures FreedUpTo(objects, kept, n + 1, next)
    ensures cur[n] == objects[n]
    ensures FreedBelow(objects, kept, n + 1, slots)
            == if cur[n].active && n !in kept then [n] + FreedBelow(objects, kept, n, slots)
               else FreedBelow(objects, kept, n, slots)
  {
  }

  /** An entry once the offsets have been patched. */
  ghost function Patched(pool: seq<byte>, used: nat, live: set<nat>, e: ObjectEntry): ObjectEntry
    requires used <= |pool|
  {
    if e.active && e.poolOffset in live then e.(poolOffset := LiveBelow(pool, used, live, e.poolOffset)) else e
  }

  ghost predicate PatchedBelow(pool: seq<byte>, used: nat, live: set<nat>, objects: ObjectTable, n: nat,
                               objects': ObjectTable)
    requires used <= |pool|
  {
    && |objects'| == |objects|
    && (forall h :: 0 <= h < |objects| ==>
          objects'[h] == if h < n then Patched(pool, used, live, objects[h]) else objects[h])
  }

  lemma PatchNext(pool: seq<byte>, used: nat, live: set<nat>, objects: ObjectTable, n: nat,
                  cur: ObjectTable, next: ObjectTable)
    requires used <= |pool| && n < |objects| && PatchedBelow(pool, used, live, objects, n, cur)
    requires next == cur[n := Patched(pool, used, live, cur[n])]
    ensures PatchedBelow(pool, used, live, objects, n + 1, next)
  {
  }

  ghost predicate ReleasedBelow(objects: ObjectTable, n: nat, objects': ObjectTable) {
    && |objects'| == |objects|
    && (forall h :: 0 <= h < |objects| ==>
          objects'[h] == if h < n then objects[h].(active := false) else objects[h])
  }

  /** Patching the offsets and freeing the rest produces the table of a collection. */
  lemma TableCollected(pool: seq<byte>, used: nat, objects: ObjectTable, kept: set<ObjId>,
                       patched: ObjectTable, objects': ObjectTable)
    requires used <= |pool|
    requires PatchedBelow(pool, used, OffsetsOf(objects, kept), objects, |objects|, patched)
    requires FreedUpTo(patched, kept, |objects|, objects')
    ensures CollectedTable(pool, used, objects, kept, objects')
    ensures forall slots :: Freed(patched, kept, slots) == Freed(objects, kept, slots)
  {
    forall h: ObjId | h < |objects|
      ensures IsActive(objects', h) <==> h in kept && IsActive(objects, h)
      ensures IsActive(objects', h) ==>
                objects'[h].poolOffset == LiveBelow(pool, used, OffsetsOf(objects, kept), objects[h].poolOffset)
    {
      if h in kept && IsActive(objects, h) {
        assert objects[h].poolOffset in OffsetsOf(objects, kept);
      }
    }
    forall slots
      ensures Freed(patched, kept, slots) == Freed(objects, kept, slots)
    {
      SameFreed(objects, patched, kept, |objects|, slots);
    }
  }

  lemma {:induction false} SameFreed(objects: ObjectTable, objects': ObjectTable, kept: set<ObjId>, n: nat,
                                     slots: seq<ObjId>)
    requires n <= |objects| == |objects'|
    requires forall h :: 0 <= h < |objects| ==> objects'[h].active == objects[h].active
    ensures FreedBelow(objects', kept, n, slots) == FreedBelow(objects, kept, n, slots)
  {
    if n > 0 {
      SameFreed(objects, objects', kept, n - 1, slots);
    }
  }

  /** After a collection that keeps something, every slot is in use or on the free list. */
  lemma SlotsConserved(objects: ObjectTable, count: nat, slots: seq<ObjId>, kept: set<ObjId>, objects': ObjectTable)
    requires Partitioned(objects, count, slots) && count < |objects|
    requires forall h: ObjId :: IsActive(objects', h) <==> h in kept && IsActive(objects, h)
    ensures Partitioned(objects', count, Freed(objects, kept, slots))
  {
    FreedMembers(objects, kept, |objects|, slots);
  }

  /** Without active handles there is nothing to dereference and nothing to get wrong. */
  lemma NothingLeft(pool: seq<byte>, objects: ObjectTable)
    requires ActiveHandles(objects) == {}
    ensures AllTerminated(pool, 0, objects) && NoOverlap(pool, 0, objects)
    ensures forall h: ObjId :: Deref(pool, 0, objects, h) == None
  {
    assert forall h: ObjId :: IsActive(objects, h) ==> h in ActiveHandles(objects);
  }

  /** Deactivating every entry without touching the free list loses exactly the slots that were in use. */
  lemma SlotsLeaked(objects: ObjectTable, count: nat, slots: seq<ObjId>, objects': ObjectTable)
    requires ActiveHandles(objects') == {} && forall h :: h in slots ==> !IsActive(objects, h)
    requires forall h: ObjId :: IsActive(objects, h) ==> 0 < h <= count
    ensures Partitioned(objects, count, slots) ==>
              (Partitioned(objects', count, slots) <==> ActiveHandles(objects) == {})
  {
    assert forall h: ObjId :: IsActive(objects', h) ==> h in ActiveHandles(objects');
    if h :| h in ActiveHandles(objects) {
      assert IsActive(objects, h);
    } else {
      assert forall h: ObjId :: IsActive(objects, h) ==> h in ActiveHandles(objects);
    }
  }

  /** One string, and no root for it: its slot is neither in use nor free afterwards. */
  lemma OneSlotLeaked(objects: ObjectTable, objects': ObjectTable)
    requires ActiveHandles(objects) == {1} && ActiveHandles(objects') == {}
    ensures Partitioned(objects, 1, []) && !Partitioned(objects', 1, [])
  {
    assert 1 in ActiveHandles(objects) && IsActive(objects, 1);
    assert forall h: ObjId :: IsActive(objects, h) ==> h in ActiveHandles(objects);
    SlotsLeaked(objects, 1, [], objects');
  }

  /** The relocation table lists the offsets of the kept handles below `n`. */
  ghost predicate Gathered(objects: ObjectTable, kept: set<ObjId>, n: nat, rs: seq<RelocEntry>)
    requires n <= |objects|
  {
    && |rs| <= n
    && (forall t :: 0 <= t < |rs| ==> rs[t].oldOff in OffsetsOf(objects, kept))
    && (forall h :: h in kept && h < n && objects[h].active ==> Listed(rs, objects[h].poolOffset))
    && (rs == [] ==> forall h: ObjId :: h < n ==> !(h in kept && objects[h].active))
  }

  ghost predicate Listed(rs: seq<RelocEntry>, o: nat) {
    exists t :: 0 <= t < |rs| && rs[t].oldOff == o
  }

  lemma GatherOne(objects: ObjectTable, kept: set<ObjId>, n: nat, rs: seq<RelocEntry>, e: RelocEntry)
    requires n < |objects| && Gathered(objects, kept, n, rs)
    requires n in kept && objects[n].active && e.oldOff == objects[n].poolOffset
    ensures Gathered(objects, kept, n + 1, rs + [e])
  {
    var rs' := rs + [e];
    assert rs'[|rs|] == e;
    forall h | h in kept && h < n + 1 && objects[h].active
      ensures Listed(rs', objects[h].poolOffset)
    {
      if h < n {
        var t :| 0 <= t < |rs| && rs[t].oldOff == objects[h].poolOffset;
        assert rs'[t] == rs[t];
      }
    }
  }

  lemma GatheredAll(objects: ObjectTable, kept: set<ObjId>, rs: seq<RelocEntry>)
    requires Gathered(objects, kept, |objects|, rs)
    ensures Lists(rs, OffsetsOf(objects, kept))
    ensures rs == [] <==> OffsetsOf(objects, kept) == {}
    ensures rs == [] <==> forall h: ObjId :: h in kept ==> !IsActive(objects, h)
  {
    forall o | o in OffsetsOf(objects, kept)
      ensures exists t :: 0 <= t < |rs| && rs[t].oldOff == o
    {
      var h :| h in kept && IsActive(objects, h) && objects[h].poolOffset == o;
      assert Listed(rs, o);
    }
    if rs != [] {
      assert rs[0].oldOff in OffsetsOf(objects, kept);
    }
  }

  class Collector {
    const heap: Heap
    const marker: Marker
    const relocs: array<RelocEntry>

    ghost predicate Ready()
      reads heap, heap.objects, heap.stringPool
    {
      && heap.Valid() && marker.heap == heap && marker.bits.Length == MAX_OBJECTS / 8
      && relocs.Length == MAX_STRING_POOL_MARKS
    }

    constructor (heap: Heap)
      requires heap.Valid()
      ensures this.heap == heap && Ready() && fresh(marker.bits) && fresh(relocs)
    {
      this.heap := heap;
      marker := new Marker(heap);
      relocs := new RelocEntry[MAX_STRING_POOL_MARKS](_ => RelocEntry(0, 0));
    }

    /** Phase 1, second half: the offsets of the live handles, in handle order.  There are fewer
        handles than table entries, so the table never overflows. */
    method GatherOffsets(ghost kept: set<ObjId>) returns (n: nat)
      requires heap.objects.Length == MAX_OBJECTS && !heap.objects[0].active
      requires marker.heap == heap && marker.bits.Length == MAX_OBJECTS / 8 && relocs.Length == MAX_STRING_POOL_MARKS
      requires forall h: ObjId :: marker.Live(h) <==> h in kept
      requires 0 !in kept
      modifies relocs
      ensures n <= relocs.Length && Gathered(heap.objects[..], kept, MAX_OBJECTS, relocs[..n])
    {
      n := 0;
      for i := 1 to MAX_OBJECTS
        invariant n < i && Gathered(heap.objects[..], kept, i, relocs[..n])
      {
        var live := marker.IsLive(i);
        if live && heap.objects[i].active {
          if n < MAX_STRING_POOL_MARKS {
            GatherOne(heap.objects[..], kept, i, relocs[..n], RelocEntry(heap.objects[i].poolOffset, 0));
            ghost var before := relocs[..n];
            relocs[n] := RelocEntry(heap.objects[i].poolOffset, 0);
            n := n + 1;
            assert relocs[..n] == before + [relocs[n - 1]];
          }
        }
      }
    }

    /** Phase 3: every active entry whose offset is in the relocation table gets its new offset. */
    method PatchOffsets(n: nat, ghost pool: seq<byte>, ghost used: nat, ghost live: set<nat>)
      requires heap.Shaped() && n <= relocs.Length && used <= |pool|
      requires Lists(relocs[..n], live) && Sorted(relocs[..n])
      requires forall t :: 0 <= t < n ==> relocs[..n][t].newOff == LiveBelow(pool, used, live, relocs[..n][t].oldOff)
      modifies heap.objects
      ensures heap.Shaped()
      ensures PatchedBelow(pool, used, live, old(heap.objects[..]), MAX_OBJECTS, heap.objects[..])
    {
      ghost var objs0, rs := heap.objects[..], relocs[..n];
      assert !IsActive(objs0, 0);
      for i := 1 to MAX_OBJECTS
        invariant PatchedBelow(pool, used, live, objs0, i, heap.objects[..])
      {
        ghost var before := heap.objects[..];
        if heap.objects[i].active {
          var off := heap.objects[i].poolOffset;
          var lo := LowerBound(relocs, n, off);
          FoundOrNot(rs, live, off, lo);
          if lo < n && relocs[lo].oldOff == off {
            heap.objects[i] := heap.objects[i].(poolOffset := relocs[lo].newOff);
          }
        }
        PatchNext(pool, used, live, objs0, i, before, heap.objects[..]);
      }
      ghost var objs1 := heap.objects[..];
      assert forall h: ObjId :: IsActive(objs1, h) ==> IsActive(objs0, h);
    }

    /** Nothing is live: every entry is deactivated, and none is put on the free list. */
    method ReleaseAll()
      requires heap.Shaped()
      modifies heap.objects
      ensures heap.Shaped() && ActiveHandles(heap.objects[..]) == {}
    {
      ghost var objs0 := heap.objects[..];
      for i := 0 to MAX_OBJECTS
        invariant ReleasedBelow(objs0, i, heap.objects[..])
      {
        heap.objects[i] := heap.objects[i].(active := false);
      }
      assert forall h: ObjId :: !IsActive(heap.objects[..], h);
    }

    lemma FoundOrNot(rs: seq<RelocEntry>, live: set<nat>, off: nat, lo: nat)
      requires Lists(rs, live) && lo <= |rs|
      requires forall t :: 0 <= t < lo ==> rs[t].oldOff < off
      requires forall t :: lo <= t < |rs| ==> off <= rs[t].oldOff
      requires Sorted(rs)
      ensures off in live <==> lo < |rs| && rs[lo].oldOff == off
    {
    }

    /** Phase 4: push every active, unmarked slot on the free list. */
    method FreeUnmarked(ghost kept: set<ObjId>)
      requires heap.Shaped() && marker.heap == heap && marker.bits.Length == MAX_OBJECTS / 8
      requires forall h: ObjId :: marker.Live(h) <==> h in kept
      modifies heap`objectFreeList, heap`freeSlots, heap.objects
      ensures heap.Shaped()
      ensures heap.freeSlots == Freed(old(heap.objects[..]), kept, old(heap.freeSlots))
      ensures FreedUpTo(old(heap.objects[..]), kept, MAX_OBJECTS, heap.objects[..])
    {
      ghost var objs0, slots0 := heap.objects[..], heap.freeSlots;
      assert !IsActive(objs0, 0);
      FreedNext(objs0, kept, 0, slots0, objs0, objs0);
      for i := 1 to MAX_OBJECTS
        invariant heap.Shaped()
        invariant heap.freeSlots == FreedBelow(objs0, kept, i, slots0)
        invariant FreedUpTo(objs0, kept, i, heap.objects[..])
      {
        ghost var before, slots := heap.objects[..], heap.freeSlots;
        var live := marker.IsLive(i);
        if heap.objects[i].active && !live {
          PushSlot(i);
        }
        assert heap.freeSlots == if before[i].active && i !in kept then [i] + slots else slots;
        FreedNext(objs0, kept, i, slots0, before, heap.objects[..]);
      }
    }

    method PushSlot(h: ObjId)
      requires heap.Shaped() && h < MAX_OBJECTS && heap.objects[h].active
      modifies heap`objectFreeList, heap`freeSlots, heap.objects
      ensures heap.Shaped()
      ensures heap.freeSlots == [h] + old(heap.freeSlots)
      ensures heap.objects[..] == old(heap.objects[..])[h := ObjectEntry(0, old(heap.objectFreeList), false)]
    {
      ghost var objs0 := heap.objects[..];
      assert IsActive(objs0, h);
      FreeChainPush(objs0, heap.objectCount, heap.objectFreeList, heap.freeSlots, h);
      heap.objects[h] := ObjectEntry(0, heap.objectFreeList, false);
      heap.objectFreeList := h;
      heap.freeSlots := [h] + heap.freeSlots;
      assert heap.objects[..] == objs0[h := ObjectEntry(0, old(heap.objectFreeList), false)];
      assert forall k: ObjId :: IsActive(heap.objects[..], k) ==> IsActive(objs0, k);
    }

    ghost function KeptBy(r: RootTables): set<ObjId>
      reads heap.objects
    {
      Kept(heap.objects[..], r)
    }

    /** Sort the first `n` entries; they still list the same offsets. */
    method SortListed(n: nat, ghost live: set<nat>)
      requires n <= relocs.Length && Lists(relocs[..n], live)
      modifies relocs
      ensures Sorted(relocs[..n]) && Lists(relocs[..n], live)
    {
      ghost var rs := relocs[..n];
      SortByOldOffset(relocs, n);
      ListsPermuted(rs, relocs[..n], live);
    }

    /** Phase 1: mark the roots and list the offsets of the live handles. */
    method MarkAndGather(r: RootTables) returns (n: nat)
      requires Ready()
      modifies marker.bits, relocs
      ensures n <= relocs.Length && Lists(relocs[..n], OffsetsOf(heap.objects[..], KeptBy(r)))
      ensures n == 0 <==> KeptBy(r) == {}
      ensures forall h: ObjId :: marker.Live(h) <==> h in KeptBy(r)
    {
      ghost var kept := KeptBy(r);
      assert !IsActive(heap.objects[..], 0);
      marker.Clear();
      marker.MarkRoots(r);
      n := GatherOffsets(kept);
      GatheredAll(heap.objects[..], kept, relocs[..n]);
    }

    /** Phases 2 and 3, once the relocation table lists the live offsets. */
    method CompactPool(n: nat, ghost kept: set<ObjId>)
      requires Ready() && n <= relocs.Length
      requires Lists(relocs[..n], OffsetsOf(heap.objects[..], kept))
      modifies heap`stringPoolOffset, heap.objects, heap.stringPool, relocs
      ensures heap.Shaped()
      ensures Compacted(old(heap.stringPool[..]), old(heap.stringPoolOffset), OffsetsOf(old(heap.objects[..]), kept),
                        heap.stringPool[..], heap.stringPoolOffset)
      ensures PatchedBelow(old(heap.stringPool[..]), old(heap.stringPoolOffset), OffsetsOf(old(heap.objects[..]), kept),
                           old(heap.objects[..]), MAX_OBJECTS, heap.objects[..])
    {
      ghost var pool0, used0, objs0 := heap.stringPool[..], heap.stringPoolOffset, heap.objects[..];
      ghost var live := OffsetsOf(objs0, kept);
      FewerOffsets(pool0, used0, objs0, kept);
      SortListed(n, live);
      var newOffset := SlideDown(heap.stringPool, heap.stringPoolOffset, relocs, n, live);
      heap.stringPoolOffset := newOffset;
      PatchOffsets(n, pool0, used0, live);
    }

    /** Phases 2 to 4. */
    method CompactAround(n: nat, ghost kept: set<ObjId>)
      requires Ready() && n <= relocs.Length
      requires Lists(relocs[..n], OffsetsOf(heap.objects[..], kept))
      requires forall h: ObjId :: marker.Live(h) <==> h in kept
      modifies heap`stringPoolOffset, heap`objectFreeList, heap`freeSlots, heap.objects, heap.stringPool, relocs
      ensures heap.Valid() && heap.stringPoolOffset <= old(heap.stringPoolOffset)
      ensures Collected(old(heap.stringPool[..]), old(heap.stringPoolOffset), old(heap.objects[..]), kept,
                        heap.stringPool[..], heap.stringPoolOffset, heap.objects[..])
      ensures forall h: ObjId :: heap.StringOf(h) == if h in kept then old(heap.StringOf(h)) else None
      ensures heap.freeSlots == Freed(old(heap.objects[..]), kept, old(heap.freeSlots))
      ensures old(heap.Conserved()) ==> heap.Conserved()
    {
      ghost var pool0, used0, objs0 := heap.stringPool[..], heap.stringPoolOffset, heap.objects[..];
      CompactPool(n, kept);
      ghost var objs1 := heap.objects[..];
      FreeUnmarked(kept);
      TableCollected(pool0, used0, objs0, kept, objs1, heap.objects[..]);
      CollectionInvisible(pool0, used0, objs0, kept, heap.stringPool[..], heap.stringPoolOffset, heap.objects[..]);
      if old(heap.Conserved()) {
        SlotsConserved(objs0, heap.objectCount, old(heap.freeSlots), kept, heap.objects[..]);
      }
    }

    /** The collection when nothing is live: the pool is emptied and every entry deactivated. */
    method DropEverything()
      requires heap.Shaped()
      modifies heap`stringPoolOffset, heap.objects
      ensures heap.Valid() && heap.stringPoolOffset == 0
      ensures forall h: ObjId :: heap.StringOf(h) == None
      ensures old(heap.Conserved()) ==> (heap.Conserved() <==> ActiveHandles(old(heap.objects[..])) == {})
    {
      ghost var objs0 := heap.objects[..];
      heap.stringPoolOffset := 0;
      ReleaseAll();
      NothingLeft(heap.stringPool[..], heap.objects[..]);
      assert forall h :: h in heap.freeSlots ==> !IsActive(objs0, h);
      SlotsLeaked(objs0, heap.objectCount, heap.freeSlots, heap.objects[..]);
    }

    lemma VarsKept(objects: ObjectTable, r: RootTables)
      ensures forall i ::
                && 0 <= i < |r.vars| && r.vars[i].isId
                && r.vars[i].objVal != OBJ_NULL && IsActive(objects, r.vars[i].objVal)
                ==> r.vars[i].objVal in Kept(objects, r)
    {
      hide Kept;
      forall i | 0 <= i < |r.vars| && r.vars[i].isId && r.vars[i].objVal != OBJ_NULL
                 && IsActive(objects, r.vars[i].objVal)
        ensures r.vars[i].objVal in Kept(objects, r)
      {
        KeptIff(objects, r, r.vars[i].objVal);
      }
    }

    /** A collection.  With `KeptBy(r)` the handles in use that some root mentions:

        - kept handles dereference to the same strings, all others to nothing;
        - the pool shrinks to the kept strings, back to back;
        - the slots given up become available again, except when nothing is kept. */
    method GcStrings(r: RootTables)
      requires Ready()
      modifies heap`stringPoolOffset, heap`objectFreeList, heap`freeSlots, heap.objects, heap.stringPool
      modifies marker.bits, relocs
      ensures Ready() && heap.stringPoolOffset <= old(heap.stringPoolOffset)
      ensures forall h: ObjId ::
                heap.StringOf(h) == if h in old(KeptBy(r)) then old(heap.StringOf(h)) else None
      ensures forall i :: 0 <= i < |r.vars| && r.vars[i].isId ==>
                heap.StringOf(r.vars[i].objVal) == old(heap.StringOf(r.vars[i].objVal))
      ensures old(KeptBy(r)) != {} ==>
                Collected(old(heap.stringPool[..]), old(heap.stringPoolOffset), old(heap.objects[..]), old(KeptBy(r)),
                          heap.stringPool[..], heap.stringPoolOffset, heap.objects[..])
      ensures old(KeptBy(r)) == {} ==> heap.stringPoolOffset == 0 && heap.stringPool[..] == old(heap.stringPool[..])
      ensures heap.freeSlots == if old(KeptBy(r)) == {} then old(heap.freeSlots)
                                else Freed(old(heap.objects[..]), old(KeptBy(r)), old(heap.freeSlots))
      ensures old(heap.Conserved()) ==>
                (heap.Conserved() <==> old(KeptBy(r)) != {} || ActiveHandles(old(heap.objects[..])) == {})
    {
      ghost var objs0 := heap.objects[..];
      var n := MarkAndGather(r);
      if n == 0 {
        DropEverything();
      } else {
        CompactAround(n, KeptBy(r));
      }
      VarsKept(objs0, r);
    }
  }
}
