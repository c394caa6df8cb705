/** The collection side table: slots with generational ids, and one flat array that holds the
    entries of all arrays, dictionaries and sets, interleaved. */
module CollectionTable {
  import opened Int32
  import opened Options
  import opened Bytes
  import opened StringHeap
  import opened Roots
  import opened CollectionContents
  import opened CollectionIds

  const MAX_COLL_ENTRIES: nat := 512

  /** C string equality through handles; two null pointers are equal. */
  predicate SameText(a: Option<seq<byte>>, b: Option<seq<byte>>) {
    a == b
  }

  /** Whether a looked-up key matches a stored one: integers by value, objects by string content. */
  ghost predicate KeyMatches(deref: ObjId -> Option<seq<byte>>, key: Value, stored: Value) {
    || (key.isInt && stored.isInt && key.intVal == stored.intVal)
    || (key.isId && stored.isId && key.objVal != OBJ_NULL && stored.objVal != OBJ_NULL
        && SameText(deref(key.objVal), deref(stored.objVal)))
  }

  /** The table index of the first entry from `i` on with the key, or -1. */
  ghost function FirstMatch(deref: ObjId -> Option<seq<byte>>, es: seq<CollEntry>, id: nat, key: Value, i: nat): int
    requires i <= |es|
    decreases |es| - i
  {
    if i == |es| then -1
    else if es[i].collId == id && KeyMatches(deref, key, es[i].key) then i
    else FirstMatch(deref, es, id, key, i + 1)
  }

  lemma {:induction false} FirstMatchAt(deref: ObjId -> Option<seq<byte>>, es: seq<CollEntry>, id: nat, key: Value,
                                        i: nat)
    requires i <= |es|
    ensures var idx := FirstMatch(deref, es, id, key, i);
            && (idx == -1 || i <= idx < |es|)
            && forall k :: i <= k < |es| && (idx == -1 || k <= idx) ==>
                 (k == idx <==> es[k].collId == id && KeyMatches(deref, key, es[k].key))
    decreases |es| - i
  {
    hide KeyMatches;
    if i < |es| {
      FirstMatchAt(deref, es, id, key, i + 1);
    }
  }

  /** The index found is that of an entry of the collection whose key is the same integer, or an object with the same
      string, and no entry before it is one; -1 means that no entry at all is. */
  lemma FirstMatchIs(deref: ObjId -> Option<seq<byte>>, es: seq<CollEntry>, id: nat, key: Value, k: nat)
    requires k < |es|
    ensures -1 <= FirstMatch(deref, es, id, key, 0) < |es|
    ensures FirstMatch(deref, es, id, key, 0) == -1 || k <= FirstMatch(deref, es, id, key, 0) ==>
              (k == FirstMatch(deref, es, id, key, 0) <==>
                && es[k].collId == id
                && (|| (key.isInt && es[k].key.isInt && es[k].key.intVal == key.intVal)
                    || (key.isId && es[k].key.isId && key.objVal != 0 && es[k].key.objVal != 0
                        && deref(es[k].key.objVal) == deref(key.objVal))))
  {
    FirstMatchAt(deref, es, id, key, 0);
  }

  /** A lookup depends only on what the key's and the entries' handles dereference to. */
  lemma {:induction false} MatchDepends(deref: ObjId -> Option<seq<byte>>, deref': ObjId -> Option<seq<byte>>,
                                        es: seq<CollEntry>, id: nat, key: Value, i: nat)
    requires i <= |es|
    requires key.isId && key.objVal != OBJ_NULL ==> deref(key.objVal) == deref'(key.objVal)
    requires forall k :: 0 <= k < |es| && es[k].key.isId && es[k].key.objVal != OBJ_NULL ==>
               deref(es[k].key.objVal) == deref'(es[k].key.objVal)
    ensures FirstMatch(deref, es, id, key, i) == FirstMatch(deref', es, id, key, i)
    decreases |es| - i
  {
    if i < |es| {
      MatchDepends(deref, deref', es, id, key, i + 1);
    }
  }

  lemma {:induction false} EntryInHandles(es: seq<CollEntry>, k: nat)
    requires k < |es|
    ensures EntryHandles(es[k]) <= HandlesIn(es, e => EntryHandles(e))
  {
    if k < |es| - 1 {
      EntryInHandles(es[..|es| - 1], k);
    }
  }

  /** A collection of strings changes no lookup result: the entries are roots, and the key must be one
      too (or be dangling already). */
  lemma LookupSurvivesCollection(objects: ObjectTable, r: RootTables,
                                 deref: ObjId -> Option<seq<byte>>, deref': ObjId -> Option<seq<byte>>,
                                 id: nat, key: Value)
    requires forall h: ObjId :: deref(h).Some? <==> h != OBJ_NULL && IsActive(objects, h)
    requires forall h: ObjId :: deref'(h) == if h in Kept(objects, r) then deref(h) else None
    requires key.isId && IsActive(objects, key.objVal) ==> key.objVal in RootHandles(r)
    ensures FirstMatch(deref, r.collEntries, id, key, 0) == FirstMatch(deref', r.collEntries, id, key, 0)
  {
    forall k | 0 <= k < |r.collEntries| && r.collEntries[k].key.isId
      ensures deref(r.collEntries[k].key.objVal) == deref'(r.collEntries[k].key.objVal)
    {
      EntryInHandles(r.collEntries, k);
      assert r.collEntries[k].key.objVal in EntryHandles(r.collEntries[k]);
    }
    MatchDepends(deref, deref', r.collEntries, id, key, 0);
  }

  /** The table index that a removal at `idx` takes out: an index behind the last entry stands for the last. */
  function Removed(n: nat, idx: nat): (at: nat)
    requires n > 0
    ensures at < n
  {
    if idx < n then idx else n - 1
  }

  /** Move the entries behind `idx` up by one. */
  method CloseGap(entries: array<CollEntry>, idx: nat, n: nat)
    requires 0 < n <= entries.Length
    modifies entries
    ensures entries[..n - 1] == DropAt(old(entries[..n]), Removed(n, idx))
  {
    ghost var es := entries[..n];
    var i := idx;
    while i < n - 1
      invariant idx <= i && (i < n || i == idx)
      invariant forall k :: 0 <= k < idx && k < n ==> entries[k] == es[k]
      invariant forall k :: idx <= k < i && k < n ==> entries[k] == es[k + 1]
      invariant forall k :: i <= k < n ==> entries[k] == es[k]
    {
      entries[i] := entries[i + 1];
      i := i + 1;
    }
  }

  /** Move the entries from `idx` on down by one. */
  method OpenGap(entries: array<CollEntry>, idx: nat, n: nat)
    requires idx <= n < entries.Length
    modifies entries
    ensures entries[..idx] == old(entries[..idx]) && entries[idx + 1..n + 1] == old(entries[idx..n])
  {
    ghost var es := entries[..];
    var i := n;
    while i > idx
      invariant idx <= i <= n
      invariant forall k :: 0 <= k <= i ==> entries[k] == es[k]
      invariant forall k :: i < k <= n ==> entries[k] == es[k - 1]
    {
      entries[i] := entries[i - 1];
      i := i - 1;
    }
  }

  lemma DestroyIs(t: IdTable, slot: nat, id: nat)
    requires Shaped(t) && slot == SlotOf(id) < t.nextId && t.active[slot]
    ensures Destroy(t, id) == t.(generation := t.generation[slot := Wrapped(t.generation[slot] + 1)],
                                 active := t.active[slot := false],
                                 freeNext := t.freeNext[slot := t.freeList],
                                 freeList := slot)
  {
  }

  class Collections {
    const entries: array<CollEntry>
    const generation: array<nat>
    const active: array<bool>
    const freeNext: array<int>
    var entryCount: nat
    var nextId: nat
    var freeList: int
    ghost var chain: seq<nat>
    ghost var destroys: seq<nat>
    ghost var issued: set<nat>

    predicate Sized()
      reads this
    {
      && entries.Length == MAX_COLL_ENTRIES && entryCount <= MAX_COLL_ENTRIES
      && generation.Length == active.Length == freeNext.Length == MAX_COLLECTIONS
      && generation as object != freeNext as object
    }

    ghost predicate Valid()
      reads this, generation, active, freeNext
    {
      && Sized()
      && Reachable(Ids(), chain, destroys, issued)
    }

    ghost function Ids(): IdTable
      reads this, generation, active, freeNext
    {
      IdTable(nextId, generation[..], active[..], freeList, freeNext[..])
    }

    /** The used part of the entry table. */
    ghost function Table(): seq<CollEntry>
      requires entryCount <= entries.Length
      reads this, entries
    {
      entries[..entryCount]
    }

    /** The abstract value: what a collection id stands for. */
    ghost function Of(id: nat): seq<CollEntry>
      requires entryCount <= entries.Length
      reads this, entries
    {
      Contents(Table(), id)
    }

    constructor ()
      ensures Valid() && issued == {} && forall id: nat :: Of(id) == []
    {
      var none := Value(false, 0, false, 0);
      entries := new CollEntry[MAX_COLL_ENTRIES](_ => CollEntry(0, none, none));
      generation := new nat[MAX_COLLECTIONS](_ => 0);
      active := new bool[MAX_COLLECTIONS](_ => false);
      freeNext := new int[MAX_COLLECTIONS](_ => -1);
      entryCount, nextId, freeList := 0, 1, -1;
      chain, destroys, issued := [], Repeat(MAX_COLLECTIONS, 0), {};
      new;
      InitialReachable();
      assert Ids() == Initial();
    }

    method Count(id: nat) returns (count: nat)
      requires Valid()
      ensures count == |Of(id)|
    {
      count := 0;
      for i := 0 to entryCount
        invariant count == |Contents(entries[..i], id)|
      {
        ContentsNext(Table(), id, i);
        assert Table()[..i + 1] == entries[..i + 1] && Table()[..i] == entries[..i];
        if entries[i].collId == id {
          count := count + 1;
        }
      }
    }

    /** Hand out a collection id, 0 when all slots are in use. */
    method CreateNewCollection() returns (id: nat)
      requires Valid()
      modifies this, generation, active
      ensures Valid() && entryCount == old(entryCount)
      ensures Ids() == CreateNew(old(Ids())).table && id == CreateNew(old(Ids())).id
      ensures issued == (if id == 0 then old(issued) else old(issued) + {id}) && destroys == old(destroys)
    {
      CreateKeeps(Ids(), chain, destroys, issued);
      var slot := TakeFreeSlot();
      if slot < 0 {
        return 0;
      }
      Activate(slot);
      id := IdOf(generation[slot], slot);
      chain, issued := Rest(chain), issued + {id};
    }

    method Activate(slot: nat)
      requires Sized() && slot < MAX_COLLECTIONS
      modifies active
      ensures Ids() == old(Ids()).(active := old(active[..])[slot := true])
    {
      active[slot] := true;
    }

    /** Pop the free list, else take the next unused slot, else -1. */
    method TakeFreeSlot() returns (slot: int)
      requires Sized() && Shaped(Ids())
      modifies this`freeList, this`nextId, generation
      ensures -1 <= slot < MAX_COLLECTIONS && (Ids(), slot) == TakeSlot(old(Ids()))
    {
      if freeList >= 0 {
        slot := freeList;
        freeList := freeNext[slot];
      } else if nextId < MAX_COLLECTIONS {
        slot := nextId;
        nextId := nextId + 1;
        generation[slot] := 0;
      } else {
        slot := -1;
      }
    }

    /** Destroy a collection: remove the entries filed under `id`, then give back the slot that the
        id names, whatever generation the id carries. */
    method DestroyCollection(id: nat)
      requires Valid()
      modifies this, entries, generation, active, freeNext
      ensures Valid() && Ids() == Destroy(old(Ids()), id) && issued == old(issued)
      ensures forall k: nat :: Of(k) == if k == id && old(IsTaken(id)) then [] else old(Of(k))
    {
      var slot := id % TWO_16;
      if slot >= nextId {
        return;
      }
      if !active[slot] {
        return;
      }
      RemoveAll(id);
      GiveBack(slot, id);
    }

    method GiveBack(slot: nat, ghost id: nat)
      requires Valid() && slot == SlotOf(id) < nextId && active[slot]
      modifies this`freeList, this`chain, this`destroys, generation, active, freeNext
      ensures Valid() && Ids() == Destroy(old(Ids()), id)
    {
      ghost var t := Ids();
      PushSlot(slot);
      ghost var t' := Ids();
      DestroyIs(t, slot, id);
      ghost var chain', destroys' := [slot] + chain, destroys[slot := destroys[slot] + 1];
      assert Reachable(t', chain', destroys', issued) by {
        DestroyKeeps(t, chain, destroys, issued, id);
      }
      chain, destroys := chain', destroys';
      assert Ids() == t';
    }

    /** Advance a slot's generation, deactivate it and put it on the free list. */
    method PushSlot(slot: nat)
      requires Sized() && slot < MAX_COLLECTIONS
      modifies this`freeList, generation, active, freeNext
      ensures Ids() == old(Ids()).(generation := old(generation[..])[slot := Wrapped(old(generation[slot]) + 1)],
                                   active := old(active[..])[slot := false],
                                   freeNext := old(freeNext[..])[slot := old(freeList)],
                                   freeList := slot)
    {
      generation[slot] := (generation[slot] + 1) % TWO32;
      active[slot] := false;
      freeNext[slot] := freeList;
      freeList := slot;
    }

    /** The slot an id names is in use. */
    ghost predicate IsTaken(id: nat)
      requires active.Length == MAX_COLLECTIONS
      reads active
    {
      SlotOf(id) < MAX_COLLECTIONS && active[SlotOf(id)]
    }

    /** Append an entry.  Fails, changing nothing, when the table is full or the id's slot is free. */
    method Add(id: nat, key: Value, value: Value) returns (r: int)
      requires Valid()
      modifies this`entryCount, entries
      ensures Valid()
      ensures r == if entryCount > old(entryCount) then 0 else -1
      ensures r == 0 <==> old(entryCount) < MAX_COLL_ENTRIES && IsTaken(id)
      ensures r != 0 ==> Table() == old(Table())
      ensures r == 0 ==> forall k: nat ::
                Of(k) == if k == id then old(Of(k)) + [CollEntry(id, key, value)] else old(Of(k))
    {
      var slot := id % TWO_16;
      if entryCount >= MAX_COLL_ENTRIES {
        return -1;
      }
      if slot >= MAX_COLLECTIONS || !active[slot] {
        return -1;
      }
      ghost var es := Table();
      entries[entryCount] := CollEntry(id, key, value);
      entryCount := entryCount + 1;
      assert Table() == es + [CollEntry(id, key, value)] + [];
      forall k: nat
        ensures Of(k) == Contents(es, k) + if k == id then [CollEntry(id, key, value)] else []
      {
        ContentsSplice(es, CollEntry(id, key, value), [], k);
      }
      r := 0;
    }

    /** The table index of the n-th entry of a collection, or -1. */
    method GetNth(id: nat, n: nat) returns (idx: int)
      requires Valid()
      ensures n >= |Of(id)| ==> idx == -1
      ensures n < |Of(id)| ==> 0 <= idx < entryCount && Table()[idx].collId == id
                               && Position(Table(), idx) == n && Table()[idx] == Of(id)[n]
    {
      var count := 0;
      ghost var es := Table();
      for i := 0 to entryCount
        invariant count == |Contents(es[..i], id)| <= n
      {
        ContentsNext(es, id, i);
        if entries[i].collId == id {
          if count == n {
            EntryAtPosition(es, i);
            return i;
          }
          count := count + 1;
        }
      }
      assert es[..entryCount] == es;
      idx := -1;
    }

    /** Remove the entry at a table index, or the last one; later entries move up by one. */
    method RemoveAt(idx: nat)
      requires Valid() && entryCount > 0
      modifies this`entryCount, entries
      ensures Valid() && Table() == DropAt(old(Table()), Removed(old(entryCount), idx))
      ensures forall k: nat ::
                var at := Removed(old(entryCount), idx);
                Of(k) == if k == old(Table())[at].collId then DropAt(old(Of(k)), Position(old(Table()), at))
                         else old(Of(k))
    {
      ghost var es, at := Table(), Removed(entryCount, idx);
      CloseGap(entries, idx, entryCount);
      entryCount := entryCount - 1;
      assert Table() == DropAt(es, at);
      forall k: nat
        ensures Of(k) == if k == es[at].collId then DropAt(Contents(es, k), Position(es, at)) else Contents(es, k)
      {
        RemoveEntry(es, at, k);
      }
    }

    /** Remove every entry of a collection. */
    method RemoveAll(id: nat)
      requires Valid()
      modifies this`entryCount, entries
      ensures Valid()
      ensures forall k: nat :: Of(k) == if k == id then [] else old(Of(k))
    {
      ghost var es := Table();
      var i := 0;
      while i < entryCount
        invariant 0 <= i <= entryCount <= MAX_COLL_ENTRIES
        invariant Contents(Table()[..i], id) == []
        invariant forall k: nat :: k != id ==> Of(k) == Contents(es, k)
        decreases entryCount - i
      {
        ghost var before := Table();
        if entries[i].collId == id {
          RemoveAt(i);
          assert Table()[..i] == before[..i];
        } else {
          ContentsNext(before, id, i);
          i := i + 1;
        }
      }
      assert Table()[..i] == Table();
    }

    /** Insert an entry in front of the one at a logical position.  There must be one there: the end
        of a collection is not an insertion point. */
    method InsertAt(id: nat, pos: nat, key: Value, value: Value) returns (r: int)
      requires Valid()
      modifies this`entryCount, entries
      ensures Valid()
      ensures r == if pos < |old(Of(id))| && old(entryCount) < MAX_COLL_ENTRIES then 0 else -1
      ensures r != 0 ==> Table() == old(Table())
      ensures r == 0 ==> forall k: nat ::
                Of(k) == if k != id then old(Of(k))
                         else old(Of(id))[..pos] + [CollEntry(id, key, value)] + old(Of(id))[pos..]
    {
      var nth := GetNth(id, pos);
      if nth < 0 {
        return -1;
      }
      if entryCount >= MAX_COLL_ENTRIES {
        return -1;
      }
      ghost var es := Table();
      Splice(nth, CollEntry(id, key, value));
      forall k: nat
        ensures Of(k) == if k != id then Contents(es, k)
                         else Contents(es, id)[..pos] + [CollEntry(id, key, value)] + Contents(es, id)[pos..]
      {
        InsertEntry(es, nth, CollEntry(id, key, value), k);
      }
      r := 0;
    }

    method Splice(nth: nat, e: CollEntry)
      requires Sized() && nth <= entryCount < MAX_COLL_ENTRIES
      modifies this`entryCount, entries
      ensures entryCount == old(entryCount) + 1
      ensures Table() == old(Table())[..nth] + [e] + old(Table())[nth..]
    {
      ghost var es := Table();
      OpenGap(entries, nth, entryCount);
      entries[nth] := e;
      entryCount := entryCount + 1;
      assert entries[..nth] == es[..nth] && entries[nth + 1..entryCount] == es[nth..];
    }

    /** Find an entry by key, comparing strings through the heap. */
    method FindByKey(heap: Heap, id: nat, key: Value) returns (idx: int)
      requires Valid() && heap.Valid()
      ensures idx == FirstMatch(heap.DerefAll(), Table(), id, key, 0)
    {
      hide AllTerminated, NoOverlap, Shaped;
      idx := -1;
      ghost var deref := heap.DerefAll();
      for i := 0 to entryCount
        invariant FirstMatch(deref, Table(), id, key, 0) == FirstMatch(deref, Table(), id, key, i)
      {
        var stored := entries[i].key;
        if entries[i].collId == id {
          if key.isInt && stored.isInt && key.intVal == stored.intVal {
            return i;
          }
          if key.isId && stored.isId && key.objVal != OBJ_NULL && stored.objVal != OBJ_NULL {
            var equal := heap.TextEqual(key.objVal, stored.objVal);
            if equal {
              return i;
            }
          }
        }
      }
    }
  }
}
