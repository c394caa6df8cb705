/** The interpreter's string pool and its table of object handles.

    A handle is a 1-based index into `objects`; an entry holds the offset of a NUL-terminated
    string in `stringPool`.  Unused entries are threaded through `nextFree`. */
module StringHeap {
  import opened Options
  import opened Bytes
  import opened Compaction

  type ObjId = nat

  const OBJ_NULL: ObjId := 0
  const MAX_OBJECTS: nat := 4096
  const STRING_POOL_SIZE: nat := 131072

  datatype ObjectEntry = ObjectEntry(poolOffset: nat, nextFree: ObjId, active: bool)

  type ObjectTable = seq<ObjectEntry>

  ghost predicate IsActive(objects: ObjectTable, h: ObjId) {
    h < |objects| && objects[h].active
  }

  ghost function ActiveHandles(objects: ObjectTable): set<ObjId> {
    set h: ObjId | h < |objects| && objects[h].active
  }

  /** The pool offsets of those handles in `hs` that are active. */
  ghost function OffsetsOf(objects: ObjectTable, hs: set<ObjId>): set<nat> {
    set h | h in hs && IsActive(objects, h) :: objects[h].poolOffset
  }

  /** The free list starting at `head` visits exactly `slots`, in this order: all of them are
      distinct, inactive and within the part of the table handed out so far. */
  ghost predicate FreeChain(objects: ObjectTable, count: nat, head: ObjId, slots: seq<ObjId>) {
    && head == SlotAt(slots, 0)
    && (forall i, j :: 0 <= i < j < |slots| ==> slots[i] != slots[j])
    && (forall i :: 0 <= i < |slots| ==> 0 < slots[i] <= count && slots[i] < |objects| && !objects[slots[i]].active)
    && (forall i {:trigger objects[slots[i]].nextFree} :: 0 <= i < |slots| ==>
          objects[slots[i]].nextFree == SlotAt(slots, i + 1))
  }

  ghost function SlotAt(slots: seq<ObjId>, i: nat): ObjId {
    if i < |slots| then slots[i] else OBJ_NULL
  }

  /** Every handle handed out so far is either in use or on the free list. */
  ghost predicate Partitioned(objects: ObjectTable, count: nat, slots: seq<ObjId>) {
    forall h: ObjId :: 0 < h <= count ==> IsActive(objects, h) || h in slots
  }

  /** The string of every active handle ends with a NUL inside the used pool. */
  ghost predicate AllTerminated(pool: seq<byte>, used: nat, objects: ObjectTable)
    requires used <= |pool|
  {
    forall h: ObjId :: IsActive(objects, h) ==> Terminated(pool, used, objects[h].poolOffset)
  }

  /** No two active handles point into different, overlapping strings. */
  ghost predicate NoOverlap(pool: seq<byte>, used: nat, objects: ObjectTable)
    requires used <= |pool|
  {
    Disjoint(pool, used, OffsetsOf(objects, ActiveHandles(objects)))
  }

  /** What a handle stands for: the string it dereferences to, or nothing. */
  ghost function Deref(pool: seq<byte>, used: nat, objects: ObjectTable, h: ObjId): Option<seq<byte>>
    requires used <= |pool|
  {
    if h != OBJ_NULL && IsActive(objects, h) then Some(Text(pool, used, objects[h].poolOffset)) else None
  }


  lemma FreeChainPop(objects: ObjectTable, count: nat, head: ObjId, slots: seq<ObjId>)
    requires FreeChain(objects, count, head, slots) && slots != []
    ensures FreeChain(objects, count, objects[head].nextFree, slots[1..])
    ensures head !in slots[1..]
  {
    var rest := slots[1..];
    forall i | 0 <= i < |rest|
      ensures objects[rest[i]].nextFree == SlotAt(rest, i + 1)
    {
      assert rest[i] == slots[i + 1] && SlotAt(rest, i + 1) == SlotAt(slots, i + 2);
    }
  }

  lemma FreeChainPush(objects: ObjectTable, count: nat, head: ObjId, slots: seq<ObjId>, h: ObjId)
    requires FreeChain(objects, count, head, slots) && h !in slots
    requires 0 < h <= count && h < |objects|
    ensures FreeChain(objects[h := ObjectEntry(0, head, false)], count, h, [h] + slots)
  {
  }

  lemma FreeChainFrame(objects: ObjectTable, count: nat, head: ObjId, slots: seq<ObjId>, h: ObjId, e: ObjectEntry)
    requires FreeChain(objects, count, head, slots) && h < |objects| && h !in slots
    ensures FreeChain(objects[h := e], count, head, slots)
  {
  }

  /** What a C reader copies from `src` when told to stop after `len` characters. */
  function Prefix(src: seq<byte>, len: nat): (text: seq<byte>)
    ensures |text| <= len && text <= src && 0 !in text
    ensures |text| < len ==> |text| == |src| || src[|text|] == 0
  {
    if len == 0 || src == [] || src[0] == 0 then [] else [src[0]] + Prefix(src[1..], len - 1)
  }

  /** Registering one more terminated string that overlaps no other keeps the heap invariant and
      every other handle's string. */
  lemma RegisterKeeps(pool: seq<byte>, used: nat, objects: ObjectTable,
                      pool': seq<byte>, used': nat, objects': ObjectTable, h: ObjId, o: nat)
    requires used <= |pool| && used' <= |pool'| && used <= used' && pool[..used] == pool'[..used]
    requires AllTerminated(pool, used, objects) && NoOverlap(pool, used, objects)
    requires 0 < h < |objects| && !IsActive(objects, h)
    requires objects' == objects[h := ObjectEntry(o, OBJ_NULL, true)]
    requires Terminated(pool', used', o)
    requires forall k: ObjId :: IsActive(objects, k) && objects[k].poolOffset != o ==>
               if objects[k].poolOffset < o then StrEnd(pool, used, objects[k].poolOffset) <= o
               else StrEnd(pool', used', o) <= objects[k].poolOffset
    ensures AllTerminated(pool', used', objects') && NoOverlap(pool', used', objects')
    ensures forall k: ObjId :: k != h ==> Deref(pool', used', objects', k) == Deref(pool, used, objects, k)
    ensures Deref(pool', used', objects', h) == Some(Text(pool', used', o))
  {
    hide StrEnd, Text, Terminated;
    forall k: ObjId | IsActive(objects, k)
      ensures var a := objects[k].poolOffset;
              Terminated(pool', used', a) && StrEnd(pool', used', a) == StrEnd(pool, used, a)
              && Text(pool', used', a) == Text(pool, used, a)
    {
      TextStable(pool, used, pool', used', objects[k].poolOffset);
    }
    forall k: ObjId | k != h
      ensures IsActive(objects', k) == IsActive(objects, k)
      ensures Deref(pool', used', objects', k) == Deref(pool, used, objects, k)
    {
    }
    var before := OffsetsOf(objects, ActiveHandles(objects));
    var after := OffsetsOf(objects', ActiveHandles(objects'));
    forall a, b | a in after && b in after && a < b
      ensures StrEnd(pool', used', a) <= b
    {
      var i :| i in ActiveHandles(objects') && IsActive(objects', i) && objects'[i].poolOffset == a;
      var j :| j in ActiveHandles(objects') && IsActive(objects', j) && objects'[j].poolOffset == b;
      if i == h {
        assert j != h && IsActive(objects, j);
      } else if j == h {
        assert IsActive(objects, i);
      } else {
        assert IsActive(objects, i) && IsActive(objects, j);
        assert a in before && b in before;
      }
    }
  }

  /** A pointer may be registered when it starts a terminated string that no active handle
      overlaps from a different offset. */
  ghost predicate Registrable(pool: seq<byte>, used: nat, objects: ObjectTable, o: nat)
    requires used <= |pool|
  {
    && Terminated(pool, used, o)
    && forall k: ObjId :: IsActive(objects, k) && objects[k].poolOffset != o ==>
         if objects[k].poolOffset < o then StrEnd(pool, used, objects[k].poolOffset) <= o
         else StrEnd(pool, used, o) <= objects[k].poolOffset
  }

  /** Registering a pointer keeps the heap invariant exactly when the pointer is registrable. */
  lemma RegisterIff(pool: seq<byte>, used: nat, objects: ObjectTable, objects': ObjectTable, h: ObjId, o: nat)
    requires used <= |pool| && 0 < h < |objects| && objects' == objects[h := ObjectEntry(o, OBJ_NULL, true)]
    requires !IsActive(objects, h)
    requires AllTerminated(pool, used, objects) && NoOverlap(pool, used, objects)
    ensures AllTerminated(pool, used, objects') && NoOverlap(pool, used, objects')
            <==> Registrable(pool, used, objects, o)
    ensures forall k: ObjId :: k != h ==> Deref(pool, used, objects', k) == Deref(pool, used, objects, k)
    ensures Deref(pool, used, objects', h) == Some(Text(pool, used, o))
  {
    if Registrable(pool, used, objects, o) {
      RegisterKeeps(pool, used, objects, pool, used, objects', h, o);
    } else if AllTerminated(pool, used, objects') && NoOverlap(pool, used, objects') {
      RegisterNeeds(pool, used, objects, objects', h, o);
    }
    assert forall k: ObjId :: k != h ==> IsActive(objects', k) == IsActive(objects, k);
  }

  /** In a valid heap, two handles at different offsets bound each other. */
  lemma RegisterNeeds(pool: seq<byte>, used: nat, objects: ObjectTable, objects': ObjectTable, h: ObjId, o: nat)
    requires used <= |pool| && h < |objects| && objects' == objects[h := ObjectEntry(o, OBJ_NULL, true)]
    requires !IsActive(objects, h)
    requires AllTerminated(pool, used, objects') && NoOverlap(pool, used, objects')
    ensures Registrable(pool, used, objects, o)
  {
    assert IsActive(objects', h);
    forall k: ObjId | IsActive(objects, k) && objects[k].poolOffset != o
      ensures if objects[k].poolOffset < o then StrEnd(pool, used, objects[k].poolOffset) <= o
              else StrEnd(pool, used, o) <= objects[k].poolOffset
    {
      assert IsActive(objects', k) && objects'[k] == objects[k];
      var offsets := OffsetsOf(objects', ActiveHandles(objects'));
      assert o in offsets && objects[k].poolOffset in offsets;
    }
  }

  lemma {:induction false} PrefixIs(src: seq<byte>, len: nat, n: nat)
    requires n <= len && n <= |src| && 0 !in src[..n]
    requires n == len || (n < |src| && src[n] == 0)
    ensures Prefix(src, len) == src[..n]
  {
    if n > 0 {
      assert src[0] == src[..n][0];
      forall x | x in src[1..][..n - 1]
        ensures x in src[..n]
      {
        var i :| 0 <= i < n - 1 && src[1..][..n - 1][i] == x;
        assert src[..n][i + 1] == x;
      }
      PrefixIs(src[1..], len - 1, n - 1);
      assert src[..n] == [src[0]] + src[1..][..n - 1];
    }
  }

  /** A text without NUL, followed by a NUL, is the C string at its address. */
  lemma NewText(pool: seq<byte>, used: nat, o: nat, text: seq<byte>)
    requires o + |text| < used <= |pool| && 0 !in text
    requires pool[o..o + |text|] == text && pool[o + |text|] == 0
    ensures StrEnd(pool, used, o) == o + |text| + 1
    ensures Terminated(pool, used, o) && Text(pool, used, o) == text
  {
    forall k | o <= k < o + |text|
      ensures pool[k] != 0
    {
      assert pool[k] == pool[o..o + |text|][k - o];
    }
    StrEndUnique(pool, used, o, o + |text| + 1);
  }

  /** Reserving bytes without registering them disturbs no string. */
  lemma GrowKeeps(pool: seq<byte>, used: nat, objects: ObjectTable, used': nat)
    requires used <= used' <= |pool|
    requires AllTerminated(pool, used, objects) && NoOverlap(pool, used, objects)
    ensures AllTerminated(pool, used', objects) && NoOverlap(pool, used', objects)
    ensures forall k: ObjId :: Deref(pool, used', objects, k) == Deref(pool, used, objects, k)
  {
    forall k: ObjId | IsActive(objects, k)
      ensures var a := objects[k].poolOffset;
              Terminated(pool, used', a) && StrEnd(pool, used', a) == StrEnd(pool, used, a)
              && Text(pool, used', a) == Text(pool, used, a)
    {
      TextStable(pool, used, pool, used', objects[k].poolOffset);
    }
  }

  lemma CopiedIn(before: seq<byte>, now: seq<byte>, ptr: nat, src: seq<byte>, n: nat)
    requires |now| == |before| && ptr + n < |now| && n <= |src|
    requires forall k :: 0 <= k < ptr ==> now[k] == before[k]
    requires forall k :: ptr <= k < ptr + n ==> now[k] == src[k - ptr]
    requires forall k :: ptr + n < k < |now| ==> now[k] == before[k]
    ensures now[ptr..ptr + n] == src[..n]
    ensures now[..ptr] == before[..ptr] && now[ptr + n + 1..] == before[ptr + n + 1..]
  {
    SlicesAgree(now, ptr, src, 0, n);
  }

  /** Dropping or never having a handle overlaps nothing. */
  lemma FewerHandles(pool: seq<byte>, used: nat, objects: ObjectTable, objects': ObjectTable)
    requires used <= |pool| && |objects'| == |objects|
    requires AllTerminated(pool, used, objects) && NoOverlap(pool, used, objects)
    requires forall k: ObjId :: IsActive(objects', k) ==> IsActive(objects, k) && objects'[k] == objects[k]
    ensures AllTerminated(pool, used, objects') && NoOverlap(pool, used, objects')
  {
    assert OffsetsOf(objects', ActiveHandles(objects')) <= OffsetsOf(objects, ActiveHandles(objects));
  }

  class Heap {
    const stringPool: array<byte>
    const objects: array<ObjectEntry>
    var stringPoolOffset: nat
    var objectCount: nat
    var objectFreeList: ObjId
    ghost var freeSlots: seq<ObjId>

    ghost predicate Shaped()
      reads this, objects
    {
      && stringPool.Length == STRING_POOL_SIZE && objects.Length == MAX_OBJECTS
      && stringPoolOffset <= STRING_POOL_SIZE && objectCount < MAX_OBJECTS
      && (forall h: ObjId :: IsActive(objects[..], h) ==> 0 < h <= objectCount)
      && FreeChain(objects[..], objectCount, objectFreeList, freeSlots)
    }

    /** The heap invariant. */
    ghost predicate Valid()
      reads this, objects, stringPool
    {
      && Shaped()
      && AllTerminated(stringPool[..], stringPoolOffset, objects[..])
      && NoOverlap(stringPool[..], stringPoolOffset, objects[..])
    }

    ghost predicate Conserved()
      reads this, objects
    {
      Partitioned(objects[..], objectCount, freeSlots)
    }

    ghost function StringOf(h: ObjId): Option<seq<byte>>
      requires Shaped()
      reads this, objects, stringPool
    {
      Deref(stringPool[..], stringPoolOffset, objects[..], h)
    }

    /** A fresh kernel: the pool's bytes are arbitrary, the table is empty. */
    constructor ()
      ensures Valid() && Conserved()
      ensures stringPoolOffset == 0 && freeSlots == []
      ensures forall h: ObjId :: StringOf(h) == None
    {
      stringPool := new byte[STRING_POOL_SIZE];
      var table := new ObjectEntry[MAX_OBJECTS](_ => ObjectEntry(0, OBJ_NULL, false));
      objects := table;
      stringPoolOffset, objectCount, objectFreeList := 0, 0, OBJ_NULL;
      freeSlots := [];
    }

    /** Bump allocation: `Some(p)` reserves the `size` bytes from `p` on. */
    method StringPoolAlloc(size: nat) returns (ptr: Option<nat>)
      requires stringPoolOffset <= STRING_POOL_SIZE
      modifies this`stringPoolOffset
      ensures ptr == if old(stringPoolOffset) + size <= STRING_POOL_SIZE then Some(old(stringPoolOffset)) else None
      ensures stringPoolOffset == old(stringPoolOffset) + if ptr.Some? then size else 0
    {
      if stringPoolOffset + size > STRING_POOL_SIZE {
        return None;
      }
      ptr := Some(stringPoolOffset);
      stringPoolOffset := stringPoolOffset + size;
    }

    /** Pop the free list, or extend the table; OBJ_NULL when the table is full. */
    method TakeSlot() returns (slot: ObjId)
      requires Shaped()
      modifies this`objectCount, this`objectFreeList, this`freeSlots
      ensures Shaped()
      ensures old(Conserved()) ==>
                forall h: ObjId :: 0 < h <= objectCount ==> h == slot || IsActive(objects[..], h) || h in freeSlots
      ensures old(objectCount) <= objectCount
      ensures slot == OBJ_NULL ==> objectCount == old(objectCount) && freeSlots == old(freeSlots)
      ensures slot == OBJ_NULL <==> old(freeSlots) == [] && old(objectCount) + 1 == MAX_OBJECTS
      ensures slot != OBJ_NULL ==> 0 < slot <= objectCount && !IsActive(objects[..], slot) && slot !in freeSlots
    {
      if objectFreeList != OBJ_NULL {
        slot := objectFreeList;
        FreeChainPop(objects[..], objectCount, objectFreeList, freeSlots);
        objectFreeList := objects[slot].nextFree;
        freeSlots := freeSlots[1..];
      } else if objectCount + 1 < MAX_OBJECTS {
        objectCount := objectCount + 1;
        slot := objectCount;
      } else {
        slot := OBJ_NULL;
      }
    }

    /** Point a slot taken off the free list at a pool offset. */
    method Install(slot: ObjId, offset: nat)
      requires Shaped() && 0 < slot <= objectCount && !IsActive(objects[..], slot) && slot !in freeSlots
      modifies objects
      ensures objects[..] == old(objects[..])[slot := ObjectEntry(offset, OBJ_NULL, true)]
      ensures Shaped()
    {
      FreeChainFrame(objects[..], objectCount, objectFreeList, freeSlots, slot, ObjectEntry(offset, OBJ_NULL, true));
      ghost var before := objects[..];
      objects[slot] := ObjectEntry(offset, OBJ_NULL, true);
      assert objects[..] == before[slot := ObjectEntry(offset, OBJ_NULL, true)];
      assert forall h: ObjId :: IsActive(objects[..], h) ==> h == slot || IsActive(before, h);
    }

    /** Reserve `size` bytes and a handle for them.  When the table is full the bytes stay reserved. */
    method ObjAlloc(size: nat) returns (h: ObjId)
      requires Shaped()
      modifies this, objects
      ensures Shaped() && (old(Conserved()) ==> Conserved())
      ensures stringPoolOffset == if old(stringPoolOffset) + size <= STRING_POOL_SIZE
                                  then old(stringPoolOffset) + size else old(stringPoolOffset)
      ensures h == OBJ_NULL <==> old(stringPoolOffset) + size > STRING_POOL_SIZE
                                 || (old(freeSlots) == [] && old(objectCount) + 1 == MAX_OBJECTS)
      ensures h == OBJ_NULL ==> objects[..] == old(objects[..])
      ensures h != OBJ_NULL ==> h < MAX_OBJECTS && !IsActive(old(objects[..]), h)
      ensures h != OBJ_NULL ==>
                objects[..] == old(objects[..])[h := ObjectEntry(old(stringPoolOffset), OBJ_NULL, true)]
    {
      var ptr := StringPoolAlloc(size);
      if ptr == None {
        return OBJ_NULL;
      }
      h := TakeSlot();
      if h == OBJ_NULL {
        return;
      }
      Install(h, ptr.value);
      assert forall k: ObjId :: IsActive(objects[..], k) == (k == h || IsActive(old(objects[..]), k));
    }

    /** Copy a C string, or its first `len` characters, into the pool under a new handle. */
    method ObjAllocStr(src: seq<byte>, len: nat) returns (h: ObjId)
      requires Valid() && (len <= |src| || 0 in src)
      modifies this, objects, stringPool
      ensures Valid() && (old(Conserved()) ==> Conserved())
      ensures h == OBJ_NULL <==> old(stringPoolOffset) + len + 1 > STRING_POOL_SIZE
                                 || (old(freeSlots) == [] && old(objectCount) + 1 == MAX_OBJECTS)
      ensures h != OBJ_NULL ==> old(StringOf(h)) == None && StringOf(h) == Some(Prefix(src, len))
      ensures forall k: ObjId :: k != h ==> StringOf(k) == old(StringOf(k))
    {
      ghost var u, pool0, table0 := stringPoolOffset, stringPool[..], objects[..];
      h := ObjAlloc(len + 1);
      if h == OBJ_NULL {
        GrowKeeps(pool0, u, table0, stringPoolOffset);
        return;
      }
      var n := CopyString(objects[h].poolOffset, src, len);
      NewText(stringPool[..], stringPoolOffset, u, Prefix(src, len));
      RegisterKeeps(pool0, u, table0, stringPool[..], stringPoolOffset, objects[..], h, u);
    }

    /** Write the first `len` characters of a C string and a NUL at `ptr`. */
    method CopyString(ptr: nat, src: seq<byte>, len: nat) returns (n: nat)
      requires ptr + len < stringPool.Length && (len <= |src| || 0 in src)
      modifies stringPool
      ensures n == |Prefix(src, len)| && stringPool[ptr..ptr + n] == Prefix(src, len) && stringPool[ptr + n] == 0
      ensures stringPool[..ptr] == old(stringPool[..ptr])
      ensures stringPool[ptr + n + 1..] == old(stringPool[ptr + n + 1..])
    {
      ghost var before := stringPool[..];
      n := 0;
      while n < len && src[n] != 0
        invariant 0 <= n <= len && n <= |src| && 0 !in src[..n]
        invariant forall k :: 0 <= k < ptr ==> stringPool[k] == before[k]
        invariant forall k :: ptr <= k < ptr + n ==> stringPool[k] == src[k - ptr]
        invariant forall k :: ptr + n <= k < stringPool.Length ==> stringPool[k] == before[k]
      {
        stringPool[ptr + n] := src[n];
        n := n + 1;
      }
      PrefixIs(src, len, n);
      stringPool[ptr + n] := 0;
      CopiedIn(before, stringPool[..], ptr, src, n);
    }

    /** The pool offset a handle stands for; `None` is the null pointer. */
    method ObjDeref(h: ObjId) returns (ptr: Option<nat>)
      requires Shaped()
      ensures ptr.Some? <==> StringOf(h).Some?
      ensures ptr.Some? ==> h < MAX_OBJECTS && ptr.value == objects[h].poolOffset && IsActive(objects[..], h)
      ensures ptr.Some? ==> StringOf(h) == Some(Text(stringPool[..], stringPoolOffset, ptr.value))
    {
      if h == OBJ_NULL || h >= MAX_OBJECTS || !objects[h].active {
        return None;
      }
      ptr := Some(objects[h].poolOffset);
    }

    method ObjIsValid(h: ObjId) returns (valid: bool)
      requires Shaped()
      ensures valid <==> StringOf(h).Some?
    {
      valid := h != OBJ_NULL && h < MAX_OBJECTS && objects[h].active;
    }

    /** Give a handle back; its slot becomes the next one to be handed out. */
    method ObjFree(h: ObjId)
      requires Valid()
      modifies this, objects
      ensures Valid() && (old(Conserved()) ==> Conserved())
      ensures StringOf(h) == None
      ensures forall k: ObjId :: k != h ==> StringOf(k) == old(StringOf(k))
      ensures freeSlots == if old(StringOf(h)) == None then old(freeSlots) else [h] + old(freeSlots)
      ensures stringPoolOffset == old(stringPoolOffset) && objectCount == old(objectCount)
    {
      if h == OBJ_NULL || h >= MAX_OBJECTS || !objects[h].active {
        return;
      }
      ghost var table0 := objects[..];
      assert IsActive(table0, h);
      FreeChainPush(objects[..], objectCount, objectFreeList, freeSlots, h);
      objects[h] := objects[h].(active := false);
      objects[h] := objects[h].(poolOffset := 0);
      objects[h] := objects[h].(nextFree := objectFreeList);
      objectFreeList := h;
      freeSlots := [h] + freeSlots;
      assert objects[..] == table0[h := objects[h]];
      assert forall k: ObjId :: IsActive(objects[..], k) == (k != h && IsActive(table0, k));
      FewerHandles(stringPool[..], stringPoolOffset, table0, objects[..]);
    }

    /** Register a pointer, given as its distance from the start of the pool.  Pointers outside the
        used pool, also those below it, get no handle. */
    method ObjRegisterPtr(ptr: Option<int>) returns (h: ObjId)
      requires Valid() && (ptr.Some? ==> -0x8000_0000 <= ptr.value < 0x8000_0000)
      modifies this, objects
      ensures Shaped() && (old(Conserved()) ==> Conserved())
      ensures h == OBJ_NULL <==> ptr == None || ptr.value < 0 || ptr.value >= old(stringPoolOffset)
                                 || (old(freeSlots) == [] && old(objectCount) + 1 == MAX_OBJECTS)
      ensures h == OBJ_NULL ==> Valid()
      ensures h != OBJ_NULL ==>
                (Valid() <==> Registrable(stringPool[..], stringPoolOffset, old(objects[..]), ptr.value))
      ensures h != OBJ_NULL ==> old(StringOf(h)) == None
      ensures h != OBJ_NULL ==> StringOf(h) == Some(Text(stringPool[..], stringPoolOffset, ptr.value))
      ensures forall k: ObjId :: k != h ==> StringOf(k) == old(StringOf(k))
      ensures stringPoolOffset == old(stringPoolOffset)
    {
      if ptr == None {
        return OBJ_NULL;
      }
      var offset: nat := ptr.value % 0x1_0000_0000;
      if offset >= stringPoolOffset {
        return OBJ_NULL;
      }
      ghost var table0 := objects[..];
      h := TakeSlot();
      if h == OBJ_NULL {
        return;
      }
      Install(h, offset);
      assert forall k: ObjId :: IsActive(objects[..], k) == (k == h || IsActive(table0, k));
      RegisterIff(stringPool[..], stringPoolOffset, table0, objects[..], h, offset);
    }

    /** What every handle stands for. */
    ghost function DerefAll(): (deref: ObjId -> Option<seq<byte>>)
      requires Shaped()
      reads this, objects, stringPool
      ensures forall h: ObjId :: deref(h) == StringOf(h)
    {
      var pool, used, table := stringPool[..], stringPoolOffset, objects[..];
      (h: ObjId) => Deref(pool, used, table, h)
    }

    /** C string comparison of two pool pointers. */
    method CStrEq(a: nat, b: nat) returns (equal: bool)
      requires stringPoolOffset <= stringPool.Length
      requires Terminated(stringPool[..], stringPoolOffset, a) && Terminated(stringPool[..], stringPoolOffset, b)
      ensures equal <==> Text(stringPool[..], stringPoolOffset, a) == Text(stringPool[..], stringPoolOffset, b)
    {
      ghost var pool, used := stringPool[..], stringPoolOffset;
      ghost var n, m := StrEnd(pool, used, a) - 1 - a, StrEnd(pool, used, b) - 1 - b;
      StrEndScan(pool, used, a);
      StrEndScan(pool, used, b);
      var i := 0;
      while stringPool[a + i] != 0 && stringPool[b + i] != 0
        invariant 0 <= i <= n && i <= m
        invariant forall k :: 0 <= k < i ==> Text(pool, used, a)[k] == Text(pool, used, b)[k]
        decreases n - i
      {
        if stringPool[a + i] != stringPool[b + i] {
          assert Text(pool, used, a)[i] != Text(pool, used, b)[i];
          return false;
        }
        i := i + 1;
      }
      equal := stringPool[a + i] == stringPool[b + i];
      if equal {
        assert i == n == m;
      } else {
        assert n != m;
      }
    }

    /** C string comparison through handles: two null pointers are equal, null equals no string. */
    method TextEqual(x: ObjId, y: ObjId) returns (equal: bool)
      requires Valid()
      ensures equal <==> StringOf(x) == StringOf(y)
    {
      var a := ObjDeref(x);
      var b := ObjDeref(y);
      if a == None || b == None {
        return a == b;
      }
      equal := CStrEq(a.value, b.value);
    }
  }
}
