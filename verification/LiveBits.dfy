/** The collector's bit vector of live handles. */
module LiveBits {
  import opened StringHeap
  import opened Roots

  predicate Bit(x: bv8, i: nat)
    requires i < 8
  {
    (x >> i) & 1 == 1
  }

  lemma SettingABit(x: bv8, i: nat, j: nat)
    requires i < 8 && j < 8
    ensures Bit(x | (1 << i), j) == (i == j || Bit(x, j))
  {
    assert i == 0 || i == 1 || i == 2 || i == 3 || i == 4 || i == 5 || i == 6 || i == 7;
    assert j == 0 || j == 1 || j == 2 || j == 3 || j == 4 || j == 5 || j == 6 || j == 7;
  }

  lemma NoBits(j: nat)
    requires j < 8
    ensures !Bit(0, j)
  {
  }

  class Marker {
    const heap: Heap
    const bits: array<bv8>

    ghost predicate Ready()
      reads heap, heap.objects
    {
      heap.objects.Length == MAX_OBJECTS && bits.Length == MAX_OBJECTS / 8
    }

    ghost predicate Live(h: ObjId)
      requires bits.Length == MAX_OBJECTS / 8
      reads bits
    {
      h < MAX_OBJECTS && Bit(bits[h / 8], h % 8)
    }

    /** A handle that marking may set: in range, not null, in use. */
    ghost predicate Markable(h: ObjId)
      reads heap.objects
    {
      h != OBJ_NULL && IsActive(heap.objects[..], h)
    }

    constructor (heap: Heap)
      requires heap.objects.Length == MAX_OBJECTS
      ensures this.heap == heap && fresh(bits) && Ready()
    {
      this.heap := heap;
      bits := new bv8[MAX_OBJECTS / 8];
    }

    method Clear()
      requires Ready()
      modifies bits
      ensures forall h: ObjId :: !Live(h)
    {
      for i := 0 to bits.Length
        invariant forall k :: 0 <= k < i ==> bits[k] == 0
      {
        bits[i] := 0;
      }
      forall h: ObjId | h < MAX_OBJECTS
        ensures !Live(h)
      {
        NoBits(h % 8);
      }
    }

    /** `Live` now holds of what it held of before, and of the markable handles in `hs`. */
    twostate predicate Marks(hs: set<ObjId>)
      requires bits.Length == MAX_OBJECTS / 8
      reads bits, heap.objects
    {
      forall k: ObjId :: Live(k) <==> old(Live(k)) || (k in hs && Markable(k))
    }

    method MarkLive(h: ObjId)
      requires Ready()
      modifies bits
      ensures Marks({h})
    {
      if h == OBJ_NULL || h >= MAX_OBJECTS || !heap.objects[h].active {
        return;
      }
      bits[h / 8] := bits[h / 8] | (1 << (h % 8));
      forall k: ObjId | k < MAX_OBJECTS
        ensures Live(k) <==> old(Live(k)) || k == h
      {
        SettingABit(old(bits[h / 8]), h % 8, k % 8);
      }
    }

    method IsLive(h: ObjId) returns (live: bool)
      requires Ready()
      ensures live <==> h != OBJ_NULL && Live(h)
    {
      if h == OBJ_NULL || h >= MAX_OBJECTS {
        return false;
      }
      live := (bits[h / 8] >> (h % 8)) & 1 == 1;
    }

    method MarkValue(v: Value)
      requires Ready()
      modifies bits
      ensures Marks(ValueHandles(v))
    {
      if !v.isId || v.objVal == OBJ_NULL {
        return;
      }
      MarkLive(v.objVal);
    }

    method MarkValues(vs: seq<Value>)
      requires Ready()
      modifies bits
      ensures Marks(ValuesHandles(vs))
    {
      for i := 0 to |vs|
        invariant Marks(ValuesHandles(vs[..i]))
      {
        HandlesInNext(vs, v => ValueHandles(v), i);
        MarkValue(vs[i]);
      }
      assert vs[..|vs|] == vs;
    }

    method MarkInstanceVars(vs: seq<InstanceVar>)
      requires Ready()
      modifies bits
      ensures Marks(HandlesIn(vs, v => InstanceVarHandles(v)))
    {
      for i := 0 to |vs|
        invariant Marks(HandlesIn(vs[..i], v => InstanceVarHandles(v)))
      {
        HandlesInNext(vs, v => InstanceVarHandles(v), i);
        MarkLive(vs[i].owner);
        MarkValue(vs[i].value);
      }
      assert vs[..|vs|] == vs;
    }

    method MarkEntries(es: seq<CollEntry>)
      requires Ready()
      modifies bits
      ensures Marks(HandlesIn(es, e => EntryHandles(e)))
    {
      for i := 0 to |es|
        invariant Marks(HandlesIn(es[..i], e => EntryHandles(e)))
      {
        HandlesInNext(es, e => EntryHandles(e), i);
        MarkValue(es[i].key);
        MarkValue(es[i].value);
      }
      assert es[..|es|] == es;
    }

    method MarkCaptures(cs: seq<seq<Value>>)
      requires Ready()
      modifies bits
      ensures Marks(HandlesIn(cs, vs => ValuesHandles(vs)))
    {
      for i := 0 to |cs|
        invariant Marks(HandlesIn(cs[..i], vs => ValuesHandles(vs)))
      {
        HandlesInNext(cs, vs => ValuesHandles(vs), i);
        MarkValues(cs[i]);
      }
      assert cs[..|cs|] == cs;
    }

    method MarkInvocations(vs: seq<Invocation>)
      requires Ready()
      modifies bits
      ensures Marks(HandlesIn(vs, v => InvocationHandles(v)))
    {
      for i := 0 to |vs|
        invariant Marks(HandlesIn(vs[..i], v => InvocationHandles(v)))
      {
        HandlesInNext(vs, v => InvocationHandles(v), i);
        MarkLive(vs[i].receiver);
        MarkValues(vs[i].args);
      }
      assert vs[..|vs|] == vs;
    }

    method MarkAssociations(vs: seq<Association>)
      requires Ready()
      modifies bits
      ensures Marks(HandlesIn(vs, a => AssociationHandles(a)))
    {
      for i := 0 to |vs|
        invariant Marks(HandlesIn(vs[..i], a => AssociationHandles(a)))
      {
        HandlesInNext(vs, a => AssociationHandles(a), i);
        MarkLive(vs[i].target);
        MarkValue(vs[i].value);
      }
      assert vs[..|vs|] == vs;
    }

    method MarkObservers(vs: seq<KvoObserver>)
      requires Ready()
      modifies bits
      ensures Marks(HandlesIn(vs, o => ObserverHandles(o)))
    {
      for i := 0 to |vs|
        invariant Marks(HandlesIn(vs[..i], o => ObserverHandles(o)))
      {
        HandlesInNext(vs, o => ObserverHandles(o), i);
        MarkLive(vs[i].target);
        MarkLive(vs[i].observer);
      }
      assert vs[..|vs|] == vs;
    }

    method MarkPools(ps: seq<seq<ObjId>>)
      requires Ready()
      modifies bits
      ensures Marks(HandlesIn(ps, markers => PoolHandles(markers)))
    {
      for i := 0 to |ps|
        invariant Marks(HandlesIn(ps[..i], markers => PoolHandles(markers)))
      {
        HandlesInNext(ps, markers => PoolHandles(markers), i);
        label Before:
        for j := 0 to |ps[i]|
          invariant Marks@Before(PoolHandles(ps[i][..j]))
        {
          HandlesInNext(ps[i], h => {h}, j);
          MarkLive(ps[i][j]);
        }
        assert ps[i][..|ps[i]|] == ps[i];
      }
      assert ps[..|ps|] == ps;
    }

    /** Walk every root table. */
    method MarkRoots(r: RootTables)
      requires Ready()
      modifies bits
      ensures Marks(RootHandles(r))
    {
      MarkValues(r.vars);
      MarkValue(r.returnValue);
      MarkInstanceVars(r.instanceVars);
      MarkEntries(r.collEntries);
      MarkCaptures(r.blockCaptures);
      MarkInvocations(UsedInvocations(r));
      MarkAssociations(r.associations);
      MarkObservers(r.kvoObservers);
      MarkValue(r.currentException);
      MarkPools(r.pools);
    }
  }
}
