/** The interpreter tables whose handles keep strings alive. */
module Roots {
  import opened StringHeap

  /** The parts of an interpreter value that matter to the collector and to key comparison. */
  datatype Value = Value(isId: bool, objVal: ObjId, isInt: bool, intVal: int)

  datatype InstanceVar = InstanceVar(owner: ObjId, value: Value)
  datatype CollEntry = CollEntry(collId: nat, key: Value, value: Value)
  datatype Invocation = Invocation(receiver: ObjId, args: seq<Value>)
  datatype Association = Association(target: ObjId, value: Value)
  datatype KvoObserver = KvoObserver(target: ObjId, observer: ObjId)

  /** A snapshot of the root tables, each cut to its count.  `invocations` is the whole array of
      which the first `nextInvocationId` slots are in use. */
  datatype RootTables = RootTables(
    vars: seq<Value>,
    returnValue: Value,
    instanceVars: seq<InstanceVar>,
    collEntries: seq<CollEntry>,
    blockCaptures: seq<seq<Value>>,
    invocations: seq<Invocation>,
    nextInvocationId: nat,
    associations: seq<Association>,
    kvoObservers: seq<KvoObserver>,
    currentException: Value,
    pools: seq<seq<ObjId>>
  )

  function ValueHandles(v: Value): set<ObjId> {
    if v.isId then {v.objVal} else {}
  }

  /** All handles mentioned by the rows of a table. */
  function HandlesIn<R>(rows: seq<R>, handles: R -> set<ObjId>): set<ObjId> {
    if rows == [] then {} else HandlesIn(rows[..|rows| - 1], handles) + handles(rows[|rows| - 1])
  }

  lemma HandlesInNext<R>(rows: seq<R>, handles: R -> set<ObjId>, i: nat)
    requires i < |rows|
    ensures HandlesIn(rows[..i + 1], handles) == HandlesIn(rows[..i], handles) + handles(rows[i])
  {
    assert rows[..i + 1][..i] == rows[..i];
  }

  lemma {:induction false} HandlesInIff<R>(rows: seq<R>, handles: R -> set<ObjId>, h: ObjId)
    ensures h in HandlesIn(rows, handles) <==> exists i :: 0 <= i < |rows| && h in handles(rows[i])
  {
    if rows != [] {
      var front := rows[..|rows| - 1];
      HandlesInIff(front, handles, h);
      assert forall i :: 0 <= i < |front| ==> front[i] == rows[i];
    }
  }

  lemma ValuesHandlesIff(vs: seq<Value>, h: ObjId)
    ensures h in ValuesHandles(vs) <==> exists i :: 0 <= i < |vs| && vs[i].isId && vs[i].objVal == h
  {
    HandlesInIff(vs, v => ValueHandles(v), h);
  }

  function ValuesHandles(vs: seq<Value>): set<ObjId> {
    HandlesIn(vs, v => ValueHandles(v))
  }

  function InstanceVarHandles(v: InstanceVar): set<ObjId> {
    {v.owner} + ValueHandles(v.value)
  }

  function EntryHandles(e: CollEntry): set<ObjId> {
    ValueHandles(e.key) + ValueHandles(e.value)
  }

  function InvocationHandles(v: Invocation): set<ObjId> {
    {v.receiver} + ValuesHandles(v.args)
  }

  function AssociationHandles(a: Association): set<ObjId> {
    {a.target} + ValueHandles(a.value)
  }

  function ObserverHandles(o: KvoObserver): set<ObjId> {
    {o.target, o.observer}
  }

  function PoolHandles(markers: seq<ObjId>): set<ObjId> {
    HandlesIn(markers, h => {h})
  }

  function UsedInvocations(r: RootTables): seq<Invocation> {
    r.invocations[..if r.nextInvocationId < |r.invocations| then r.nextInvocationId else |r.invocations|]
  }

  /** Every handle that some root table mentions. */
  function RootHandles(r: RootTables): set<ObjId> {
    ValuesHandles(r.vars)
    + ValueHandles(r.returnValue)
    + HandlesIn(r.instanceVars, v => InstanceVarHandles(v))
    + HandlesIn(r.collEntries, e => EntryHandles(e))
    + HandlesIn(r.blockCaptures, vs => ValuesHandles(vs))
    + HandlesIn(UsedInvocations(r), v => InvocationHandles(v))
    + HandlesIn(r.associations, a => AssociationHandles(a))
    + HandlesIn(r.kvoObservers, o => ObserverHandles(o))
    + ValueHandles(r.currentException)
    + HandlesIn(r.pools, markers => PoolHandles(markers))
  }

  /** The handles a collection keeps: those in use that some root mentions. */
  ghost function Kept(objects: ObjectTable, r: RootTables): set<ObjId> {
    set h | h in RootHandles(r) && h != OBJ_NULL && IsActive(objects, h)
  }

  lemma CapturesIff(blocks: seq<seq<Value>>, h: ObjId)
    ensures h in HandlesIn(blocks, vs => ValuesHandles(vs))
       <==> exists i, j :: 0 <= i < |blocks| && 0 <= j < |blocks[i]| && blocks[i][j].isId && blocks[i][j].objVal == h
  {
    HandlesInIff(blocks, vs => ValuesHandles(vs), h);
    forall i | 0 <= i < |blocks| {
      ValuesHandlesIff(blocks[i], h);
    }
  }

  lemma InvocationsIff(vs: seq<Invocation>, h: ObjId)
    ensures h in HandlesIn(vs, v => InvocationHandles(v))
       <==> || (exists i :: 0 <= i < |vs| && vs[i].receiver == h)
            || (exists i, j :: 0 <= i < |vs| && 0 <= j < |vs[i].args| &&
                  vs[i].args[j].isId && vs[i].args[j].objVal == h)
  {
    HandlesInIff(vs, v => InvocationHandles(v), h);
    forall i | 0 <= i < |vs| {
      ValuesHandlesIff(vs[i].args, h);
    }
  }

  lemma PoolsIff(pools: seq<seq<ObjId>>, h: ObjId)
    ensures h in HandlesIn(pools, markers => PoolHandles(markers))
       <==> exists i, j :: 0 <= i < |pools| && 0 <= j < |pools[i]| && pools[i][j] == h
  {
    HandlesInIff(pools, markers => PoolHandles(markers), h);
    forall i | 0 <= i < |pools| {
      HandlesInIff(pools[i], m => {m}, h);
    }
  }

  lemma RowsIff(r: RootTables, h: ObjId)
    ensures h in HandlesIn(r.instanceVars, v => InstanceVarHandles(v))
       <==> exists i :: 0 <= i < |r.instanceVars|
              && (|| r.instanceVars[i].owner == h
                  || (r.instanceVars[i].value.isId && r.instanceVars[i].value.objVal == h))
    ensures h in HandlesIn(r.collEntries, e => EntryHandles(e))
       <==> exists i :: 0 <= i < |r.collEntries|
              && (|| (r.collEntries[i].key.isId && r.collEntries[i].key.objVal == h)
                  || (r.collEntries[i].value.isId && r.collEntries[i].value.objVal == h))
    ensures h in HandlesIn(r.associations, a => AssociationHandles(a))
       <==> exists i :: 0 <= i < |r.associations|
              && (|| r.associations[i].target == h
                  || (r.associations[i].value.isId && r.associations[i].value.objVal == h))
    ensures h in HandlesIn(r.kvoObservers, o => ObserverHandles(o))
       <==> exists i :: 0 <= i < |r.kvoObservers|
              && (r.kvoObservers[i].target == h || r.kvoObservers[i].observer == h)
  {
    HandlesInIff(r.instanceVars, v => InstanceVarHandles(v), h);
    HandlesInIff(r.collEntries, e => EntryHandles(e), h);
    HandlesInIff(r.associations, a => AssociationHandles(a), h);
    HandlesInIff(r.kvoObservers, o => ObserverHandles(o), h);
  }

  /** A handle is kept if and only if it is in use, not null, and some row of some table holds it.  Of
      the invocation slots only those in use count. */
  lemma KeptIff(objects: ObjectTable, r: RootTables, h: ObjId)
    ensures h in Kept(objects, r) <==>
            && h != 0 && h < |objects| && objects[h].active
            && (|| (exists i :: 0 <= i < |r.vars| && r.vars[i].isId && r.vars[i].objVal == h)
                || (r.returnValue.isId && r.returnValue.objVal == h)
                || (exists i :: 0 <= i < |r.instanceVars| &&
                      (|| r.instanceVars[i].owner == h
                       || (r.instanceVars[i].value.isId && r.instanceVars[i].value.objVal == h)))
                || (exists i :: 0 <= i < |r.collEntries| &&
                      (|| (r.collEntries[i].key.isId && r.collEntries[i].key.objVal == h)
                       || (r.collEntries[i].value.isId && r.collEntries[i].value.objVal == h)))
                || (exists i, j :: 0 <= i < |r.blockCaptures| && 0 <= j < |r.blockCaptures[i]| &&
                      r.blockCaptures[i][j].isId && r.blockCaptures[i][j].objVal == h)
                || (exists i :: 0 <= i < r.nextInvocationId && i < |r.invocations| &&
                      r.invocations[i].receiver == h)
                || (exists i, j :: 0 <= i < r.nextInvocationId && i < |r.invocations| &&
                      0 <= j < |r.invocations[i].args| &&
                      r.invocations[i].args[j].isId && r.invocations[i].args[j].objVal == h)
                || (exists i :: 0 <= i < |r.associations| &&
                      (|| r.associations[i].target == h
                       || (r.associations[i].value.isId && r.associations[i].value.objVal == h)))
                || (exists i :: 0 <= i < |r.kvoObservers| &&
                      (r.kvoObservers[i].target == h || r.kvoObservers[i].observer == h))
                || (r.currentException.isId && r.currentException.objVal == h)
                || (exists i, j :: 0 <= i < |r.pools| && 0 <= j < |r.pools[i]| && r.pools[i][j] == h))
  {
    hide HandlesIn, ValuesHandles, InvocationHandles, PoolHandles, InstanceVarHandles, EntryHandles,
         AssociationHandles, ObserverHandles;
    var used := UsedInvocations(r);
    ValuesHandlesIff(r.vars, h);
    RowsIff(r, h);
    CapturesIff(r.blockCaptures, h);
    InvocationsIff(used, h);
    PoolsIff(r.pools, h);
    assert forall i :: 0 <= i < r.nextInvocationId && i < |r.invocations| ==> used[i] == r.invocations[i];
  }
}
