/** Collection handles: a slot index in the low half, the slot's generation in the high half. */
module CollectionIds {
  import opened Int32
  import Numerals

  const MAX_COLLECTIONS: nat := 64
  const TWO_16: nat := 0x1_0000

  /** The slot tables. `freeList` and `freeNext` use -1 for "none". */
  datatype IdTable = IdTable(
    nextId: nat, generation: seq<nat>, active: seq<bool>, freeList: int, freeNext: seq<int>)

  /** `(generation << 16) | slot` in 32-bit arithmetic. */
  function IdOf(generation: nat, slot: nat): nat
    requires slot < TWO_16
  {
    (generation * TWO_16) % TWO32 + slot
  }

  function SlotOf(id: nat): nat {
    id % TWO_16
  }

  function GenerationOf(id: nat): nat {
    (id / TWO_16) % TWO_16
  }

  lemma IdParts(generation: nat, slot: nat)
    requires slot < TWO_16
    ensures IdOf(generation, slot) == (generation % TWO_16) * TWO_16 + slot < TWO32
    ensures SlotOf(IdOf(generation, slot)) == slot
    ensures GenerationOf(IdOf(generation, slot)) == generation % TWO_16
  {
    var q, m := generation / TWO_16, generation % TWO_16;
    assert generation * TWO_16 == TWO32 * q + m * TWO_16;
    Numerals.DivModUnique(TWO32, q, m * TWO_16);
    Numerals.DivModUnique(TWO_16, m, slot);
  }

  lemma IdRebuilt(id: nat)
    requires id < TWO32
    ensures SlotOf(id) < TWO_16 && IdOf(GenerationOf(id), SlotOf(id)) == id
  {
  }

  lemma NextGeneration(destroys: nat)
    ensures Wrapped(Wrapped(destroys) + 1) == Wrapped(destroys + 1)
  {
  }

  predicate Shaped(t: IdTable) {
    && |t.generation| == |t.active| == |t.freeNext| == MAX_COLLECTIONS
    && 1 <= t.nextId <= MAX_COLLECTIONS && -1 <= t.freeList < MAX_COLLECTIONS
    && (forall s :: 0 <= s < MAX_COLLECTIONS ==> -1 <= t.freeNext[s] < MAX_COLLECTIONS)
  }

  function LinkAt(chain: seq<nat>, i: nat): int {
    if i < |chain| then chain[i] else -1
  }

  /** The free list starting at `head` visits exactly `chain`: distinct, inactive, handed out before. */
  predicate FreeChain(links: seq<int>, active: seq<bool>, nextId: nat, head: int, chain: seq<nat>)
    requires |links| == |active| == MAX_COLLECTIONS && nextId <= MAX_COLLECTIONS
  {
    && head == LinkAt(chain, 0)
    && (forall i, j :: 0 <= i < j < |chain| ==> chain[i] != chain[j])
    && (forall i :: 0 <= i < |chain| ==> 1 <= chain[i] < nextId && !active[chain[i]])
    && (forall i {:trigger links[chain[i]]} :: 0 <= i < |chain| ==> links[chain[i]] == LinkAt(chain, i + 1))
  }

  /** The slots handed out so far are the active ones plus the free list, which visits `chain`. */
  predicate Partitioned(t: IdTable, chain: seq<nat>)
    requires Shaped(t)
  {
    && FreeChain(t.freeNext, t.active, t.nextId, t.freeList, chain)
    && (forall s :: 0 <= s < MAX_COLLECTIONS && t.active[s] ==> 1 <= s < t.nextId)
    && (forall s :: 1 <= s < t.nextId ==> t.active[s] || s in chain)
  }

  lemma ChainPop(links: seq<int>, active: seq<bool>, nextId: nat, head: int, chain: seq<nat>)
    requires |links| == |active| == MAX_COLLECTIONS && nextId <= MAX_COLLECTIONS
    requires FreeChain(links, active, nextId, head, chain) && chain != []
    ensures 1 <= head < nextId && head == chain[0] && head !in chain[1..]
    ensures FreeChain(links, active, nextId, links[head], chain[1..])
  {
    var rest := chain[1..];
    forall i | 0 <= i < |rest|
      ensures links[rest[i]] == LinkAt(rest, i + 1)
    {
      assert rest[i] == chain[i + 1] && LinkAt(rest, i + 1) == LinkAt(chain, i + 2);
    }
  }

  lemma ChainPush(links: seq<int>, active: seq<bool>, nextId: nat, head: int, chain: seq<nat>, slot: nat)
    requires |links| == |active| == MAX_COLLECTIONS && nextId <= MAX_COLLECTIONS
    requires FreeChain(links, active, nextId, head, chain) && 1 <= slot < nextId && active[slot]
    ensures FreeChain(links[slot := head], active[slot := false], nextId, slot, [slot] + chain)
  {
    var chain' := [slot] + chain;
    var links' := links[slot := head];
    forall i | 0 <= i < |chain'|
      ensures links'[chain'[i]] == LinkAt(chain', i + 1)
    {
      if i > 0 {
        assert chain'[i] == chain[i - 1] && LinkAt(chain', i + 1) == LinkAt(chain, i);
      }
    }
  }

  lemma ChainActivate(links: seq<int>, active: seq<bool>, nextId: nat, nextId': nat, head: int, chain: seq<nat>,
                      slot: nat)
    requires |links| == |active| == MAX_COLLECTIONS && nextId <= nextId' <= MAX_COLLECTIONS
    requires FreeChain(links, active, nextId, head, chain) && slot < MAX_COLLECTIONS && slot !in chain
    ensures FreeChain(links, active[slot := true], nextId', head, chain)
  {
  }

  /** How often a slot has been handed out, when it has been given back `destroys[s]` times. */
  function Uses(t: IdTable, destroys: seq<nat>, s: nat): nat
    requires s < |destroys| && s < |t.active|
  {
    destroys[s] + if t.active[s] then 1 else 0
  }

  ghost predicate WasIssued(t: IdTable, destroys: seq<nat>, id: nat)
    requires Shaped(t) && |destroys| == MAX_COLLECTIONS
  {
    exists s: nat, g: nat :: 1 <= s < t.nextId && g < Uses(t, destroys, s) && id == IdOf(g, s)
  }

  ghost predicate IssuedExactly(t: IdTable, destroys: seq<nat>, issued: set<nat>)
    requires Shaped(t) && |destroys| == MAX_COLLECTIONS
  {
    forall id: nat :: id in issued <==> WasIssued(t, destroys, id)
  }

  /** The generation counters count destroys, modulo their width. */
  predicate Counted(generation: seq<nat>, destroys: seq<nat>) {
    && |generation| == |destroys|
    && forall s :: 0 <= s < |destroys| ==> generation[s] == Wrapped(destroys[s])
  }

  function Wrapped(n: nat): nat {
    n % TWO32
  }

  /** The history of a reachable table: `destroys` counts how often each slot was given back,
      `issued` is the set of all ids ever returned by a create. */
  ghost predicate Reachable(t: IdTable, chain: seq<nat>, destroys: seq<nat>, issued: set<nat>) {
    && Shaped(t) && Partitioned(t, chain) && |destroys| == MAX_COLLECTIONS
    && Counted(t.generation, destroys)
    && (forall s :: t.nextId <= s < MAX_COLLECTIONS ==> destroys[s] == 0)
    && IssuedExactly(t, destroys, issued)
  }

  function Repeat<T>(n: nat, x: T): (s: seq<T>)
    ensures |s| == n && forall i :: 0 <= i < n ==> s[i] == x
  {
    if n == 0 then [] else Repeat(n - 1, x) + [x]
  }

  function Initial(): IdTable {
    IdTable(1, Repeat(MAX_COLLECTIONS, 0), Repeat(MAX_COLLECTIONS, false), -1, Repeat(MAX_COLLECTIONS, -1))
  }

  lemma InitialReachable()
    ensures Reachable(Initial(), [], Repeat(MAX_COLLECTIONS, 0), {})
  {
  }

  /** What a create leaves behind and returns. */
  datatype Created = Created(table: IdTable, id: nat)

  /** The slot a create takes: the head of the free list, else the next unused one, else none. */
  function TakeSlot(t: IdTable): (IdTable, int)
    requires Shaped(t)
  {
    if t.freeList >= 0 then (t.(freeList := t.freeNext[t.freeList]), t.freeList)
    else if t.nextId < MAX_COLLECTIONS then
      (t.(nextId := t.nextId + 1, generation := t.generation[t.nextId := 0]), t.nextId)
    else (t, -1)
  }

  /** Create a collection; id 0 when the table is full. */
  function CreateNew(t: IdTable): (r: Created)
    requires Shaped(t)
    ensures Shaped(r.table)
  {
    var (t1, slot) := TakeSlot(t);
    if slot < 0 then Created(t, 0)
    else Created(t1.(active := t1.active[slot := true]), IdOf(t1.generation[slot], slot))
  }

  /** Give a collection's slot back.  Only the slot part of the id is looked at. */
  function Destroy(t: IdTable, id: nat): (t': IdTable)
    requires Shaped(t)
    ensures Shaped(t')
  {
    var slot := SlotOf(id);
    if slot >= t.nextId || !t.active[slot] then t
    else t.(generation := t.generation[slot := Wrapped(t.generation[slot] + 1)],
            active := t.active[slot := false],
            freeNext := t.freeNext[slot := t.freeList],
            freeList := slot)
  }

  ghost function LiveIds(t: IdTable): set<nat>
    requires Shaped(t)
  {
    set s | 0 <= s < MAX_COLLECTIONS && t.active[s] :: IdOf(t.generation[s], s)
  }

  function Rest(chain: seq<nat>): seq<nat> {
    if chain == [] then [] else chain[1..]
  }

  /** A create that took slot `SlotOf(id)`. */
  predicate TookSlot(t: IdTable, destroys: seq<nat>, t': IdTable, id: nat)
    requires Shaped(t) && Shaped(t') && |destroys| == MAX_COLLECTIONS
  {
    var slot := SlotOf(id);
    && 1 <= slot < t'.nextId
    && (t'.nextId == t.nextId || (slot == t.nextId && t'.nextId == t.nextId + 1))
    && !t.active[slot] && t'.active == t.active[slot := true]
    && id == IdOf(t'.generation[slot], slot)
    && t'.generation == t.generation[slot := Wrapped(destroys[slot])]
  }

  /** Where a create finds its slot. */
  lemma CreateSlot(t: IdTable, chain: seq<nat>, destroys: seq<nat>, issued: set<nat>)
    requires Reachable(t, chain, destroys, issued)
    ensures CreateNew(t).id == 0 <==> forall s :: 1 <= s < MAX_COLLECTIONS ==> t.active[s]
    ensures CreateNew(t).id == 0 ==> CreateNew(t).table == t
    ensures CreateNew(t).id != 0 ==> TookSlot(t, destroys, CreateNew(t).table, CreateNew(t).id)
  {
    var (t1, slot) := TakeSlot(t);
    if slot >= 0 {
      IdParts(t1.generation[slot], slot);
      if chain != [] {
        ChainPop(t.freeNext, t.active, t.nextId, t.freeList, chain);
      }
      assert 1 <= slot < MAX_COLLECTIONS && !t.active[slot];
    } else {
      assert chain == [];
    }
  }

  lemma CreatePartition(t: IdTable, chain: seq<nat>)
    requires Shaped(t) && Partitioned(t, chain) && CreateNew(t).id != 0
    ensures Partitioned(CreateNew(t).table, Rest(chain))
  {
    var t' := CreateNew(t).table;
    if chain != [] {
      var slot := t.freeList;
      ChainPop(t.freeNext, t.active, t.nextId, slot, chain);
      ChainActivate(t.freeNext, t.active, t.nextId, t.nextId, t.freeNext[slot], chain[1..], slot);
      assert chain == [slot] + chain[1..];
    } else {
      ChainActivate(t.freeNext, t.active, t.nextId, t.nextId + 1, t.freeList, chain, t.nextId);
    }
  }

  /** Taking a slot into use adds exactly its next id to the ids ever issued. */
  lemma UseIssues(t: IdTable, t': IdTable, destroys: seq<nat>, slot: nat, id: nat)
    requires Shaped(t) && Shaped(t') && |destroys| == MAX_COLLECTIONS
    requires 1 <= slot < t'.nextId && !t.active[slot] && t'.active == t.active[slot := true]
    requires t'.nextId == t.nextId || (slot == t.nextId && t'.nextId == t.nextId + 1 && destroys[slot] == 0)
    ensures WasIssued(t', destroys, id) <==> WasIssued(t, destroys, id) || id == IdOf(destroys[slot], slot)
  {
    if WasIssued(t, destroys, id) {
      var s: nat, g: nat :| 1 <= s < t.nextId && g < Uses(t, destroys, s) && id == IdOf(g, s);
      assert g < Uses(t', destroys, s);
    }
    if id == IdOf(destroys[slot], slot) {
      assert destroys[slot] < Uses(t', destroys, slot);
    }
    if WasIssued(t', destroys, id) {
      var s: nat, g: nat :| 1 <= s < t'.nextId && g < Uses(t', destroys, s) && id == IdOf(g, s);
      if !(s == slot && g == destroys[slot]) {
        assert s < t.nextId && g < Uses(t, destroys, s);
      }
    }
  }

  /** The next id of a slot is new exactly while the slot has been given back fewer than 65536 times. */
  lemma NextIdNew(t: IdTable, destroys: seq<nat>, slot: nat)
    requires Shaped(t) && |destroys| == MAX_COLLECTIONS && 1 <= slot < MAX_COLLECTIONS && !t.active[slot]
    requires t.nextId <= slot ==> destroys[slot] == 0
    ensures WasIssued(t, destroys, IdOf(destroys[slot], slot)) <==> destroys[slot] >= TWO_16
  {
    var id := IdOf(destroys[slot], slot);
    IdParts(destroys[slot], slot);
    if destroys[slot] >= TWO_16 {
      var g := destroys[slot] - TWO_16;
      IdParts(g, slot);
      assert g < Uses(t, destroys, slot) && id == IdOf(g, slot);
    } else if WasIssued(t, destroys, id) {
      var s: nat, g: nat :| 1 <= s < t.nextId && g < Uses(t, destroys, s) && id == IdOf(g, s);
      IdParts(g, s);
    }
  }

  lemma IdOfWrapped(generation: nat, slot: nat)
    requires slot < TWO_16
    ensures IdOf(Wrapped(generation), slot) == IdOf(generation, slot)
  {
    IdParts(generation, slot);
    IdParts(Wrapped(generation), slot);
    var q, r := generation / TWO32, generation % TWO32;
    assert generation == (q * TWO_16 + r / TWO_16) * TWO_16 + r % TWO_16;
    Numerals.DivModUnique(TWO_16, q * TWO_16 + r / TWO_16, r % TWO_16);
  }

  lemma CreateLive(t: IdTable, chain: seq<nat>, destroys: seq<nat>, issued: set<nat>)
    requires Reachable(t, chain, destroys, issued) && CreateNew(t).id != 0
    ensures Shaped(CreateNew(t).table)
    ensures LiveIds(CreateNew(t).table) == LiveIds(t) + {CreateNew(t).id} && CreateNew(t).id !in LiveIds(t)
  {
    CreateSlot(t, chain, destroys, issued);
    CreatePartition(t, chain);
    var Created(t', id) := CreateNew(t);
    var slot := SlotOf(id);
    forall s | 0 <= s < MAX_COLLECTIONS
      ensures SlotOf(IdOf(t.generation[s], s)) == s
    {
      IdParts(t.generation[s], s);
    }
    forall s | 0 <= s < MAX_COLLECTIONS && t'.active[s]
      ensures IdOf(t'.generation[s], s) in LiveIds(t) + {id}
    {
      if s != slot {
        assert t.active[s];
      }
    }
    forall s | 0 <= s < MAX_COLLECTIONS && t.active[s]
      ensures IdOf(t.generation[s], s) in LiveIds(t')
    {
      assert s != slot && t'.active[s];
    }
    assert t'.active[slot];
  }

  /** A create takes an inactive slot and returns a new id exactly while that slot has been given
      back fewer than 65536 times.  It fails exactly when all 63 slots are active. */
  lemma CreateKeeps(t: IdTable, chain: seq<nat>, destroys: seq<nat>, issued: set<nat>)
    requires Reachable(t, chain, destroys, issued)
    ensures CreateNew(t).id == 0 <==> forall s :: 1 <= s < MAX_COLLECTIONS ==> t.active[s]
    ensures CreateNew(t).id == 0 ==> CreateNew(t).table == t
    ensures var Created(t', id) := CreateNew(t);
            id != 0 ==>
              && 1 <= SlotOf(id) < MAX_COLLECTIONS && !t.active[SlotOf(id)]
              && Reachable(t', Rest(chain), destroys, issued + {id})
              && LiveIds(t') == LiveIds(t) + {id} && id !in LiveIds(t)
              && (id !in issued <==> destroys[SlotOf(id)] < TWO_16)
  {
    CreateSlot(t, chain, destroys, issued);
    var Created(t', id) := CreateNew(t);
    if id != 0 {
      var slot := SlotOf(id);
      CreatePartition(t, chain);
      CreateLive(t, chain, destroys, issued);
      IdOfWrapped(destroys[slot], slot);
      NextIdNew(t, destroys, slot);
      forall k: nat
        ensures k in issued + {id} <==> WasIssued(t', destroys, k)
      {
        UseIssues(t, t', destroys, slot, k);
      }
    }
  }

  /** Giving a slot back bumps its count, puts it at the head of the free list and issues nothing. */
  lemma DestroyKeeps(t: IdTable, chain: seq<nat>, destroys: seq<nat>, issued: set<nat>, id: nat)
    requires Reachable(t, chain, destroys, issued)
    requires SlotOf(id) < MAX_COLLECTIONS && t.active[SlotOf(id)]
    ensures Reachable(Destroy(t, id), [SlotOf(id)] + chain, destroys[SlotOf(id) := destroys[SlotOf(id)] + 1], issued)
    ensures LiveIds(Destroy(t, id)) == LiveIds(t) - {IdOf(t.generation[SlotOf(id)], SlotOf(id))}
  {
    DestroyPartition(t, chain, id);
    DestroyCounted(t, destroys, id);
    SameIssued(t, Destroy(t, id), destroys, destroys[SlotOf(id) := destroys[SlotOf(id)] + 1], issued);
    DestroyLive(t, SlotOf(id), Destroy(t, id));
  }

  lemma DestroyCounted(t: IdTable, destroys: seq<nat>, id: nat)
    requires Shaped(t) && |destroys| == MAX_COLLECTIONS && Counted(t.generation, destroys)
    requires SlotOf(id) < t.nextId && t.active[SlotOf(id)]
    ensures Counted(Destroy(t, id).generation, destroys[SlotOf(id) := destroys[SlotOf(id)] + 1])
  {
    NextGeneration(destroys[SlotOf(id)]);
  }

  lemma DestroyPartition(t: IdTable, chain: seq<nat>, id: nat)
    requires Shaped(t) && Partitioned(t, chain) && SlotOf(id) < t.nextId && t.active[SlotOf(id)]
    ensures Partitioned(Destroy(t, id), [SlotOf(id)] + chain)
  {
    ChainPush(t.freeNext, t.active, t.nextId, t.freeList, chain, SlotOf(id));
  }

  lemma SameIssued(t: IdTable, t': IdTable, destroys: seq<nat>, destroys': seq<nat>, issued: set<nat>)
    requires Shaped(t) && Shaped(t') && t.nextId == t'.nextId && |destroys| == |destroys'| == MAX_COLLECTIONS
    requires forall s :: 0 <= s < MAX_COLLECTIONS ==> Uses(t', destroys', s) == Uses(t, destroys, s)
    requires IssuedExactly(t, destroys, issued)
    ensures IssuedExactly(t', destroys', issued)
  {
    forall id: nat
      ensures WasIssued(t', destroys', id) <==> WasIssued(t, destroys, id)
    {
      if WasIssued(t, destroys, id) {
        var s: nat, g: nat :| 1 <= s < t.nextId && g < Uses(t, destroys, s) && id == IdOf(g, s);
        assert g < Uses(t', destroys', s);
      }
    }
  }

  lemma DestroyLive(t: IdTable, slot: nat, t': IdTable)
    requires Shaped(t) && Shaped(t') && 1 <= slot < t.nextId && t.active[slot]
    requires t'.active == t.active[slot := false]
    requires forall s :: 0 <= s < MAX_COLLECTIONS && s != slot ==> t'.generation[s] == t.generation[s]
    ensures LiveIds(t') == LiveIds(t) - {IdOf(t.generation[slot], slot)}
  {
    forall s | 0 <= s < MAX_COLLECTIONS
      ensures SlotOf(IdOf(t.generation[s], s)) == s
    {
      IdParts(t.generation[s], s);
    }
    forall s | 0 <= s < MAX_COLLECTIONS && t.active[s] && s != slot
      ensures IdOf(t.generation[s], s) in LiveIds(t')
    {
      assert t'.active[s];
    }
    forall s | 0 <= s < MAX_COLLECTIONS && t'.active[s]
      ensures IdOf(t'.generation[s], s) in LiveIds(t) - {IdOf(t.generation[slot], slot)}
    {
      assert s != slot && t.active[s];
    }
  }

  /** Live collections are told apart by their ids. */
  lemma LiveIdsDistinct(t: IdTable, a: nat, b: nat)
    requires Shaped(t) && a < MAX_COLLECTIONS && b < MAX_COLLECTIONS && a != b
    ensures IdOf(t.generation[a], a) != IdOf(t.generation[b], b)
  {
    IdParts(t.generation[a], a);
    IdParts(t.generation[b], b);
  }

  /** What a marker with a parsed id resolves to: the id itself, or 0. */
  function Resolve(t: IdTable, id: nat): nat
    requires Shaped(t)
  {
    var slot := SlotOf(id);
    if slot >= MAX_COLLECTIONS || !t.active[slot] || t.generation[slot] != GenerationOf(id) then 0 else id
  }

  /** Among all ids ever issued, the only ones that resolve are those of live collections whose slot
      has been given back fewer than 65536 times.  In particular no destroyed collection's id
      resolves, as long as the 32-bit counter of its slot has not wrapped. */
  lemma ResolvesIff(t: IdTable, destroys: seq<nat>, id: nat)
    requires Shaped(t) && |destroys| == MAX_COLLECTIONS && Counted(t.generation, destroys)
    requires WasIssued(t, destroys, id)
    requires SlotOf(id) < MAX_COLLECTIONS ==> destroys[SlotOf(id)] < TWO32
    ensures id != 0 && SlotOf(id) < MAX_COLLECTIONS
    ensures Resolve(t, id) == id <==> id in LiveIds(t) && destroys[SlotOf(id)] < TWO_16
    ensures Resolve(t, id) == id || Resolve(t, id) == 0
  {
    IssuedRange(t, destroys, id);
    ResolveLive(t, id);
  }

  lemma ResolveLive(t: IdTable, id: nat)
    requires Shaped(t) && SlotOf(id) < MAX_COLLECTIONS && 0 < id < TWO32
    ensures Resolve(t, id) == id <==> id in LiveIds(t) && t.generation[SlotOf(id)] < TWO_16
    ensures Resolve(t, id) == id || Resolve(t, id) == 0
  {
    var slot := SlotOf(id);
    LiveIff(t, id);
    IdRebuilt(id);
    IdParts(t.generation[slot], slot);
  }

  lemma IssuedRange(t: IdTable, destroys: seq<nat>, id: nat)
    requires Shaped(t) && |destroys| == MAX_COLLECTIONS && WasIssued(t, destroys, id)
    ensures 1 <= SlotOf(id) < t.nextId && id < TWO32 && id != 0
  {
    var s: nat, g: nat :| 1 <= s < t.nextId && g < Uses(t, destroys, s) && id == IdOf(g, s);
    IdParts(g, s);
  }

  lemma LiveIff(t: IdTable, id: nat)
    requires Shaped(t) && SlotOf(id) < MAX_COLLECTIONS
    ensures id in LiveIds(t) <==> t.active[SlotOf(id)] && id == IdOf(t.generation[SlotOf(id)], SlotOf(id))
  {
    if id in LiveIds(t) {
      var s :| 0 <= s < MAX_COLLECTIONS && t.active[s] && id == IdOf(t.generation[s], s);
      IdParts(t.generation[s], s);
    }
  }

  datatype Event = Create | DestroyOne(id: nat)

  datatype Outcome = Outcome(table: IdTable, ids: seq<nat>)

  /** One event; `ids` collects the ids returned by creates, failures left out. */
  function Step(o: Outcome, e: Event): (o': Outcome)
    requires Shaped(o.table)
    ensures Shaped(o'.table)
  {
    match e
    case Create =>
      var Created(t', id) := CreateNew(o.table);
      Outcome(t', if id == 0 then o.ids else o.ids + [id])
    case DestroyOne(id) => Outcome(Destroy(o.table, id), o.ids)
  }

  /** Any run of creates and destroys, also of destroys with ids that are not live. */
  function Run(events: seq<Event>): (o: Outcome)
    ensures Shaped(o.table)
  {
    if events == [] then Outcome(Initial(), []) else Step(Run(events[..|events| - 1]), events[|events| - 1])
  }

  function Sum(ns: seq<nat>): nat {
    if ns == [] then 0 else Sum(ns[..|ns| - 1]) + ns[|ns| - 1]
  }

  lemma {:induction false} SumBump(ns: seq<nat>, i: nat)
    requires i < |ns|
    ensures Sum(ns[i := ns[i] + 1]) == Sum(ns) + 1
  {
    var n := |ns| - 1;
    if i < n {
      SumBump(ns[..n], i);
      assert ns[i := ns[i] + 1][..n] == ns[..n][i := ns[i] + 1];
    } else {
      assert ns[i := ns[i] + 1][..n] == ns[..n];
    }
  }

  lemma {:induction false} SumBounds(ns: seq<nat>, i: nat)
    requires i < |ns|
    ensures ns[i] <= Sum(ns)
  {
    if i < |ns| - 1 {
      SumBounds(ns[..|ns| - 1], i);
    }
  }

  lemma {:induction false} SumZeros(n: nat)
    ensures Sum(Repeat(n, 0)) == 0
  {
    if n > 0 {
      SumZeros(n - 1);
      assert Repeat<nat>(n, 0)[..n - 1] == Repeat<nat>(n - 1, 0);
    }
  }

  function DestroyCount(events: seq<Event>): nat {
    if events == [] then 0
    else DestroyCount(events[..|events| - 1]) + if events[|events| - 1].DestroyOne? then 1 else 0
  }

  ghost function IdSet(ids: seq<nat>): set<nat> {
    set id | id in ids
  }

  predicate Distinct(ids: seq<nat>) {
    forall i, j :: 0 <= i < j < |ids| ==> ids[i] != ids[j]
  }

  /** A create extends the history. */
  lemma StepCreate(o: Outcome, chain: seq<nat>, destroys: seq<nat>) returns (chain': seq<nat>)
    requires Shaped(o.table) && Reachable(o.table, chain, destroys, IdSet(o.ids))
    ensures Reachable(Step(o, Create).table, chain', destroys, IdSet(Step(o, Create).ids))
    ensures Sum(destroys) < TWO_16 && Distinct(o.ids) ==> Distinct(Step(o, Create).ids)
  {
    var c := CreateNew(o.table);
    CreateKeeps(o.table, chain, destroys, IdSet(o.ids));
    chain' := chain;
    if c.id != 0 {
      SumBounds(destroys, SlotOf(c.id));
      chain' := Rest(chain);
      assert IdSet(o.ids + [c.id]) == IdSet(o.ids) + {c.id};
    }
  }

  lemma StepDestroy(t: IdTable, id: nat, chain: seq<nat>, destroys: seq<nat>, issued: set<nat>)
    returns (chain': seq<nat>, destroys': seq<nat>)
    requires Reachable(t, chain, destroys, issued)
    ensures Reachable(Destroy(t, id), chain', destroys', issued)
    ensures Sum(destroys') <= Sum(destroys) + 1
  {
    if SlotOf(id) < MAX_COLLECTIONS && t.active[SlotOf(id)] {
      DestroyKeeps(t, chain, destroys, issued, id);
      SumBump(destroys, SlotOf(id));
      chain', destroys' := [SlotOf(id)] + chain, destroys[SlotOf(id) := destroys[SlotOf(id)] + 1];
    } else {
      DestroyNothing(t, id);
      chain', destroys' := chain, destroys;
    }
  }

  lemma DestroyNothing(t: IdTable, id: nat)
    requires Shaped(t) && !(SlotOf(id) < MAX_COLLECTIONS && t.active[SlotOf(id)])
    ensures Destroy(t, id) == t
  {
  }

  /** Every run ends in a reachable state whose history is that of the run. */
  lemma {:induction false} RunReachable(events: seq<Event>) returns (chain: seq<nat>, destroys: seq<nat>)
    ensures Reachable(Run(events).table, chain, destroys, IdSet(Run(events).ids))
    ensures Sum(destroys) <= DestroyCount(events)
    ensures DestroyCount(events) < TWO_16 ==> Distinct(Run(events).ids)
  {
    if events == [] {
      chain, destroys := [], Repeat(MAX_COLLECTIONS, 0);
      InitialReachable();
      SumZeros(MAX_COLLECTIONS);
      assert IdSet(Run(events).ids) == {};
    } else {
      var n := |events| - 1;
      chain, destroys := RunReachable(events[..n]);
      match events[n]
      case Create => chain := StepCreate(Run(events[..n]), chain, destroys);
      case DestroyOne(id) =>
        chain, destroys := StepDestroy(Run(events[..n]).table, id, chain, destroys, IdSet(Run(events[..n]).ids));
    }
  }

  /** In a run with fewer than 65536 destroys no two creates return the same id. */
  lemma NeverReused(events: seq<Event>, i: nat, j: nat)
    requires DestroyCount(events) < TWO_16 && i < j < |Run(events).ids|
    ensures Run(events).ids[i] != Run(events).ids[j]
  {
    var chain, destroys := RunReachable(events);
  }

  /** After a run with fewer than 65536 destroys, the ids that resolve are exactly the live ones
      among those ever returned: a destroyed collection's id is rejected from then on. */
  lemma OnlyLiveResolve(events: seq<Event>, id: nat)
    requires DestroyCount(events) < TWO_16 && id in Run(events).ids
    ensures Resolve(Run(events).table, id) == (if id in LiveIds(Run(events).table) then id else 0)
  {
    var chain, destroys := RunReachable(events);
    var t := Run(events).table;
    IssuedRange(t, destroys, id);
    SumBounds(destroys, SlotOf(id));
    ResolvesIff(t, destroys, id);
  }

  // ---- An id that comes again ----

  /** Create a collection and destroy it, n times. */
  function Churn(n: nat): (events: seq<Event>)
    ensures DestroyCount(events) == n
  {
    if n == 0 then []
    else
      var before := Churn(n - 1);
      var created := before + [Create];
      var events := created + [DestroyOne(IdOf(n - 1, 1))];
      assert created[..|before|] == before && events[..|created|] == created;
      events
  }

  /** Slot 1 is the only one in use so far, free, and in its n-th generation. */
  predicate Churned(t: IdTable, n: nat) {
    && Shaped(t) && t.generation[1] == n && !t.active[1]
    && (if n == 0 then t.nextId == 1 && t.freeList == -1 else t.nextId == 2 && t.freeList == 1)
  }

  lemma ChurnOnce(o: Outcome, n: nat)
    requires n < TWO_16 && Churned(o.table, n)
    ensures var o' := Step(Step(o, Create), DestroyOne(IdOf(n, 1)));
            Churned(o'.table, n + 1) && o'.ids == o.ids + [IdOf(n, 1)]
  {
    IdParts(n, 1);
    hide IdOf;
  }

  /** All these collections were in slot 1, with one generation after the other. */
  lemma {:induction false} ChurnIds(n: nat)
    requires n <= TWO_16
    ensures var o := Run(Churn(n));
            Churned(o.table, n) && |o.ids| == n && forall k :: 0 <= k < n ==> o.ids[k] == IdOf(k, 1)
  {
    hide Run, Step, Churned, IdOf, Churn;
    if n == 0 {
      ChurnedFirst();
    } else {
      ChurnIds(n - 1);
      ChurnOnce(Run(Churn(n - 1)), n - 1);
      ChurnMore(n);
    }
  }

  lemma ChurnMore(n: nat)
    requires n > 0
    ensures Run(Churn(n)) == Step(Step(Run(Churn(n - 1)), Create), DestroyOne(IdOf(n - 1, 1)))
  {
    hide Step, IdOf;
    var before := Churn(n - 1);
    var created := before + [Create];
    var events := created + [DestroyOne(IdOf(n - 1, 1))];
    assert created[..|before|] == before && events[..|created|] == created;
    assert Run(created) == Step(Run(before), Create);
    assert Run(events) == Step(Run(created), DestroyOne(IdOf(n - 1, 1)));
  }

  lemma ChurnedFirst()
    ensures Churn(0) == [] && Churned(Run(Churn(0)).table, 0) && Run(Churn(0)).ids == []
  {
  }

  /** With the 65536th destroy of its slot the first id comes again: the bound of the theorems above is exact. */
  lemma FirstIdComesAgain()
    ensures var ids := Run(Churn(TWO_16) + [Create]).ids;
            |ids| == TWO_16 + 1 && ids[TWO_16] == ids[0]
  {
    hide Churn, IdOf;
    ChurnIds(TWO_16);
    var o := Run(Churn(TWO_16));
    var events := Churn(TWO_16) + [Create];
    assert events[..|events| - 1] == Churn(TWO_16);
    assert Run(events) == Step(o, Create);
    IdParts(TWO_16, 1);
    IdParts(0, 1);
    assert o.ids[0] == IdOf(0, 1);
  }
}
