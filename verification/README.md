# Verified model of the Objective-C notebook kernel

This project models the core of an Objective-C interpreter kernel that runs in the browser, and of the
JavaScript that hosts it, and proves what these components promise:

- **The string heap and its collector** (`StringHeap`, `LiveBits`, `Roots`, `Relocation`, `Compaction`,
  `Collector`). A bump-allocated byte pool, a handle table with a threaded free list, and a mark-compact
  collector that works in place. `Compaction` describes the result without sorting or tables: a live byte
  lands at the number of live bytes below it. The collector is proved to produce that, and from it follows
  that a collection cannot be observed through a handle.
- **The collection table** (`CollectionContents`, `CollectionIds`, `Markers`, `CollectionTable`). One flat
  array of entries for all arrays, dictionaries and sets, seen as a map from id to sequence; generational ids;
  and the decimal markers that carry ids inside strings.
- **The evaluator** (`Ast`, `FlagMachine`, `Evaluator`, `PendingFlags`, `Exceptions`, `BigStep`, `Refinement`). Recursive
  methods over shared flags and counters, which compute a flag machine on values. That is proved balanced for
  every tree, with the exact condition under which a continue leaves its loop, and equal to a semantics with
  explicit outcomes, exceptions among them, for structured programs.
- **Codecs** (`Bytes`, `Numerals`, `Transcoding`, `Base58`, `Base32`, `Cbor`, `CborItems`, `CborReturns`,
  `CborCodec`, `Int32`, `Words`, `Sha256`, `Sha256Constants`):
  base58btc, base32, DAG-CBOR and SHA-256, each against an independent description of the format.
- **The worker protocol** (`WorkerProtocol`, `Settlements`, `Interrupts`, `ObjcKernels`). Requests, replies, timers,
  crashes, restarts and dispose as steps in any order; the kernel object takes these steps by updating its fields.
- **Splitting and replacing strings** (`SplitReplace`), **method lookup** (`Dispatch`) and **the tokenizer**
  (`LexicalGrammar`, `Spellings`, `Lexers`). `Options` is the usual option type.

`dafny verify dfyconfig.toml` checks everything.

## How the model reads the source

- Objects that update their fields are classes, algorithms that work in place work on arrays, and loops are
  loops; each such method is tied to a description on values, and the theorems are about the descriptions.
  Long functions are cut into one method per loop or per case.
- Integers are unbounded except where width matters: object and pool indices stay far below 32 bits; collection
  generations, marker parsing, the base32 register, the SHA-256 words and the size computation of replace carry
  their width explicitly.
- The evaluator takes the expression parser as a parameter: a function from a source range and a context to a
  context and a value; likewise the start of a for-in loop and the binding of loop and catch variables. They are
  assumed to keep the depth counters and the break and continue flags and never to decrease the iteration
  counter or the error; for the refinement theorem also to neither fail, throw, return nor be interrupted.
- A timer of the worker protocol may fire once no timer set before it with the same or a shorter delay is
  still armed, which is what the HTML standard guarantees; no clock is needed. Timeouts are real numbers, and
  the delay a timer gets is the timeout converted to 32 bits, as the Web IDL standard prescribes for setTimeout.
- A number in CBOR is a natural one or the bytes of its IEEE 754 form; 64-bit arguments are rounded to doubles.
  Text in CBOR is held as UTF-8 bytes. The replacement of malformed bytes by the text decoder is a parameter,
  and well-formed text is what it leaves alone. An object is its entries in the order the encoder visits them.
- Operators and reserved words share one token kind each in the model and are told apart by their text.

## What was found

Where the code does less than one would expect, the theorem says exactly when it does what it should:

- A collection with nothing live deactivates slots without freeing them (`Collector.SlotsLeaked`; one string
  without a root: `Collector.OneSlotLeaked`).
- Ids stay unique only while a slot was given back fewer than 65536 times, and markers of ids above 2147483649
  are rejected although the collection is live (`CollectionIds.CreateKeeps`, `Markers.MarkerLeadsBack`; the first
  such id: `Markers.HighMarkerLost`; an id that comes again: `CollectionIds.FirstIdComesAgain`).
- Inserting at the end of a collection fails (`CollectionTable.Collections.InsertAt`).
- A loop that is left on a break does not clear a continue that its body left pending beside the break, so that
  continue reaches the enclosing loop (`PendingFlags.LoopLetsOutIff`; such a loop: `PendingFlags.ContinueEscapes`).
- A continue in a case leaves the switch only if nothing is behind that case, and otherwise falls into the next case
  or the default (`PendingFlags.ContinueLeavesSwitchIff`; a run: `PendingFlags.ContinueFallsThrough`).
- A throw inside a try does not end its block: the statements behind it are evaluated before the exception is caught
  (`Exceptions.ThrowEndsBlockIff`; two statements: `Exceptions.PairRuns`).
- While an exception is pending in a finally part, a loop there makes one round only and an inner try statement makes
  the exception disappear; behind an inner try a catch body cannot throw its exception again
  (`Exceptions.PendingLoopStops`, `Exceptions.TryForgets`; single cases: `Exceptions.InnerTryDrops`,
  `Exceptions.RethrowForgotten`).
- Replacing yields a wrong string, or writes outside its block, when the result has 2^31 characters or more
  (`SplitReplace.ReplaceRightIff`; 50000 characters replaced by 50000 each: `SplitReplace.WrappedSize`).
- The CBOR codec loses negative numbers, fractions and natural numbers from 2^64 on, a leading byte order mark and
  a key named `__proto__` (`CborReturns.DecodeUndoesEncodeIff`; single values: `CborReturns.NumbersLost`,
  `CborReturns.ProtoLost`), and it does not read doubles in their standard encoding
  (`CborReturns.StandardFloatSkipped`).
- SHA-256 writes a 32-bit length (`Sha256.PaddingStandardIff`).
- A soft timer outlives its request when its delay at the host is longer than that of the hard timer, which the
  manifest check does not rule out (`WorkerProtocol.TimersTidyIff`; a run: `WorkerProtocol.LateSoftTimerStays`,
  and timeouts from 2^31 milliseconds on: `WorkerProtocol.LongDelaysWrap`).
- An interrupt is lost when a request is made or a reply delivered before the worker has seen it, and a soft timer
  that outlived its request interrupts another one (`Interrupts.FlagSetIff`; runs: `Interrupts.InterruptLost`,
  `Interrupts.StrayTimerInterrupts`).
- A super send skips methods without source, an ordinary send does not (`Dispatch.SuperIsOrdinaryFromParent`;
  such a method: `Dispatch.NativeMethodMissed`).
- The last character of an unclosed comment becomes a token unless it is a blank or begins a directive
  (`Lexers.UnclosedCommentToken`; both cases: `Lexers.UnclosedWitness`).

## Model

| member | source | states |
|---|---|---|
| `StringHeap.Heap.StringPoolAlloc` | objc-jupyter-wasm/kernel/objc_interp_state.c:264-273 | bump allocation: the old offset and an offset larger by the size when it fits in the pool, otherwise nothing changes |
| `StringHeap.Heap.constructor` | objc-jupyter-wasm/kernel/objc_interp_state.c:278-287 | the empty heap meets the heap invariant and its slots are conserved |
| `StringHeap.Heap.ObjAlloc` | objc-jupyter-wasm/kernel/objc_interp_state.c:291-312 | the handle is a previously inactive slot, no other entry changes, failure exactly when pool or table is full; slots stay partitioned into active and free |
| `StringHeap.Heap.TakeSlot` | objc-jupyter-wasm/kernel/objc_interp_state.c:291-312 | the free list is used before the bump counter; the slot taken is neither active nor free any more, and the free list stays acyclic, duplicate-free and inactive |
| `StringHeap.FreeChainPop` | objc-jupyter-wasm/kernel/objc_interp_state.c:291-312 | taking the head of the free list leaves a well-formed list without it |
| `StringHeap.FreeChainPush` | objc-jupyter-wasm/kernel/objc_interp_state.c:343-349 | giving a slot back makes it the head of a well-formed list |
| `StringHeap.Heap.ObjAllocStr` | objc-jupyter-wasm/kernel/objc_interp_state.c:315-327 | the new handle dereferences to the bytes before the first NUL, at most len of them; every other handle keeps its string; the heap invariant is kept |
| `StringHeap.Heap.ObjDeref` | objc-jupyter-wasm/kernel/objc_interp_state.c:330-340 | dereferencing succeeds exactly for active handles and gives the place of the handle's string |
| `StringHeap.Heap.ObjIsValid` | objc-jupyter-wasm/kernel/objc_interp_state.c:352-354 | validity is being active |
| `StringHeap.Heap.ObjFree` | objc-jupyter-wasm/kernel/objc_interp_state.c:343-349 | the handle dangles, all others keep their strings, the slot heads the free list, a second free does nothing |
| `StringHeap.Heap.ObjRegisterPtr` | objc-jupyter-wasm/kernel/objc_interp_state.c:358-379 | registering a pool pointer: the handle reads the text at the pointer, no other string changes, and the heap invariant survives exactly for registrable pointers (a live string's start, or a terminated string disjoint from all live ones) |
| `StringHeap.RegisterIff` | objc-jupyter-wasm/kernel/objc_interp_state.c:358-379 | all live strings stay terminated and non-overlapping after registering an offset if and only if the offset is registrable |
| `StringHeap.Heap.TextEqual` | objc-jupyter-wasm/kernel/objc_interp_types.h:48-56 | C string equality through two handles is equality of their texts, two dangling handles being equal |
| `LiveBits.Marker.MarkLive` | objc-jupyter-wasm/kernel/objc_interp_format.c:888-891 | marking sets exactly one active handle's bit in the byte vector |
| `LiveBits.Marker.IsLive` | objc-jupyter-wasm/kernel/objc_interp_format.c:893-896 | a handle is live when its bit is set |
| `LiveBits.SettingABit` | objc-jupyter-wasm/kernel/objc_interp_format.c:888-896 | setting a bit of a byte with a shifted one changes that bit and no other |
| `LiveBits.Marker.MarkRoots` | objc-jupyter-wasm/kernel/objc_interp_format.c:903-968 | after walking every root table exactly the active handles mentioned in one of them have been added to the marked set |
| `Roots.KeptIff` | objc-jupyter-wasm/kernel/objc_interp_format.c:903-968 | for every table contents and every handle: it is kept if and only if it is in use, not null, and some row holds it - a variable, the return value, the owner or value of an instance variable, the key or value of a collection entry, a capture, the receiver or an argument of one of the invocations in use, either side of an association or observation, the current exception or a pool |
| `Relocation.SortByOldOffset` | objc-jupyter-wasm/kernel/objc_interp_format.c:1005-1017 | in-place insertion sort: sorted by old offset and a permutation |
| `Relocation.LowerBound` | objc-jupyter-wasm/kernel/objc_interp_format.c:1058-1065 | binary search: everything before the result is smaller, everything from it on is not |
| `Relocation.StringSpan` | objc-jupyter-wasm/kernel/objc_interp_format.c:1034-1039 | the length of a string with its NUL, clamped to the used pool |
| `Relocation.MemMove` | objc-jupyter-wasm/kernel/objc_interp_format.c:1040-1042 | overlapping move in place: the destination holds the old source, nothing else changes |
| `Relocation.SlideDown` | objc-jupyter-wasm/kernel/objc_interp_format.c:1019-1047 | sliding in place produces the compacted pool: each live byte lands at the number of live bytes below it, and each table entry gets its string's new place |
| `Compaction.StringKept` | objc-jupyter-wasm/kernel/objc_interp_format.c:1019-1047 | a live string reads the same at its new place, terminator included |
| `Compaction.OrderKept` | objc-jupyter-wasm/kernel/objc_interp_format.c:1019-1047 | distinct live strings keep their order and do not run into each other |
| `Compaction.DisjointKept` | objc-jupyter-wasm/kernel/objc_interp_format.c:1019-1047 | the moved strings are pairwise disjoint or identical |
| `Compaction.FullyCovered` | objc-jupyter-wasm/kernel/objc_interp_format.c:1019-1047 | every byte of the compacted pool belongs to a live string: there are no gaps |
| `Compaction.BackToBack` | objc-jupyter-wasm/kernel/objc_interp_format.c:1019-1047 | the lowest live string moves to offset 0, each next one directly behind its predecessor, and the pool ends with the last |
| `Compaction.Idempotent` | objc-jupyter-wasm/kernel/objc_interp_format.c:1019-1047 | compacting a compacted pool changes no byte and no offset |
| `Collector.Collector.GcStrings` | objc-jupyter-wasm/kernel/objc_interp_format.c:970-1079 | the whole collection, in place: every kept handle dereferences to the same string as before and every other one to nothing, so that every variable reads as before; the pool shrinks to the kept strings; slots stay conserved exactly when something is live or nothing was active |
| `Collector.CollectionInvisible` | objc-jupyter-wasm/kernel/objc_interp_format.c:970-1079 | for every pool, handle table and root set under the heap invariant, dereferencing gives the same for each kept handle before and after, and nothing for the others |
| `Collector.SecondCollectionIdle` | objc-jupyter-wasm/kernel/objc_interp_format.c:970-1079 | a second collection with the same kept handles changes no byte, no pool offset and no handle |
| `Collector.CollectingAgain` | objc-jupyter-wasm/kernel/objc_interp_format.c:970-1079 | with the same roots a second collection keeps the same handles, namely all that are left, and changes nothing |
| `Collector.UsedIsSum` | objc-jupyter-wasm/kernel/objc_interp_format.c:1019-1047 | after a collection the used pool is exactly as long as the kept strings with their terminators, shared ones counted once |
| `Collector.SlotsConserved` | objc-jupyter-wasm/kernel/objc_interp_format.c:1070-1078 | freeing the unmarked entries keeps the slots partitioned into active ones and the free list |
| `Collector.FreedOrder` | objc-jupyter-wasm/kernel/objc_interp_format.c:1070-1078 | the slots given up are the active ones that are not kept, and they stand in front of the old free list, highest handle first |
| `Collector.SlotsLeaked` | objc-jupyter-wasm/kernel/objc_interp_format.c:996-1003 | the branch with nothing live loses slots: the partition survives it exactly when no handle was active |
| `Collector.OneSlotLeaked` | objc-jupyter-wasm/kernel/objc_interp_format.c:996-1003 | with one string and no root, its slot is neither active nor free after a collection |
| `Collector.Collector.GatherOffsets` | objc-jupyter-wasm/kernel/objc_interp_format.c:985-994 | the relocation table lists the pool offset of each marked active entry, and its 4096 places always suffice |
| `Collector.Collector.PatchOffsets` | objc-jupyter-wasm/kernel/objc_interp_format.c:1049-1068 | every active entry at a live offset gets that string's new offset, the rest keep theirs |
| `Collector.Collector.FreeUnmarked` | objc-jupyter-wasm/kernel/objc_interp_format.c:1070-1078 | exactly the active unmarked entries are deactivated and pushed on the free list |
| `CollectionTable.Collections.constructor` | objc-jupyter-wasm/kernel/objc_interp_state.c:385-393 | an empty table with no collections |
| `CollectionTable.Collections.Count` | objc-jupyter-wasm/kernel/objc_interp_state.c:423-429 | the number of elements of the collection's sequence |
| `CollectionTable.Collections.CreateNewCollection` | objc-jupyter-wasm/kernel/objc_interp_state.c:431-453 | takes a free slot or the next new one, marks it active and returns its generational id, 0 when all are taken; no entry changes |
| `CollectionTable.Collections.DestroyCollection` | objc-jupyter-wasm/kernel/objc_interp_state.c:456-468 | empties that collection only, bumps the slot's generation and puts it on the free list |
| `CollectionTable.Collections.Add` | objc-jupyter-wasm/kernel/objc_interp_state.c:471-480 | appends to one collection's sequence and leaves all others as they were; fails when the table is full or the slot is not taken |
| `CollectionTable.Collections.FindByKey` | objc-jupyter-wasm/kernel/objc_interp_state.c:483-499 | the first entry of the collection whose key matches, integers by value and objects by string content |
| `CollectionTable.FirstMatchIs` | objc-jupyter-wasm/kernel/objc_interp_state.c:483-499 | row by row: the index found is that of a row of the collection with the same integer key or an object key with the same string, and no row before it is one; -1 exactly when none is |
| `CollectionTable.Collections.RemoveAt` | objc-jupyter-wasm/kernel/objc_interp_state.c:502-508 | drops one entry of the collection it belongs to, the last one for an index behind it; no other sequence changes |
| `CollectionTable.Collections.RemoveAll` | objc-jupyter-wasm/kernel/objc_interp_state.c:511-520 | empties one collection, no other sequence changes |
| `CollectionTable.Collections.GetNth` | objc-jupyter-wasm/kernel/objc_interp_state.c:523-532 | the table index of the n-th element of the sequence, -1 when there is none |
| `CollectionTable.Collections.InsertAt` | objc-jupyter-wasm/kernel/objc_interp_state.c:537-553 | splices an element into one sequence at a position that exists; inserting at the end fails |
| `CollectionContents.RemoveEntry` | objc-jupyter-wasm/kernel/objc_interp_state.c:502-508 | closing the gap of one table row removes one element from one sequence and leaves all others alone |
| `CollectionContents.InsertEntry` | objc-jupyter-wasm/kernel/objc_interp_state.c:537-553 | opening a row before an entry inserts into its sequence at that entry's position and leaves all others alone |
| `CollectionTable.LookupSurvivesCollection` | objc-jupyter-wasm/kernel/objc_interp_state.c:483-499 | a key lookup gives the same answer before and after a string collection |
| `CollectionIds.CreateKeeps` | objc-jupyter-wasm/kernel/objc_interp_state.c:431-453 | in every reachable state a create fails exactly when all slots are taken; otherwise its id differs from all live ids, and from all ids ever issued exactly when its slot was given back fewer than 65536 times |
| `CollectionIds.DestroyKeeps` | objc-jupyter-wasm/kernel/objc_interp_state.c:456-468 | a destroy keeps the table reachable, its free list well formed, and removes one live id |
| `CollectionIds.LiveIdsDistinct` | objc-jupyter-wasm/kernel/objc_interp_state.c:431-453 | two slots never carry the same id |
| `CollectionIds.ResolvesIff` | objc-jupyter-wasm/kernel/objc_interp_state.c:557-581 | an id ever issued resolves exactly while it is live and its slot's generation fits 16 bits; otherwise to 0 |
| `CollectionIds.RunReachable` | objc-jupyter-wasm/kernel/objc_interp_state.c:431-468 | every run of creates and destroys leads to a reachable table, and with fewer than 65536 destroys all ids returned are distinct |
| `CollectionIds.NeverReused` | objc-jupyter-wasm/kernel/objc_interp_state.c:431-468 | over any such run no two creates return the same id |
| `CollectionIds.FirstIdComesAgain` | objc-jupyter-wasm/kernel/objc_interp_state.c:431-468 | after 65536 creates and destroys of one collection the next create returns the first id again |
| `CollectionIds.OnlyLiveResolve` | objc-jupyter-wasm/kernel/objc_interp_state.c:557-581 | over any such run an id returned earlier resolves to itself while live and to nothing once destroyed |
| `Markers.ParsePrinted` | objc-jupyter-wasm/kernel/objc_interp_state.c:557-607 | parsing a printed id gives it back when it is at most 2147483649 and 0 otherwise |
| `Markers.MarkerLeadsBack` | objc-jupyter-wasm/kernel/objc_interp_state.c:557-607 | a marker leads back to its collection exactly when that is live, its generation fits 16 bits and the id is at most 2147483649, and to none otherwise |
| `Markers.ParseId` | objc-jupyter-wasm/kernel/objc_interp_state.c:557-581 | the digit loop never lets its accumulator pass 32 bits and computes the parsed number |
| `Markers.WriteDigits` | objc-jupyter-wasm/kernel/objc_interp_state.c:584-607 | the decimal digits of the id are written in place behind the prefix and terminated |
| `Markers.MakeMarker` | objc-jupyter-wasm/kernel/objc_interp_state.c:584-607 | the marker is a new string of the heap that reads prefix and decimal id; all other strings are kept; null exactly when pool or table is full |
| `Markers.HighMarkerLost` | objc-jupyter-wasm/kernel/objc_interp_state.c:557-581 | the marker of id 2147483650, live as generation 32768 of slot 2, leads nowhere |
| `Evaluator.Interpreter.EvalAst` | objc-jupyter-wasm/kernel/objc_interp_ast.c:1160-1659 | the recursive method over the shared context takes every tree to the context and value of `FlagMachine.Eval`, about which the theorems are; past the depth limit it records an error and evaluates nothing |
| `FlagMachine.Eval` | objc-jupyter-wasm/kernel/objc_interp_ast.c:1140-1172 | for every tree: evaluation terminates, the three depth counters leave as they entered, the iteration counter only grows and never passes 1000000, and no error is ever taken back |
| `Refinement.Refines` | objc-jupyter-wasm/kernel/objc_interp_ast.c:1140-1659 | for every structured program - all four loops, switches, blocks, operators, break, continue, return, try with catch and finally, throw and rethrow, autorelease pools, nested at will, but for the combinations listed at `Ast.Structured` - over source ranges that neither fail nor throw: the flags, the value, the store, the exception and the counters are those of a semantics with explicit outcomes, or an error is recorded where that semantics is stuck |
| `PendingFlags.LoopLetsOutIff` | objc-jupyter-wasm/kernel/objc_interp_ast.c:1185-1377 | after a loop of any of the four kinds, with any body, no break is pending, and a continue is pending exactly when the last round of its body left a break and a continue pending together |
| `PendingFlags.NodeFlags` | objc-jupyter-wasm/kernel/objc_interp_ast.c:1160-1659 | for every tree: no break escapes a tree without a break outside loops and switches, no continue one without a continue outside loops, and a tree without try statements never leaves both pending |
| `PendingFlags.TryLeavesBoth` | objc-jupyter-wasm/kernel/objc_interp_ast.c:1454-1512 | a break in the body and a continue in the finally part of a try statement are left pending together |
| `PendingFlags.ContinueEscapes` | objc-jupyter-wasm/kernel/objc_interp_ast.c:1185-1205 | a while loop around that try statement ends with a continue pending |
| `PendingFlags.RestSkipped` | objc-jupyter-wasm/kernel/objc_interp_ast.c:1379-1388 | in a block, nothing behind such a loop is evaluated |
| `PendingFlags.ContinueLeavesSwitchIff` | objc-jupyter-wasm/kernel/objc_interp_ast.c:1624-1645 | for every switch and every case of it that ends on a continue: the switch ends there, whatever the bodies behind that case are, if and only if it is the last case and there is no default |
| `PendingFlags.ContinueFallsThrough` | objc-jupyter-wasm/kernel/objc_interp_ast.c:1624-1645 | a run of two cases: the continue of the first stays pending while the second runs and takes its break |
| `Evaluator.Interpreter.EvalWhile` | objc-jupyter-wasm/kernel/objc_interp_ast.c:1185-1205 | the flag-driven loop computes `FlagMachine.WhileF`: break, continue and unwinding are told apart after each round |
| `Evaluator.Interpreter.EvalDoWhile` | objc-jupyter-wasm/kernel/objc_interp_ast.c:1207-1229 | the same for do-while: a continue goes on to the condition |
| `Evaluator.Interpreter.EvalForLoop` | objc-jupyter-wasm/kernel/objc_interp_ast.c:1238-1264 | the same for the loop part of for: a continue goes on to the increment, an empty condition is true |
| `Evaluator.Interpreter.EvalFor` | objc-jupyter-wasm/kernel/objc_interp_ast.c:1231-1264 | the initialiser once, then the loop |
| `Evaluator.Interpreter.EvalBlock` | objc-jupyter-wasm/kernel/objc_interp_ast.c:1379-1388 | a block ends at the first child that breaks, continues, returns or fails, with that child's value |
| `Evaluator.Interpreter.EvalIf` | objc-jupyter-wasm/kernel/objc_interp_ast.c:1175-1183 | the branch chosen by the condition, evaluated one level deeper |
| `Evaluator.Interpreter.EvalLogical` | objc-jupyter-wasm/kernel/objc_interp_ast.c:1397-1427 | the right operand is evaluated only when the left one leaves the result open |
| `Evaluator.Interpreter.EvalForIn` | objc-jupyter-wasm/kernel/objc_interp_ast.c:1266-1377 | the elements of a counted collection in order, or those of an enumerator until it has none left, each bound to the loop variable before its round and counted against the budget; break, continue and unwinding as in the other loops |
| `Evaluator.Interpreter.EvalSwitch` | objc-jupyter-wasm/kernel/objc_interp_ast.c:1594-1656 | the first case whose value matches an integer scrutinee, else the default |
| `Evaluator.Interpreter.EvalCases` | objc-jupyter-wasm/kernel/objc_interp_ast.c:1624-1645 | from the matched case on, each case runs with the break flag cleared and falls into the next, and the last into the default, until a break, return or exception; a pending continue does not stop it |
| `Evaluator.Interpreter.EvalTry` | objc-jupyter-wasm/kernel/objc_interp_ast.c:1454-1512 | the try body; the catch body exactly when an exception is pending after it, with the exception bound to the catch variable, if there is one, and no longer pending; the finally body in every case, all with the break and continue flags left as they are; afterwards an exception that is not pending is forgotten; nested too deeply, nothing is evaluated |
| `Evaluator.Interpreter.EvalThrow` | objc-jupyter-wasm/kernel/objc_interp_ast.c:1514-1555 | a throw leaves its exception pending; outside every try, or a rethrow without an exception, is an error |
| `PendingFlags.TryFlags` | objc-jupyter-wasm/kernel/objc_interp_ast.c:1454-1512 | a try statement leaves a break or continue pending only if one was, or one of its three bodies contains one outside loops and switches |
| `Evaluator.Interpreter.LoopIterCheck` | objc-jupyter-wasm/kernel/objc_interp_ast.c:1150-1158 | the budget check fails exactly at 1000000 and otherwise counts one |
| `BigStep.LimitIrrelevant` | objc-jupyter-wasm/kernel/objc_interp_ast.c:1140-1172 | the recursion limit only cuts runs off: a run that finishes does the same under every higher limit |
| `BigStep.Contained` | objc-jupyter-wasm/kernel/objc_interp_ast.c:1185-1555 | a run ends in a break, continue, return or throw only if one occurs where it can get out of all loops, switches and try statements around it |
| `BigStep.ForInRounds` | objc-jupyter-wasm/kernel/objc_interp_ast.c:1288-1309 | over a collection of known size a for-in loop with a body that does not leave it makes one round for every element, and fails exactly when the iteration budget is smaller |
| `Ast.MatchedCase` | objc-jupyter-wasm/kernel/objc_interp_ast.c:1604-1613 | the case taken is the first whose value is that of an integer scrutinee, or none when no case has it |
| `Exceptions.TryRuns` | objc-jupyter-wasm/kernel/objc_interp_ast.c:1454-1512 | for every try statement: the try body runs in a frame of its own with no exception pending; the catch body runs if and only if one is pending behind it, from the context in which the variable is bound to it and it has been taken down; the finally body runs in any case; then the frame is gone, and the exception unless still pending |
| `Exceptions.CatchIgnored` | objc-jupyter-wasm/kernel/objc_interp_ast.c:1466-1494 | when the try body ends with no exception pending, the statement does the same with every other catch part |
| `Exceptions.ThrowLeaves` | objc-jupyter-wasm/kernel/objc_interp_ast.c:1514-1555 | a throw leaves the value of its expression pending as the exception and changes nothing else; outside every try it is an error as well |
| `Exceptions.RethrowLeaves` | objc-jupyter-wasm/kernel/objc_interp_ast.c:1516-1533 | throwing again keeps the current exception, and is an error without one |
| `Exceptions.ThrowEndsBlockIff` | objc-jupyter-wasm/kernel/objc_interp_ast.c:1379-1388 | a statement that leaves an exception pending ends its block, for all statements behind it, if and only if there are none: otherwise the block goes on with them |
| `Exceptions.PairRuns` | objc-jupyter-wasm/kernel/objc_interp_ast.c:1379-1388 | what follows such a statement is evaluated in the context it leaves, the exception pending |
| `Exceptions.PendingLoopStops` | objc-jupyter-wasm/kernel/objc_interp_ast.c:1185-1205 | a while loop whose round ends with nothing else pending goes on exactly when no exception is pending; so in a finally part entered with one it is left behind its first round |
| `Exceptions.TryForgets` | objc-jupyter-wasm/kernel/objc_interp_ast.c:1466-1467 | a try statement does the same whether an exception was pending before it or not |
| `Exceptions.InnerTryDrops` | objc-jupyter-wasm/kernel/objc_interp_ast.c:1466-1510 | an inner try statement, even an empty one, makes a pending exception disappear |
| `Exceptions.RethrowForgotten` | objc-jupyter-wasm/kernel/objc_interp_ast.c:1507-1523 | behind an inner try a catch body can no longer throw its exception again: that is an error |
| `CborCodec.Encoder.EncodeValue` | objc-jupyter-wasm/js/wasm-loader.js:318-351 | the chunks pushed for any value of JSON, all numbers included, are its encoding |
| `CborCodec.Encoder.EncodeHead` | objc-jupyter-wasm/js/wasm-loader.js:352-390 | initial byte and argument in the form the count calls for |
| `CborCodec.Encoder.Concatenate` | objc-jupyter-wasm/js/wasm-loader.js:391-402 | the chunks, one after the other, in one buffer of the total length |
| `CborCodec.Decoder.Decode` | objc-jupyter-wasm/js/wasm-loader.js:410-478 | the cursor decoder returns what the grammar-driven description returns and stops where it stops, floating-point numbers, links and errors included |
| `CborCodec.Decoder.ReadCount` | objc-jupyter-wasm/js/wasm-loader.js:479-498 | the argument of each width, 64 bits rounded to the nearest double, failing at the end of the input |
| `CborCodec.ThereAndBack` | objc-jupyter-wasm/js/wasm-loader.js:316-500 | encoding with the encoder and decoding with the decoder returns the value exactly when it is faithful |
| `Cbor.RoundTrip` | objc-jupyter-wasm/js/wasm-loader.js:316-500 | decoding the encoding of any nesting of null, booleans, natural numbers, text, bytes, arrays and objects, wherever it stands and whatever follows, succeeds and stops exactly at its end; a natural number comes back as its low 64 bits |
| `CborItems.ItemReads` | objc-jupyter-wasm/js/wasm-loader.js:407-500 | for every item of RFC 8949 with definite lengths and heads of any width, nested at will, wherever it stands: the decoder returns its meaning and stops exactly at its end; all seven major types, tags included, and floating-point numbers as the decoder takes them |
| `CborItems.NegativeReads` | objc-jupyter-wasm/js/wasm-loader.js:419-420 | major type 1 is read as the negative number -1 - n |
| `CborItems.LinkReads` | objc-jupyter-wasm/js/wasm-loader.js:445-452 | tag 42 on a byte string is read as an object with the one key $link, the bytes behind the first in base 58 |
| `CborItems.TagDropped` | objc-jupyter-wasm/js/wasm-loader.js:445-453 | any other tag is dropped |
| `CborItems.SimpleByteReads` | objc-jupyter-wasm/js/wasm-loader.js:453-478 | every initial byte of major type 7: false, true, null, the floating-point widths, taken from behind their own bytes or failing for want of them, and all others as plain numbers |
| `CborItems.CutShort` | objc-jupyter-wasm/js/wasm-loader.js:421-425 | a byte string announced longer than the input is cut at its end |
| `CborItems.PropertySet` | objc-jupyter-wasm/js/wasm-loader.js:436-444 | a decoded entry replaces the property of that name or comes last, and __proto__ adds none |
| `CborItems.TextDecoded` | objc-jupyter-wasm/js/wasm-loader.js:426-430 | text loses one leading byte order mark |
| `CborItems.AppendixA` | objc-jupyter-wasm/js/wasm-loader.js:318-390 | encodings of numbers, strings and simple values as in appendix A of RFC 8949 |
| `CborItems.AppendixAContainers` | objc-jupyter-wasm/js/wasm-loader.js:336-346 | the same for an array and an object |
| `CborItems.AppendixADecoded` | objc-jupyter-wasm/js/wasm-loader.js:419-420 | the negative numbers of that appendix, decoded |
| `CborReturns.NearestDouble` | objc-jupyter-wasm/js/wasm-loader.js:491-496 | the rounding of 64-bit arguments yields a nearest multiple of the spacing, the even one between two |
| `CborReturns.SpacingIs` | objc-jupyter-wasm/js/wasm-loader.js:491-496 | that spacing is the power of two that leaves 53 significant bits |
| `Bytes.BigEndianByte` | objc-jupyter-wasm/js/wasm-loader.js:362-374 | byte i of n in k bytes is the digit of 256^(k-1-i) |
| `CborReturns.DecodeUndoesEncodeIff` | objc-jupyter-wasm/js/wasm-loader.js:316-500 | any value of JSON comes back unchanged if and only if all its numbers are natural ones below 2^64, no text or key begins with a byte order mark and no key is __proto__ |
| `CborReturns.FloatAstray` | objc-jupyter-wasm/js/wasm-loader.js:322-331 | a value with a number in it that is negative or has a fraction never comes back, whatever the decoder makes of the bytes that are left over |
| `CborReturns.NumbersLost` | objc-jupyter-wasm/js/wasm-loader.js:322-331 | 2^64 comes back as 0, and so does every number that is negative or has a fraction |
| `CborReturns.ProtoLost` | objc-jupyter-wasm/js/wasm-loader.js:438-446 | an object with the one key __proto__ comes back empty |
| `CborReturns.StandardFloatSkipped` | objc-jupyter-wasm/js/wasm-loader.js:455-476 | a double in its standard encoding is decoded as the eight bytes behind it, or fails for want of them |
| `CborReturns.PrefixFree` | objc-jupyter-wasm/js/wasm-loader.js:316-402 | no encoding of a value without such numbers is a proper prefix of another |
| `CborReturns.ZeroIsPrefix` | objc-jupyter-wasm/js/wasm-loader.js:322-331 | the encoding of every number that is negative or has a fraction begins with that of 0 |
| `CborReturns.HeadShortest` | objc-jupyter-wasm/js/wasm-loader.js:352-390 | whatever decodes to the same major type and argument is no shorter than the head written (RFC 8949, section 4.2.1) |
| `Base58.Encode` | objc-jupyter-wasm/js/wasm-loader.js:267-284 | the loops over a big integer compute the change of base with one symbol per leading zero byte |
| `Base58.Decode` | objc-jupyter-wasm/js/wasm-loader.js:289-310 | the inverse change of base, nothing for a text with a foreign character |
| `Base58.DecodeEncode` | objc-jupyter-wasm/js/wasm-loader.js:267-310 | decoding undoes encoding for every byte sequence |
| `Base58.EncodeDecode` | objc-jupyter-wasm/js/wasm-loader.js:267-310 | encoding undoes decoding exactly for texts over the alphabet |
| `Base58.EncodedValue` | objc-jupyter-wasm/js/wasm-loader.js:267-284 | the text is the same number as the bytes, in base 58, with one 1 for each leading zero byte and no other leading 1 |
| `Base58.SymbolOrder` | objc-jupyter-wasm/js/wasm-loader.js:268-268 | the alphabet is the digits and letters but for 0, I, O and l, in ascending order, and a symbol counts as its place in it |
| `Base32.Encode` | objc-jupyter-wasm/js/wasm-loader.js:221-237 | the 32-bit register, which overflows, writes exactly the bits of the bytes and fewer than five zero filler bits (RFC 4648, section 6) |
| `Base32.Decode` | objc-jupyter-wasm/js/wasm-loader.js:242-262 | the register reads all whole bytes at the start of the accepted symbols' bits |
| `Base32.DecodeEncode` | objc-jupyter-wasm/js/wasm-loader.js:221-262 | decoding undoes encoding for every byte sequence, and the text has ceil(8n/5) symbols |
| `Base32.SymbolBits` | objc-jupyter-wasm/js/wasm-loader.js:221-237 | bit by bit: each symbol is the letter or digit of RFC 4648, section 6, for five bits of the bytes, highest first, with zeros behind the last byte |
| `Base32.DecodingUnique` | objc-jupyter-wasm/js/wasm-loader.js:242-262 | a text has one decoding only, so filler bits never make an extra byte |
| `Base32.ForeignSkipped` | objc-jupyter-wasm/js/wasm-loader.js:252-254 | a character outside the alphabet contributes nothing |
| `Sha256.JsSha256` | objc-jupyter-wasm/js/wasm-loader.js:51-188 | the loop over signed numbers computes the FIPS 180-4 hash of the padding it writes, so of every message under 2^29 bytes |
| `Sha256.Pad` | objc-jupyter-wasm/js/wasm-loader.js:119-130 | the padded buffer: message, marker, zeros, low 32 bits of the length |
| `Sha256.PaddingStandardIff` | objc-jupyter-wasm/js/wasm-loader.js:124-130 | that padding is the one of FIPS 180-4, section 5.1.1, exactly for messages under 2^29 bytes |
| `Sha256.PaddingShortest` | objc-jupyter-wasm/js/wasm-loader.js:125-126 | the padded length is the least multiple of 64 that fits marker and length |
| `Sha256.PaddingInjective` | objc-jupyter-wasm/js/wasm-loader.js:119-130 | no two messages of any length are padded alike |
| `Sha256.RoundStep` | objc-jupyter-wasm/js/wasm-loader.js:155-166 | one round in wrapped signed arithmetic is the round of section 6.2.2 on 32-bit words |
| `Sha256.Expand` | objc-jupyter-wasm/js/wasm-loader.js:146-152 | the 64 schedule words of a chunk are those of section 6.2.2 |
| `Sha256.ChMajWords` | objc-jupyter-wasm/js/wasm-loader.js:137-138 | the bitwise helpers on signed numbers compute Ch and Maj on words |
| `Sha256.SigmaWords` | objc-jupyter-wasm/js/wasm-loader.js:139-142 | the four sigma helpers built from shifts compute the standard's rotations |
| `Sha256.ChMajBits` | objc-jupyter-wasm/js/wasm-loader.js:137-138 | bit by bit: choice takes y or z, majority the value of at least two |
| `Sha256.SigmaBits` | objc-jupyter-wasm/js/wasm-loader.js:139-142 | bit by bit: which three bits of the word each of the four sigma functions adds up |
| `Sha256.RoundSums` | objc-jupyter-wasm/js/wasm-loader.js:155-166 | the words after a round as sums modulo 2^32 of those before it |
| `Sha256.ScheduleSums` | objc-jupyter-wasm/js/wasm-loader.js:150-152 | the words of the schedule behind the block as such sums |
| `Sha256Constants.RoundConstants` | objc-jupyter-wasm/js/wasm-loader.js:53-117 | each of the 64 constants is the first 32 bits of the fractional part of the cube root of its prime (FIPS 180-4, section 4.2.2) |
| `Sha256Constants.InitialWords` | objc-jupyter-wasm/js/wasm-loader.js:132-134 | the eight initial words are those of the square roots of the first primes (section 5.3.3) |
| `Sha256Constants.FirstPrimes` | objc-jupyter-wasm/js/wasm-loader.js:53-117 | the primes so numbered are all the primes up to 311 |
| `Sha256Constants.PrimesAscend` | objc-jupyter-wasm/js/wasm-loader.js:53-117 | they are numbered in ascending order |
| `Words.ShiftsRotate` | objc-jupyter-wasm/js/wasm-loader.js:136-136 | a right and a left shift joined rotate the 32 bits |
| `ObjcKernels.ObjcKernel.constructor` | objc-jupyter-wasm/js/objc-kernel.ts:198-209 | the first worker and its pending initial request |
| `ObjcKernels.ObjcKernel.Request` | objc-jupyter-wasm/js/objc-kernel.ts:507-589 | a request gets a fresh id, its timers, a pending entry of the current generation, and is settled at once when disposed or when posting fails |
| `ObjcKernels.ObjcKernel.OnWorkerMessage` | objc-jupyter-wasm/js/objc-kernel.ts:591-636 | a reply settles its request, resolved only by the expected type; stale, streamed and unknown messages change nothing |
| `ObjcKernels.ObjcKernel.RestartWorker` | objc-jupyter-wasm/js/objc-kernel.ts:242-261 | every pending request is rejected once, its timers disarmed, and the next generation starts with one request |
| `ObjcKernels.ObjcKernel.TimerFires` | objc-jupyter-wasm/js/objc-kernel.ts:542-575 | what each kind of timer does when it goes off |
| `ObjcKernels.ObjcKernel.DisposeKernel` | objc-jupyter-wasm/js/objc-kernel.ts:198-209 | every pending request is rejected once and nothing stays pending |
| `WorkerProtocol.StepKeeps` | objc-jupyter-wasm/js/objc-kernel.ts:507-653 | every step keeps the invariant: each request is pending, with the current generation and an armed hard timer of its own, or settled exactly once |
| `WorkerProtocol.SettledAtMostOnce` | objc-jupyter-wasm/js/objc-kernel.ts:507-653 | in every interleaving of requests, replies, timers, crashes, interrupts and dispose each request settles at most once, and every unsettled one is pending with the current generation and an armed hard timer |
| `WorkerProtocol.OutcomeFinal` | objc-jupyter-wasm/js/objc-kernel.ts:507-653 | a settled request keeps its outcome over every later run |
| `WorkerProtocol.LateReplyIgnored` | objc-jupyter-wasm/js/objc-kernel.ts:591-614 | after any restart a reply to an earlier request changes nothing, even without a generation of its own |
| `WorkerProtocol.DisposedForGood` | objc-jupyter-wasm/js/objc-kernel.ts:198-209 | nothing is pending after dispose in any later state |
| `Settlements.ResolvedIff` | objc-jupyter-wasm/js/objc-kernel.ts:507-645 | over every run from the start: a request is resolved if and only if some event of the run is a reply to it, neither output nor an error, from no earlier worker, while it is pending, and of the type asked for by the event that made it; every other settlement is a rejection |
| `Settlements.PendingEndsIff` | objc-jupyter-wasm/js/objc-kernel.ts:507-645 | a pending request ends exactly with a reply to it from the current worker, its own hard timer, any event that restarts the worker, or dispose |
| `Settlements.RefusedAtOnce` | objc-jupyter-wasm/js/objc-kernel.ts:518-521 | a request to a disposed kernel, or one that cannot be posted, is rejected at once and leaves no timer |
| `Settlements.TimersArmed` | objc-jupyter-wasm/js/objc-kernel.ts:542-575 | kind and delay of the timers of an execution with and without an interrupt buffer, of any other request, and of the initial one |
| `WorkerProtocol.HostDelayIs` | objc-jupyter-wasm/js/objc-kernel.ts:542-575 | the delay at the host is the timeout without its fraction and up to a multiple of 2^32, or 0 if that is negative |
| `WorkerProtocol.TimersTidyIff` | objc-jupyter-wasm/js/objc-kernel.ts:542-575 | in every run every armed timer belongs to a pending request, if and only if the host's delay for the soft timeout, converted to 32 bits, is at most that for the hard one, or there is no interrupt buffer |
| `WorkerProtocol.LongDelaysWrap` | objc-jupyter-wasm/js/objc-kernel.ts:542-575 | with a soft timeout of 30 seconds and a hard one of 2^31 milliseconds there is a run after which a timer is armed whose request is settled; the other way round there is none, although the soft timeout is longer |
| `WorkerProtocol.LateSoftTimerStays` | objc-jupyter-wasm/js/objc-kernel.ts:542-575 | whenever the soft delay is longer, the run of one execution whose hard timer fires leaves a timer armed whose request is settled |
| `Interrupts.FlagSetIff` | objc-jupyter-wasm/js/objc-kernel.ts:507-645 | after every run the interrupt flag is set if and only if an interrupt or a soft timer set it and since then no request was made, no reply delivered, no restart happened and the worker took up no execution |
| `Interrupts.StepFlag` | objc-jupyter-wasm/js/objc-kernel.ts:507-645 | no event both sets and clears the flag; an event that does neither leaves it alone |
| `Interrupts.InterruptLost` | objc-jupyter-wasm/js/objc-kernel.ts:507-527 | from every state of a kernel in use: an execution is interrupted, something else is asked for, and the flag is gone while the execution is still pending |
| `Interrupts.StrayTimerInterrupts` | objc-jupyter-wasm/js/objc-kernel.ts:542-556 | whenever the soft delay is longer there is a run in which the soft timer of a settled execution sets the flag while only a later execution is pending |
| `SplitReplace.ComponentsSeparatedByString` | objc-jupyter-wasm/kernel/objc_interp_messages.c:1675-1739 | the greedy scanner returns the components between leftmost separators, every character for an empty separator, and nothing when storage runs out |
| `SplitReplace.StringByReplacingOccurrences` | objc-jupyter-wasm/kernel/objc_interp_messages.c:1600-1645 | two passes, counting and filling: given a block of the computed size, the new string is the components joined by the replacement if and only if that is shorter than 2^31 characters; otherwise the filling pass overruns the block or leaves another string |
| `SplitReplace.FillReplaced` | objc-jupyter-wasm/kernel/objc_interp_messages.c:1626-1642 | the filling pass in a block of any size: it clips replacements, not copied characters, to the block, and writes behind the block exactly when what it writes is longer |
| `SplitReplace.FillRepeats` | objc-jupyter-wasm/kernel/objc_interp_messages.c:1626-1642 | where the whole source is to be replaced, the filling pass writes the replacement over and over, up to the last cell of the block |
| `SplitReplace.ReplaceRightIff` | objc-jupyter-wasm/kernel/objc_interp_messages.c:1600-1645 | for all strings: given a block, replacing yields the split source joined with the replacement if and only if that is shorter than 2^31 characters |
| `SplitReplace.WrappedSize` | objc-jupyter-wasm/kernel/objc_interp_messages.c:1621-1642 | replacing each of 50000 characters by 50000 yields the empty string, and one more character that does not match is written outside the block |
| `SplitReplace.ReplaceIsSplitJoin` | objc-jupyter-wasm/kernel/objc_interp_messages.c:1600-1739 | replacing is splitting and joining with the replacement |
| `SplitReplace.JoinRestores` | objc-jupyter-wasm/kernel/objc_interp_messages.c:1675-1739 | joining the components with the separator gives the source back |
| `SplitReplace.NoComponentContains` | objc-jupyter-wasm/kernel/objc_interp_messages.c:1675-1739 | no component contains the separator |
| `SplitReplace.SplitUndoesJoinIff` | objc-jupyter-wasm/kernel/objc_interp_messages.c:1675-1739 | a list of parts survives joining and splitting exactly when the separator first occurs at the end of each part and not in the last |
| `SplitReplace.SizeExactIff` | objc-jupyter-wasm/kernel/objc_interp_messages.c:1621-1625 | the 32-bit size computation is exact if and only if the result is shorter than 2^31 |
| `SplitReplace.CountMatches` | objc-jupyter-wasm/kernel/objc_interp_messages.c:1611-1620 | the counting pass counts the occurrences the filling pass replaces |
| `Dispatch.FindInterpreterMethod` | objc-jupyter-wasm/kernel/objc_interp_dispatch.c:97-208 | an ordinary send finds the earliest registered method of the nearest class, the receiver's own first, then its ancestors by name; it has the selector and is on the side of the receiver, and nothing is found only if the receiver's own class has none |
| `Dispatch.FindInterpreterMethodSuper` | objc-jupyter-wasm/kernel/objc_interp_dispatch.c:265-305 | a super send finds the earliest registered method with source in the nearest ancestor by pointer |
| `Dispatch.ClassGetSuperclassName` | objc-jupyter-wasm/kernel/objc_interp_dispatch.c:211-219 | the first hierarchy row of the class |
| `Dispatch.SuperNameIs` | objc-jupyter-wasm/kernel/objc_interp_dispatch.c:211-219 | row by row: the parent of the first row with the name |
| `Dispatch.PtrForIs` | objc-jupyter-wasm/kernel/objc_interp_dispatch.c:222-230 | row by row: the pointer of the first class variable with the name, or 0 |
| `Dispatch.NameForIs` | objc-jupyter-wasm/kernel/objc_interp_dispatch.c:233-241 | row by row: the name of the first class variable with the pointer |
| `Dispatch.AncestorsAre` | objc-jupyter-wasm/kernel/objc_interp_dispatch.c:97-208 | the names searched are each on record as the parent of the one before, at most 16 of them and otherwise up to a class without a parent |
| `Dispatch.NearestUnique` | objc-jupyter-wasm/kernel/objc_interp_dispatch.c:97-305 | there is only one such method |
| `Dispatch.SuperIsOrdinaryFromParent` | objc-jupyter-wasm/kernel/objc_interp_dispatch.c:97-305 | over one-to-one names and pointers and at most 16 bound ancestors, a super send finds what an ordinary send to the superclass finds, if and only if that is nothing or a method with source |
| `Dispatch.NativeMethodMissed` | objc-jupyter-wasm/kernel/objc_interp_primary.c:774-782 | a method registered without source is found by an ordinary send to its class and not by a super send from a subclass |
| `Lexers.Lexer.Next` | objc-jupyter-wasm/kernel/objc_interp_lexer.c:49-61 | one character on, with line and column those of the text consumed |
| `Lexers.Lexer.SkipWhitespaceAndComments` | objc-jupyter-wasm/kernel/objc_interp_lexer.c:63-96 | passes over blanks and comments only, and all of them |
| `Lexers.Lexer.NextToken` | objc-jupyter-wasm/kernel/objc_interp_lexer.c:98-581 | returns the end of the source or advances strictly; only blanks, comments and directive lines are passed over, the token has the extent and text its first character calls for, its text fits 256 bytes, and its line and column are those of its first character |
| `Lexers.Lexer.CollectString` | objc-jupyter-wasm/kernel/objc_interp_lexer.c:158-203 | a string literal ends behind the first quote no backslash escapes; its text is the decoded contents, cut to the buffer, and the flag says whether it was cut |
| `Lexers.Tokenize` | objc-jupyter-wasm/kernel/objc_interp_lexer.c:98-581 | reading tokens to the end terminates; blanks, comments and directives are all that lies between the tokens, and every token has its extent, text, line and column |
| `Lexers.TokensDisjoint` | objc-jupyter-wasm/kernel/objc_interp_lexer.c:98-581 | token ranges are non-empty, ascending and disjoint |
| `Lexers.TextFits` | objc-jupyter-wasm/kernel/objc_interp_lexer.c:98-581 | the text of every kind of token is shorter than the buffer |
| `Lexers.UnclosedCommentToken` | objc-jupyter-wasm/kernel/objc_interp_lexer.c:75-92 | behind an unclosed block comment there is exactly one more token, the last character of the source, if something follows the opening and that character is neither blank nor a #; otherwise there is none |
| `Lexers.UnclosedWitness` | objc-jupyter-wasm/kernel/objc_interp_lexer.c:75-92 | an unclosed comment that ends in x leaves the token x, the same with a blank behind it leaves none |
| `LexicalGrammar.StringCharEnd` | objc-jupyter-wasm/kernel/objc_interp_lexer.c:158-203 | consuming an escape, hexadecimal digits included, never skips the closing quote |
| `Spellings.SpelledReads` | objc-jupyter-wasm/kernel/objc_interp_lexer.c:158-203 | for all texts, however each character is spelled - as itself, behind a backslash, as a short escape or by two hexadecimal digits: the literal is read as that text and ends behind the first quote that follows |
| `Spellings.CharReads` | objc-jupyter-wasm/kernel/objc_interp_lexer.c:218-232 | a character literal is the code of its character or escape |
| `Spellings.DecimalReads` | objc-jupyter-wasm/kernel/objc_interp_lexer.c:239-262 | its token text is that number in decimal, without leading zeros |
| `Spellings.WordReads` | objc-jupyter-wasm/kernel/objc_interp_lexer.c:332-387 | what every word is read as: a reserved word, 1, 0, nil, another name, or itself |
| `Spellings.PairReads` | objc-jupyter-wasm/kernel/objc_interp_lexer.c:448-547 | exactly which two characters form one operator |
| `Spellings.LineCounts` | objc-jupyter-wasm/kernel/objc_interp_lexer.c:49-61 | the line is one more than the number of newlines in front |
| `Spellings.ColumnCounts` | objc-jupyter-wasm/kernel/objc_interp_lexer.c:49-61 | the column counts the characters since the last newline |

## Left out

- Refines: `Ast.Structured` shuts out the combinations for which the flags have no outcome semantics: a continue in a case with another one or the default behind it, a statement in a block behind one that may throw, a break, continue or return out of a try or catch body with a finally part behind it, and loops, switches, try statements and throws in a finally part that an exception may be pending in. `NodeFlags`, `TryRuns` and the other theorems on flags hold for them too.
- EvalForIn: what the loop iterates over and the binding of the loop variable are parameters.
- StringByReplacingOccurrences: what a write behind the block destroys.
- ObjAlloc: request sizes are natural numbers; the 32-bit wrap of a size near 2^32 is not modelled.
- StringSpan: a string without a NUL is scanned to the end of the pool array, not beyond it.
- EncodeValue: strings with lone surrogates, which the encoder replaces and the model's UTF-8 texts cannot hold; and key sorting.
- Decode: keys that are not text and a one-byte argument cut off by the end of the input are reported as unmodelled; the input is the whole of its buffer, as otherwise wide arguments at its end are read from what follows.
- RestartWorker: the order in which pending requests are rejected, and errors thrown while creating a worker.
- FindInterpreterMethod: the class of an object receiver is an argument; the table of marker prefixes that yields it is not modelled.
- ComponentsSeparatedByString: storage is a number of components for which there is room, not the heap and table themselves.
- Destroying or adding to a collection through a stale id whose slot is active again is not prevented by the code; the contracts of `DestroyCollection` and `Add` say what happens then.
- Struct instances keep handles in fields that are not roots of the collector; only kept handles keep their strings.
- The line counter after the for-in lookahead of the parser, which restores the position but not the line.
- The expression, statement and block parsers, the other Foundation methods, printf-style formatting, HMAC, WASM loading, WASI, Jupyter messages and the user interface.
