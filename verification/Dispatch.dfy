/** Method lookup: an ordinary send searches the receiver's class and then its ancestors by name; a super
    send collects the pointers of the ancestors first and searches those. */
module Dispatch {
  import opened Options


  datatype Var = Var(name: string, isClass: bool, cls: nat)
  datatype Inherits = Inherits(name: string, parent: string)
  datatype MethodImpl = MethodImpl(selector: nat, classPtr: nat, isClassMethod: bool, sourceLen: nat)

  /** The tables a lookup reads. */
  datatype World = World(vars: seq<Var>, hierarchy: seq<Inherits>, methods: seq<MethodImpl>)

  /** The receiver of a send: a class, an object or integer (class 0 when it has none), or neither. */
  datatype Target = ClassTarget(cls: nat) | InstanceTarget(cls: nat) | OtherTarget

  const MAX_LEVELS: nat := 16

  // ---- The three table lookups ----

  predicate NamesClass(v: Var, name: string) {
    v.isClass && v.name == name
  }

  predicate IsClassVar(v: Var, cls: nat) {
    v.isClass && v.cls == cls
  }

  /** The class pointer bound to a name, or 0. */
  function PtrFor(vars: seq<Var>, name: string): nat {
    if vars == [] then 0
    else if NamesClass(vars[0], name) then vars[0].cls
    else PtrFor(vars[1..], name)
  }

  /** The name bound to a class pointer. */
  function NameFor(vars: seq<Var>, cls: nat): Option<string> {
    if vars == [] then None
    else if IsClassVar(vars[0], cls) then Some(vars[0].name)
    else NameFor(vars[1..], cls)
  }

  /** The superclass name on record for a class name. */
  function SuperName(h: seq<Inherits>, name: string): Option<string> {
    if h == [] then None
    else if h[0].name == name then Some(h[0].parent)
    else SuperName(h[1..], name)
  }

  /** Each lookup takes the first row that fits. */
  lemma {:induction false} PtrForIs(vars: seq<Var>, name: string) returns (i: nat)
    ensures i <= |vars| && forall j :: 0 <= j < i ==> !(vars[j].isClass && vars[j].name == name)
    ensures i < |vars| ==> vars[i].isClass && vars[i].name == name && PtrFor(vars, name) == vars[i].cls
    ensures i == |vars| ==> PtrFor(vars, name) == 0
  {
    i := 0;
    if vars != [] && !NamesClass(vars[0], name) {
      var k := PtrForIs(vars[1..], name);
      i := k + 1;
    }
  }

  lemma {:induction false} NameForIs(vars: seq<Var>, cls: nat) returns (i: nat)
    ensures i <= |vars| && forall j :: 0 <= j < i ==> !(vars[j].isClass && vars[j].cls == cls)
    ensures i < |vars| ==> vars[i].isClass && vars[i].cls == cls && NameFor(vars, cls) == Some(vars[i].name)
    ensures i == |vars| ==> NameFor(vars, cls) == None
  {
    i := 0;
    if vars != [] && !IsClassVar(vars[0], cls) {
      var k := NameForIs(vars[1..], cls);
      i := k + 1;
    }
  }

  lemma {:induction false} SuperNameIs(h: seq<Inherits>, name: string) returns (i: nat)
    ensures i <= |h| && forall j :: 0 <= j < i ==> h[j].name != name
    ensures i < |h| ==> h[i].name == name && SuperName(h, name) == Some(h[i].parent)
    ensures i == |h| ==> SuperName(h, name) == None
  {
    i := 0;
    if h != [] && h[0].name != name {
      var k := SuperNameIs(h[1..], name);
      i := k + 1;
    }
  }

  method ClassGetSuperclassName(w: World, name: string) returns (r: Option<string>)
    ensures r == SuperName(w.hierarchy, name)
  {
    var hi := 0;
    while hi < |w.hierarchy|
      invariant 0 <= hi <= |w.hierarchy|
      invariant SuperName(w.hierarchy[hi..], name) == SuperName(w.hierarchy, name)
    {
      assert w.hierarchy[hi..][1..] == w.hierarchy[hi + 1..];
      if w.hierarchy[hi].name == name {
        return Some(w.hierarchy[hi].parent);
      }
      hi := hi + 1;
    }
    r := None;
  }

  method ClassPtrForName(w: World, name: string) returns (cls: nat)
    ensures cls == PtrFor(w.vars, name)
  {
    var vi := 0;
    while vi < |w.vars|
      invariant 0 <= vi <= |w.vars|
      invariant PtrFor(w.vars[vi..], name) == PtrFor(w.vars, name)
    {
      assert w.vars[vi..][1..] == w.vars[vi + 1..];
      if w.vars[vi].isClass && w.vars[vi].name == name {
        return w.vars[vi].cls;
      }
      vi := vi + 1;
    }
    cls := 0;
  }

  method ClassNameForPtr(w: World, cls: nat) returns (r: Option<string>)
    ensures r == NameFor(w.vars, cls)
  {
    var vi := 0;
    while vi < |w.vars|
      invariant 0 <= vi <= |w.vars|
      invariant NameFor(w.vars[vi..], cls) == NameFor(w.vars, cls)
    {
      assert w.vars[vi..][1..] == w.vars[vi + 1..];
      if w.vars[vi].isClass && w.vars[vi].cls == cls {
        return Some(w.vars[vi].name);
      }
      vi := vi + 1;
    }
    r := None;
  }

  // ---- What a lookup is to find ----

  /** A class as a lookup recognises it: by pointer, by name, or by either. */
  datatype Level = ByPtr(cls: nat) | ByName(name: string) | ByEither(cls: nat, ifNamed: Option<string>)

  /** What a lookup looks for; a super send skips methods without source and those of the skipped class. */
  datatype Query = Query(selector: nat, classSide: bool, onlySourced: bool, skip: Option<nat>)

  predicate AtLevel(w: World, m: MethodImpl, level: Level) {
    match level
    case ByPtr(cls) => m.classPtr == cls
    case ByName(name) => NameFor(w.vars, m.classPtr) == Some(name)
    case ByEither(cls, name) => m.classPtr == cls || (name.Some? && NameFor(w.vars, m.classPtr) == name)
  }

  predicate Answers(m: MethodImpl, q: Query) {
    && m.selector == q.selector && m.isClassMethod == q.classSide
    && (q.onlySourced ==> m.sourceLen > 0)
    && q.skip != Some(m.classPtr)
  }

  predicate Defines(w: World, q: Query, level: Level, mi: nat) {
    mi < |w.methods| && Answers(w.methods[mi], q) && AtLevel(w, w.methods[mi], level)
  }

  predicate NoneBelow(w: World, q: Query, level: Level, hi: nat) {
    forall mi :: 0 <= mi < hi ==> !Defines(w, q, level, mi)
  }

  /** `r` is the earliest registered method of the nearest level that has one; |methods| when no level has. */
  ghost predicate IsNearest(w: World, q: Query, levels: seq<Level>, r: nat) {
    if r < |w.methods|
    then exists k :: 0 <= k < |levels| && NearestAt(w, q, levels, r, k)
    else r == |w.methods| && forall k :: 0 <= k < |levels| ==> NoneBelow(w, q, levels[k], |w.methods|)
  }

  ghost predicate NearestAt(w: World, q: Query, levels: seq<Level>, r: nat, k: nat)
    requires k < |levels|
  {
    && Defines(w, q, levels[k], r) && NoneBelow(w, q, levels[k], r)
    && forall j :: 0 <= j < k ==> NoneBelow(w, q, levels[j], |w.methods|)
  }

  /** There is only one such method. */
  lemma NearestUnique(w: World, q: Query, levels: seq<Level>, r: nat, r': nat)
    requires IsNearest(w, q, levels, r) && IsNearest(w, q, levels, r')
    ensures r == r'
  {
    if r < |w.methods| {
      NearestIs(w, q, levels, r, r');
    } else if r' < |w.methods| {
      NearestIs(w, q, levels, r', r);
    }
  }

  lemma NearestIs(w: World, q: Query, levels: seq<Level>, r: nat, r': nat)
    requires r < |w.methods| && IsNearest(w, q, levels, r) && IsNearest(w, q, levels, r')
    ensures r == r'
  {
    var k :| 0 <= k < |levels| && NearestAt(w, q, levels, r, k);
    assert r' < |w.methods|;
    var k' :| 0 <= k' < |levels| && NearestAt(w, q, levels, r', k');
    assert forall j :: 0 <= j < k ==> !Defines(w, q, levels[j], r');
    assert forall j :: 0 <= j < k' ==> !Defines(w, q, levels[j], r);
  }

  /** The superclass names above a class name, nearest first, at most `depth` of them. */
  function Ancestors(h: seq<Inherits>, name: string, depth: nat): (names: seq<string>)
    ensures |names| <= depth
    decreases depth
  {
    var parent := SuperName(h, name);
    if depth == 0 || parent.None? || parent.value == "" then []
    else [parent.value] + Ancestors(h, parent.value, depth - 1)
  }

  /** The superclass pointers above a class name; the walk also ends at a name without a pointer. */
  function AncestorPtrs(w: World, name: Option<string>, depth: nat): (ptrs: seq<nat>)
    ensures |ptrs| <= depth
    decreases depth
  {
    if depth == 0 || name.None? then []
    else
      var parent := SuperName(w.hierarchy, name.value);
      if parent.None? || parent.value == "" || PtrFor(w.vars, parent.value) == 0 then []
      else [PtrFor(w.vars, parent.value)] + AncestorPtrs(w, parent, depth - 1)
  }

  /** Each name on the way up is on record as the parent of the one before it, and the way ends after `depth` names or
      where there is no parent. */
  lemma {:induction false} AncestorsAre(h: seq<Inherits>, name: string, depth: nat)
    ensures var names := Ancestors(h, name, depth);
            && (forall k :: 0 <= k < |names| ==>
                  names[k] != "" && SuperName(h, if k == 0 then name else names[k - 1]) == Some(names[k]))
            && (|names| < depth ==> SuperName(h, if names == [] then name else names[|names| - 1]) in {None, Some("")})
    decreases depth
  {
    var parent := SuperName(h, name);
    if depth > 0 && parent.Some? && parent.value != "" {
      AncestorsAre(h, parent.value, depth - 1);
    }
  }

  function ByNames(names: seq<string>): (levels: seq<Level>)
    ensures |levels| == |names| && forall k :: 0 <= k < |names| ==> levels[k] == ByName(names[k])
  {
    seq(|names|, k requires 0 <= k < |names| => ByName(names[k]))
  }

  function ByPtrs(ptrs: seq<nat>): (levels: seq<Level>)
    ensures |levels| == |ptrs| && forall k :: 0 <= k < |ptrs| ==> levels[k] == ByPtr(ptrs[k])
  {
    seq(|ptrs|, k requires 0 <= k < |ptrs| => ByPtr(ptrs[k]))
  }

  /** The name an ordinary send starts from. */
  function StartName(w: World, target: Target): Option<string> {
    match target
    case ClassTarget(cls) => NameFor(w.vars, cls)
    case InstanceTarget(cls) => if cls == 0 then None else NameFor(w.vars, cls)
    case OtherTarget => None
  }

  /** The classes an ordinary send searches, in order. */
  function OrdinaryLevels(w: World, target: Target): seq<Level> {
    if target.OtherTarget? || (target.InstanceTarget? && target.cls == 0) then []
    else
      var name := StartName(w, target);
      [ByEither(target.cls, name)] + ByNames(if name.Some? then Ancestors(w.hierarchy, name.value, MAX_LEVELS) else [])
  }

  /** The classes a super send searches, in order. */
  function SuperLevels(w: World, target: Target, skipClass: nat): seq<Level> {
    if target.OtherTarget? then []
    else ByPtrs(AncestorPtrs(w, NameFor(w.vars, skipClass), MAX_LEVELS))
  }

  function Ordinary(sel: nat, target: Target): Query {
    Query(sel, target.ClassTarget?, false, None)
  }

  function Super(sel: nat, target: Target, skipClass: nat): Query {
    Query(sel, target.ClassTarget?, true, Some(skipClass))
  }

  // ---- The two lookups ----

  /** The earliest method a level defines. */
  method Earliest(w: World, q: Query, level: Level) returns (mi: nat)
    ensures mi <= |w.methods| && NoneBelow(w, q, level, mi)
    ensures mi < |w.methods| ==> Defines(w, q, level, mi)
  {
    mi := 0;
    while mi < |w.methods|
      invariant 0 <= mi <= |w.methods| && NoneBelow(w, q, level, mi)
    {
      var m := w.methods[mi];
      if m.selector == q.selector && m.isClassMethod == q.classSide && !(q.onlySourced && m.sourceLen == 0)
         && q.skip != Some(m.classPtr) {
        match level {
          case ByPtr(cls) =>
            if m.classPtr == cls {
              return;
            }
          case ByName(name) =>
            var own := ClassNameForPtr(w, m.classPtr);
            if own == Some(name) {
              return;
            }
          case ByEither(cls, name) =>
            if m.classPtr == cls {
              return;
            }
            if name.Some? {
              var own := ClassNameForPtr(w, m.classPtr);
              if own == name {
                return;
              }
            }
        }
      }
      mi := mi + 1;
    }
  }

  /** Walk the superclass names above `name` and search each in turn. */
  method SearchAncestors(w: World, q: Query, name: string, limit: nat) returns (r: nat)
    ensures IsNearest(w, q, ByNames(Ancestors(w.hierarchy, name, limit)), r)
  {
    hide Defines;
    ghost var names := Ancestors(w.hierarchy, name, limit);
    ghost var levels := ByNames(names);
    var current, depth := name, 0;
    while depth < limit
      invariant 0 <= depth <= limit && depth <= |names|
      invariant names[depth..] == Ancestors(w.hierarchy, current, limit - depth)
      invariant forall k :: 0 <= k < depth ==> NoneBelow(w, q, levels[k], |w.methods|)
    {
      var parent := ClassGetSuperclassName(w, current);
      if parent.None? || parent.value == "" {
        break;
      }
      assert names[depth] == names[depth..][0] == parent.value;
      r := Earliest(w, q, ByName(parent.value));
      if r < |w.methods| {
        assert NearestAt(w, q, levels, r, depth);
        return;
      }
      assert names[depth + 1..] == names[depth..][1..];
      current := parent.value;
      depth := depth + 1;
    }
    assert |names[depth..]| == 0;
    r := |w.methods|;
  }

  /** A search of one level and then of the others. */
  lemma FirstThenRest(w: World, q: Query, level: Level, rest: seq<Level>, r: nat, r': nat)
    requires r <= |w.methods| && NoneBelow(w, q, level, r)
    requires r < |w.methods| ==> Defines(w, q, level, r)
    requires r == |w.methods| ==> IsNearest(w, q, rest, r')
    ensures IsNearest(w, q, [level] + rest, if r < |w.methods| then r else r')
  {
    var levels := [level] + rest;
    if r < |w.methods| {
      assert NearestAt(w, q, levels, r, 0);
    } else if r' < |w.methods| {
      var k :| 0 <= k < |rest| && NearestAt(w, q, rest, r', k);
      assert forall j :: 0 <= j < k ==> levels[j + 1] == rest[j];
      assert forall j :: 0 < j <= k ==> NoneBelow(w, q, levels[j], |w.methods|) by {
        forall j | 0 < j <= k ensures NoneBelow(w, q, levels[j], |w.methods|) {
          assert j - 1 < k ==> levels[j] == rest[j - 1];
          assert levels[j] == rest[j - 1];
        }
      }
      assert NearestAt(w, q, levels, r', k + 1);
    } else {
      forall k | 0 <= k < |levels| ensures NoneBelow(w, q, levels[k], |w.methods|) {
        assert k > 0 ==> levels[k] == rest[k - 1];
      }
    }
  }

  lemma OwnMissed(w: World, q: Query, cls: nat, name: Option<string>, r: nat)
    requires NoneBelow(w, q, ByEither(cls, name), r) && r <= |w.methods|
    ensures forall i :: 0 <= i < r && w.methods[i].classPtr == cls ==> !Answers(w.methods[i], q)
  {
    forall i | 0 <= i < r && w.methods[i].classPtr == cls ensures !Answers(w.methods[i], q) {
      assert !Defines(w, q, ByEither(cls, name), i);
    }
  }

  method FindInterpreterMethod(w: World, sel: nat, target: Target) returns (r: nat)
    ensures IsNearest(w, Ordinary(sel, target), OrdinaryLevels(w, target), r)
    ensures r < |w.methods| ==> w.methods[r].selector == sel && w.methods[r].isClassMethod == target.ClassTarget?
    ensures r == |w.methods| && !target.OtherTarget? && target.cls != 0 ==>
              forall i | 0 <= i < |w.methods| && w.methods[i].classPtr == target.cls ::
                w.methods[i].selector == sel ==> w.methods[i].isClassMethod != target.ClassTarget?
  {
    if target.OtherTarget? || (target.InstanceTarget? && target.cls == 0) {
      return |w.methods|;
    }
    var q := Ordinary(sel, target);
    var targetName := ClassNameForPtr(w, target.cls);
    r := Earliest(w, q, ByEither(target.cls, targetName));
    ghost var own := r;
    OwnMissed(w, q, target.cls, targetName, r);
    if r == |w.methods| && targetName.Some? {
      r := SearchAncestors(w, q, targetName.value, MAX_LEVELS);
    }
    FirstThenRest(w, q, ByEither(target.cls, targetName), OrdinaryLevels(w, target)[1..], own, r);
    assert OrdinaryLevels(w, target) == [ByEither(target.cls, targetName)] + OrdinaryLevels(w, target)[1..];
  }

  /** The superclass pointers above a class name. */
  method CollectSuperclasses(w: World, name: Option<string>, limit: nat) returns (superClasses: seq<nat>)
    ensures superClasses == AncestorPtrs(w, name, limit)
  {
    var current := name;
    superClasses := [];
    while current.Some? && |superClasses| < limit
      invariant |superClasses| <= limit
      invariant superClasses + AncestorPtrs(w, current, limit - |superClasses|) == AncestorPtrs(w, name, limit)
      decreases limit - |superClasses|
    {
      var parent := ClassGetSuperclassName(w, current.value);
      if parent.None? || parent.value == "" {
        return;
      }
      var parentCls := ClassPtrForName(w, parent.value);
      if parentCls == 0 {
        return;
      }
      ghost var rest := AncestorPtrs(w, parent, limit - |superClasses| - 1);
      assert superClasses + ([parentCls] + rest) == superClasses + [parentCls] + rest;
      superClasses := superClasses + [parentCls];
      current := parent;
    }
  }

  method FindInterpreterMethodSuper(w: World, sel: nat, target: Target, skipClass: nat) returns (r: nat)
    ensures IsNearest(w, Super(sel, target, skipClass), SuperLevels(w, target, skipClass), r)
    ensures r < |w.methods| ==>
              && w.methods[r].selector == sel && w.methods[r].isClassMethod == target.ClassTarget?
              && w.methods[r].sourceLen > 0 && w.methods[r].classPtr != skipClass
  {
    var skipName := ClassNameForPtr(w, skipClass);
    var superClasses := CollectSuperclasses(w, skipName, MAX_LEVELS);
    r := |w.methods|;
    if target.OtherTarget? {
      return;
    }
    var q := Super(sel, target, skipClass);
    ghost var levels := SuperLevels(w, target, skipClass);
    var si := 0;
    while si < |superClasses|
      invariant 0 <= si <= |superClasses| && r == |w.methods|
      invariant forall k :: 0 <= k < si ==> NoneBelow(w, q, levels[k], |w.methods|)
    {
      r := Earliest(w, q, ByPtr(superClasses[si]));
      if r < |w.methods| {
        assert NearestAt(w, q, levels, r, si);
        return;
      }
      si := si + 1;
    }
  }

  // ---- A super send is an ordinary send from the superclass ----

  /** Class names and class pointers determine each other, and 0 is no class. */
  predicate OneToOne(vars: seq<Var>) {
    forall i, j :: 0 <= i < |vars| && 0 <= j < |vars| && vars[i].isClass && vars[j].isClass ==>
      vars[i].cls != 0 && (vars[i].name == vars[j].name <==> vars[i].cls == vars[j].cls)
  }

  lemma {:induction false} PtrForFound(vars: seq<Var>, name: string)
    ensures PtrFor(vars, name) != 0 ==>
              exists i :: 0 <= i < |vars| && NamesClass(vars[i], name) && vars[i].cls == PtrFor(vars, name)
  {
    if vars != [] && !NamesClass(vars[0], name) {
      PtrForFound(vars[1..], name);
      if PtrFor(vars, name) != 0 {
        var i :| 0 <= i < |vars[1..]| && NamesClass(vars[1..][i], name) && vars[1..][i].cls == PtrFor(vars, name);
        assert vars[i + 1] == vars[1..][i];
      }
    }
  }

  lemma {:induction false} NameForFound(vars: seq<Var>, cls: nat)
    ensures NameFor(vars, cls).Some? ==>
              exists i :: 0 <= i < |vars| && IsClassVar(vars[i], cls) && NameFor(vars, cls) == Some(vars[i].name)
    ensures NameFor(vars, cls).None? ==> forall i :: 0 <= i < |vars| ==> !IsClassVar(vars[i], cls)
  {
    if vars != [] && !IsClassVar(vars[0], cls) {
      NameForFound(vars[1..], cls);
      if NameFor(vars, cls).Some? {
        var i :| 0 <= i < |vars[1..]| && IsClassVar(vars[1..][i], cls) && NameFor(vars, cls) == Some(vars[1..][i].name);
        assert vars[i + 1] == vars[1..][i];
      } else {
        forall i | 0 <= i < |vars| ensures !IsClassVar(vars[i], cls) {
          assert i > 0 ==> vars[i] == vars[1..][i - 1];
        }
      }
    }
  }

  /** For a bound name, being of that name and having its pointer are the same. */
  lemma NameIsPtr(vars: seq<Var>, name: string, cls: nat)
    requires OneToOne(vars) && PtrFor(vars, name) != 0
    ensures NameFor(vars, cls) == Some(name) <==> cls == PtrFor(vars, name)
  {
    PtrForFound(vars, name);
    NameForFound(vars, cls);
    var i :| 0 <= i < |vars| && NamesClass(vars[i], name) && vars[i].cls == PtrFor(vars, name);
    if NameFor(vars, cls).Some? {
      var j :| 0 <= j < |vars| && IsClassVar(vars[j], cls) && NameFor(vars, cls) == Some(vars[j].name);
    } else {
      assert !IsClassVar(vars[i], cls);
    }
  }

  predicate AllBound(vars: seq<Var>, names: seq<string>) {
    forall k :: 0 <= k < |names| ==> PtrFor(vars, names[k]) != 0
  }

  /** Over bound names the two walks visit the same classes. */
  lemma {:induction false} WalksAgree(w: World, name: string, depth: nat)
    requires AllBound(w.vars, Ancestors(w.hierarchy, name, depth))
    ensures var names := Ancestors(w.hierarchy, name, depth);
            var ptrs := AncestorPtrs(w, Some(name), depth);
            |ptrs| == |names| && forall k :: 0 <= k < |names| ==> ptrs[k] == PtrFor(w.vars, names[k])
    decreases depth
  {
    var names := Ancestors(w.hierarchy, name, depth);
    if |names| > 0 {
      assert names[1..] == Ancestors(w.hierarchy, names[0], depth - 1);
      WalksAgree(w, names[0], depth - 1);
    }
  }

  /** A walk that ended before its limit is not changed by a higher limit. */
  lemma {:induction false} WalkEnds(h: seq<Inherits>, name: string, depth: nat)
    requires |Ancestors(h, name, depth + 1)| <= depth
    ensures Ancestors(h, name, depth + 1) == Ancestors(h, name, depth)
    decreases depth
  {
    var names := Ancestors(h, name, depth + 1);
    if |names| > 0 {
      assert names[1..] == Ancestors(h, names[0], depth);
      WalkEnds(h, names[0], depth - 1);
    }
  }

  /** Searching the same classes, a lookup restricted to methods with source finds the same method exactly
      when the unrestricted one finds none or one with source. */
  lemma RestrictionAgrees(w: World, q: Query, levels: seq<Level>, q': Query, levels': seq<Level>, r: nat, r': nat)
    requires |levels| == |levels'|
    requires forall k, mi :: 0 <= k < |levels| && 0 <= mi < |w.methods| ==>
               (Defines(w, q', levels'[k], mi) <==> Defines(w, q, levels[k], mi) && w.methods[mi].sourceLen > 0)
    requires IsNearest(w, q, levels, r) && IsNearest(w, q', levels', r')
    ensures r' == r <==> r == |w.methods| || w.methods[r].sourceLen > 0
  {
    if r' < |w.methods| {
      var k' :| 0 <= k' < |levels'| && NearestAt(w, q', levels', r', k');
      assert w.methods[r'].sourceLen > 0;
    }
    if r == |w.methods| {
      assert forall k :: 0 <= k < |levels| ==> NoneBelow(w, q', levels'[k], |w.methods|);
      NearestUnique(w, q', levels', r, r');
    } else if w.methods[r].sourceLen > 0 {
      var k :| 0 <= k < |levels| && NearestAt(w, q, levels, r, k);
      assert NearestAt(w, q', levels', r, k);
      NearestUnique(w, q', levels', r, r');
    }
  }

  /** From a class whose ancestors all have pointers, number at most 16 and do not include itself, a super
      send finds exactly what an ordinary send to its superclass finds, unless that is a method without
      source. */
  lemma SuperIsOrdinaryFromParent(w: World, sel: nat, skipClass: nat, name: string, classSide: bool, r: nat, r': nat)
    requires OneToOne(w.vars) && NameFor(w.vars, skipClass) == Some(name)
    requires AllBound(w.vars, Ancestors(w.hierarchy, name, MAX_LEVELS + 1))
    requires 0 < |Ancestors(w.hierarchy, name, MAX_LEVELS + 1)| <= MAX_LEVELS
    requires name !in Ancestors(w.hierarchy, name, MAX_LEVELS + 1)
    requires var parent := PtrFor(w.vars, Ancestors(w.hierarchy, name, MAX_LEVELS + 1)[0]);
             var target := if classSide then ClassTarget(parent) else InstanceTarget(parent);
             && IsNearest(w, Ordinary(sel, target), OrdinaryLevels(w, target), r)
             && IsNearest(w, Super(sel, target, skipClass), SuperLevels(w, target, skipClass), r')
    ensures r' == r <==> r == |w.methods| || w.methods[r].sourceLen > 0
  {
    hide PtrFor, NameFor, SuperName, OneToOne, AncestorPtrs, IsNearest;
    var names := Ancestors(w.hierarchy, name, MAX_LEVELS + 1);
    var parent := PtrFor(w.vars, names[0]);
    var target := if classSide then ClassTarget(parent) else InstanceTarget(parent);
    var q, q' := Ordinary(sel, target), Super(sel, target, skipClass);
    var levels, levels' := OrdinaryLevels(w, target), SuperLevels(w, target, skipClass);
    NameIsPtr(w.vars, names[0], parent);
    assert names == [names[0]] + Ancestors(w.hierarchy, names[0], MAX_LEVELS);
    WalkEnds(w.hierarchy, name, MAX_LEVELS);
    WalksAgree(w, name, MAX_LEVELS);
    assert |levels| == |names| == |levels'|;
    forall k, mi | 0 <= k < |levels| && 0 <= mi < |w.methods|
      ensures Defines(w, q', levels'[k], mi) <==> Defines(w, q, levels[k], mi) && w.methods[mi].sourceLen > 0
    {
      var m := w.methods[mi];
      NameIsPtr(w.vars, names[k], m.classPtr);
      assert levels'[k] == ByPtr(PtrFor(w.vars, names[k]));
      assert k > 0 ==> levels[k] == ByName(names[k]);
      if m.classPtr == skipClass {
        assert names[k] != name;
      }
    }
    RestrictionAgrees(w, q, levels, q', levels', r, r');
  }

  /** A class P with one method without source, as class_addMethod registers it, and a subclass C. */
  const NATIVE: World :=
    World([Var("P", true, 1), Var("C", true, 2)], [Inherits("C", "P")], [MethodImpl(7, 1, false, 0)])

  /** A send to an object of P finds that method, a super send from C does not. */
  lemma NativeMethodMissed()
    ensures IsNearest(NATIVE, Ordinary(7, InstanceTarget(1)), OrdinaryLevels(NATIVE, InstanceTarget(1)), 0)
    ensures IsNearest(NATIVE, Super(7, InstanceTarget(1), 2), SuperLevels(NATIVE, InstanceTarget(1), 2), 1)
  {
    var q, levels := Ordinary(7, InstanceTarget(1)), OrdinaryLevels(NATIVE, InstanceTarget(1));
    assert NATIVE.vars[1..] == [Var("C", true, 2)];
    assert levels[0].ByEither? && Defines(NATIVE, q, levels[0], 0);
    assert NearestAt(NATIVE, q, levels, 0, 0);
  }
}
