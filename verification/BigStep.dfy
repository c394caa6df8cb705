/** A big-step semantics with explicit outcomes instead of pending flags. */
module BigStep {
  import opened Options
  import opened Ast

  datatype Outcome = Normal | Broke | Continued | Returned | Threw

  /** What a run changes besides the counters: the store, the exception thrown last and not done with, and how many
      try statements and autorelease pools are open. */
  datatype World<S> = World(store: S, exception: Val, tries: nat, pools: nat)

  /** The effect of a source range on the store; `iterations` is the loop counter afterwards. */
  datatype Effect<S> = Effect(store: S, value: Val, iterations: nat)

  /** A finished run, or one that fails: it hits a limit, nothing catches an exception, or there is none to throw
      again. */
  datatype Result<S> = Done(store: S, outcome: Outcome, value: Val, iterations: nat) | Stuck

  /** What a for-in loop iterates over, and the effect of finding out. */
  datatype Start<S> = Start(kind: Iteration, store: S, iterations: nat)

  /** Whether a for-in loop has another element, and the effect of binding the loop variable to it. */
  datatype Bound<S> = Bound(found: bool, store: S, iterations: nat)

  /** The effect of binding a catch variable to an exception. */
  datatype CatchBound<S> = CatchBound(store: S, iterations: nat)

  /** The meaning of what is outside the tree: source ranges, the start of a for-in loop over a collection, the
      binding of a variable to its n-th element, and that of a catch variable. */
  datatype Meaning<!S> = Meaning(
    leaf: (Range, S, nat) -> Effect<S>,
    begin: (Val, S, nat) -> Start<S>,
    bind: (string, Val, Iteration, nat, S, nat) -> Bound<S>,
    bindCatch: (string, Val, S, nat) -> CatchBound<S>)

  /** All these only ever count loop iterations up, within the budget. */
  ghost predicate Counting<S(!new)>(m: Meaning<S>) {
    && (forall r, s: S, n: nat | n <= MAX_LOOP_ITERATIONS :: n <= m.leaf(r, s, n).iterations <= MAX_LOOP_ITERATIONS)
    && (forall v, s: S, n: nat | n <= MAX_LOOP_ITERATIONS ::
          n <= m.begin(v, s, n).iterations <= MAX_LOOP_ITERATIONS)
    && (forall x, v, kind, k: nat, s: S, n: nat | n <= MAX_LOOP_ITERATIONS ::
          n <= m.bind(x, v, kind, k, s, n).iterations <= MAX_LOOP_ITERATIONS)
    && (forall x, v, s: S, n: nat | n <= MAX_LOOP_ITERATIONS ::
          n <= m.bindCatch(x, v, s, n).iterations <= MAX_LOOP_ITERATIONS)
  }

  function Leaf<S>(m: Meaning<S>, r: Range, s: World<S>, n: nat): Effect<World<S>> {
    var e := m.leaf(r, s.store, n);
    Effect(s.(store := e.store), e.value, e.iterations)
  }

  function Begin<S>(m: Meaning<S>, v: Val, s: World<S>, n: nat): Start<World<S>> {
    var b := m.begin(v, s.store, n);
    Start(b.kind, s.(store := b.store), b.iterations)
  }

  function Bind<S>(m: Meaning<S>, x: string, v: Val, kind: Iteration, k: nat, s: World<S>, n: nat): Bound<World<S>> {
    var b := m.bind(x, v, kind, k, s.store, n);
    Bound(b.found, s.(store := b.store), b.iterations)
  }

  /** Bind the catch variable, if the catch names one, to the exception. */
  function BindCatch<S>(m: Meaning<S>, x: string, s: World<S>, n: nat): CatchBound<World<S>> {
    if x == "" then CatchBound(s, n)
    else var b := m.bindCatch(x, s.exception, s.store, n); CatchBound(s.(store := b.store), b.iterations)
  }

  function Finished<S>(e: Effect<S>): Result<S> {
    Done(e.store, Normal, e.value, e.iterations)
  }

  function RunRange<S(!new)>(m: Meaning<S>, r: Range, s: World<S>, n: nat, depth: nat): (res: Result<World<S>>) {
    if depth == 0 then Stuck
    else Finished(Leaf(m, r, s, n))
  }

  /** && and ||, the right side only when the left one leaves it open. */
  ghost function RunLogical<S(!new)>(m: Meaning<S>, node: Node, s: World<S>, n: nat): (e: Effect<World<S>>)
    requires Counting(m) && (node.And? || node.Or?) && n <= MAX_LOOP_ITERATIONS
    ensures n <= e.iterations <= MAX_LOOP_ITERATIONS
  {
    var l := Leaf(m, node.left, s, n);
    if node.And? && !Truthy(l.value) then l.(value := Int(0))
    else if node.Or? && Truthy(l.value) then l.(value := Int(1))
    else var r := Leaf(m, node.right, l.store, l.iterations); r.(value := Int(if Truthy(r.value) then 1 else 0))
  }

  ghost function RunTernary<S(!new)>(m: Meaning<S>, node: Node, s: World<S>, n: nat): (e: Effect<World<S>>)
    requires Counting(m) && node.Ternary? && n <= MAX_LOOP_ITERATIONS
    ensures n <= e.iterations <= MAX_LOOP_ITERATIONS
  {
    var c := Leaf(m, node.cond, s, n);
    Leaf(m, if Truthy(c.value) then node.yes else node.no, c.store, c.iterations)
  }

  /** The condition of a for loop; an empty one is true. */
  function RunForCond<S(!new)>(m: Meaning<S>, r: Range, s: World<S>, n: nat, depth: nat): (res: Result<World<S>>) {
    if r.len == 0 then Done(s, Normal, Int(1), n) else RunRange(m, r, s, n, depth)
  }

  ghost function Run<S(!new)>(m: Meaning<S>, node: Node, s: World<S>, n: nat, depth: nat): (res: Result<World<S>>)
    requires Counting(m) && Structured(node) && n <= MAX_LOOP_ITERATIONS
    ensures res.Done? ==> n <= res.iterations <= MAX_LOOP_ITERATIONS
    decreases node, 2, 0
  {
    if depth == 0 then Stuck
    else
      match node
      case Statement(r) => Finished(Leaf(m, r, s, n))
      case Return(r) => var e := Leaf(m, r, s, n); Done(e.store, Returned, e.value, e.iterations)
      case Break => Done(s, Broke, Void, n)
      case Continue => Done(s, Continued, Void, n)
      case Noop => Done(s, Normal, Void, n)
      case And(_, _) => Finished(RunLogical(m, node, s, n))
      case Or(_, _) => Finished(RunLogical(m, node, s, n))
      case Ternary(_, _, _) => Finished(RunTernary(m, node, s, n))
      case If(_, _, _) => RunIf(m, node, s, n, depth - 1)
      case Block(children) => RunBlock(m, node, 0, Void, s, n, depth - 1)
      case While(_, _) => RunWhile(m, node, s, n, depth - 1)
      case DoWhile(_, _) => RunDoWhile(m, node, s, n, depth - 1)
      case For(_, _, _, _) => RunForWhole(m, node, s, n, depth - 1)
      case ForIn(_, _, _) => RunForIn(m, node, s, n, depth - 1)
      case Switch(_, _, _) => RunSwitch(m, node, s, n, depth - 1)
      case Try(_, _, _, _) => RunTry(m, node, s, n, depth - 1)
      case Throw(thrown) => RunThrow(m, thrown, s, n)
      case Pool(_) => RunPool(m, node, s, n, depth - 1)
  }

  /** A body that may be missing. */
  ghost function RunOptional<S(!new)>(m: Meaning<S>, body: Option<Node>, s: World<S>, n: nat, depth: nat)
      : (res: Result<World<S>>)
    requires Counting(m) && (body.Some? ==> Structured(body.value)) && n <= MAX_LOOP_ITERATIONS
    ensures res.Done? ==> n <= res.iterations <= MAX_LOOP_ITERATIONS
    decreases body, 3, 0
  {
    if body.None? then Done(s, Normal, Void, n) else Run(m, body.value, s, n, depth)
  }

  /** A throw ends with its exception; without an expression, with the one being caught. */
  ghost function RunThrow<S(!new)>(m: Meaning<S>, thrown: Option<Range>, s: World<S>, n: nat): (res: Result<World<S>>)
    requires Counting(m) && n <= MAX_LOOP_ITERATIONS
    ensures res.Done? ==> n <= res.iterations <= MAX_LOOP_ITERATIONS
  {
    if s.tries == 0 then Stuck
    else if thrown.Some? then
      var e := Leaf(m, thrown.value, s, n);
      Done(e.store.(exception := e.value), Threw, Void, e.iterations)
    else if s.exception.Void? then Stuck
    else Done(s, Threw, Void, n)
  }

  /** The try body, the catch body if that throws, and the finally body in any case; the statement ends as the last of
      them that does not end normally. */
  ghost function RunTry<S(!new)>(m: Meaning<S>, node: Node, s: World<S>, n: nat, depth: nat): (res: Result<World<S>>)
    requires Counting(m) && Structured(node) && node.Try? && n <= MAX_LOOP_ITERATIONS
    ensures res.Done? ==> n <= res.iterations <= MAX_LOOP_ITERATIONS
    decreases node, 1, 1
  {
    if s.tries >= MAX_TRY_DEPTH then Stuck
    else
      var k := RunCaught(m, node, s.(tries := s.tries + 1), n, depth);
      if k.Stuck? then Stuck
      else
        var f := RunOptional(m, node.finallyBody, k.store, k.iterations, depth);
        if f.Stuck? then Stuck
        else
          var o := if f.outcome == Normal then k.outcome else f.outcome;
          Done(Closed(s, f.store, o), o, Void, f.iterations)
  }

  /** Behind the try statement: an exception that does not leave it is forgotten. */
  function Closed<S>(s: World<S>, s': World<S>, o: Outcome): World<S> {
    s'.(tries := s.tries, exception := if o == Threw then s'.exception else Void)
  }

  ghost function RunCaught<S(!new)>(m: Meaning<S>, node: Node, s: World<S>, n: nat, depth: nat): (res: Result<World<S>>)
    requires Counting(m) && Structured(node) && node.Try? && n <= MAX_LOOP_ITERATIONS
    ensures res.Done? ==> n <= res.iterations <= MAX_LOOP_ITERATIONS
    decreases node, 1, 0
  {
    var t := RunOptional(m, node.tryBody, s, n, depth);
    if t.Stuck? || t.outcome != Threw || node.catchBody.None? then t
    else
      var b := BindCatch(m, node.catchVar, t.store, t.iterations);
      Run(m, node.catchBody.value, b.store, b.iterations, depth)
  }

  ghost function RunPool<S(!new)>(m: Meaning<S>, node: Node, s: World<S>, n: nat, depth: nat): (res: Result<World<S>>)
    requires Counting(m) && Structured(node) && node.Pool? && n <= MAX_LOOP_ITERATIONS
    ensures res.Done? ==> n <= res.iterations <= MAX_LOOP_ITERATIONS
    decreases node, 1, 0
  {
    if s.pools >= MAX_POOL_DEPTH then Stuck
    else
      var b := RunOptional(m, node.poolBody, s.(pools := s.pools + 1), n, depth);
      if b.Stuck? then Stuck else Done(b.store.(pools := s.pools), b.outcome, Void, b.iterations)
  }

  ghost function RunSwitch<S(!new)>(m: Meaning<S>, node: Node, s: World<S>, n: nat, depth: nat): (res: Result<World<S>>)
    requires Counting(m) && Structured(node) && node.Switch? && n <= MAX_LOOP_ITERATIONS
    ensures res.Done? ==> n <= res.iterations <= MAX_LOOP_ITERATIONS
    decreases node, 1, |node.cases| + 2
  {
    var e := Leaf(m, node.scrutinee, s, n);
    var matched := MatchedCase(e.value, node.cases, 0);
    if matched < |node.cases| then RunCases(m, node, matched, e.store, e.iterations, depth)
    else RunFallback(m, node, e.store, e.iterations, depth)
  }

  /** The cases from the i-th on, one falling into the next, and then the default; a continue leaves them. */
  ghost function RunCases<S(!new)>(m: Meaning<S>, node: Node, i: nat, s: World<S>, n: nat, depth: nat)
      : (res: Result<World<S>>)
    requires Counting(m) && Structured(node) && node.Switch? && i <= |node.cases| && n <= MAX_LOOP_ITERATIONS
    ensures res.Done? ==> n <= res.iterations <= MAX_LOOP_ITERATIONS
    decreases node, 1, |node.cases| - i + 1
  {
    if i == |node.cases| then RunFallback(m, node, s, n, depth)
    else
      var b := Run(m, node.cases[i].body, s, n, depth);
      if b.Stuck? then Stuck
      else match b.outcome
        case Broke => Done(b.store, Normal, Void, b.iterations)
        case Returned => Done(b.store, Returned, Void, b.iterations)
        case Threw => Done(b.store, Threw, Void, b.iterations)
        case Continued => Done(b.store, Continued, Void, b.iterations)
        case Normal => RunCases(m, node, i + 1, b.store, b.iterations, depth)
  }

  /** The default of a switch; a break leaves the switch, a continue the enclosing loop's round. */
  ghost function RunFallback<S(!new)>(m: Meaning<S>, node: Node, s: World<S>, n: nat, depth: nat)
      : (res: Result<World<S>>)
    requires Counting(m) && Structured(node) && node.Switch? && n <= MAX_LOOP_ITERATIONS
    ensures res.Done? ==> n <= res.iterations <= MAX_LOOP_ITERATIONS
    decreases node, 1, 0
  {
    if node.fallback.None? then Done(s, Normal, Void, n)
    else
      var b := Run(m, node.fallback.value, s, n, depth);
      if b.Stuck? then Stuck
      else Done(b.store, if b.outcome == Broke then Normal else b.outcome, Void, b.iterations)
  }

  ghost function RunIf<S(!new)>(m: Meaning<S>, node: Node, s: World<S>, n: nat, depth: nat): (res: Result<World<S>>)
    requires Counting(m) && Structured(node) && node.If? && n <= MAX_LOOP_ITERATIONS
    ensures res.Done? ==> n <= res.iterations <= MAX_LOOP_ITERATIONS
    decreases node, 1, 0
  {
    var res := RunRange(m, node.cond, s, n, depth);
    if res.Stuck? then Stuck
    else if Truthy(res.value) then Run(m, node.thn, res.store, res.iterations, depth)
    else if node.els.Some? then Run(m, node.els.value, res.store, res.iterations, depth)
    else Done(res.store, Normal, Void, res.iterations)
  }

  /** for (init; cond; increment) body */
  ghost function RunForWhole<S(!new)>(m: Meaning<S>, node: Node, s: World<S>, n: nat, depth: nat)
      : (res: Result<World<S>>)
    requires Counting(m) && Structured(node) && node.For? && n <= MAX_LOOP_ITERATIONS
    ensures res.Done? ==> n <= res.iterations <= MAX_LOOP_ITERATIONS
    decreases node, 1, MAX_LOOP_ITERATIONS + 1
  {
    var res := RunRange(m, node.init, s, n, depth);
    if res.Stuck? then Stuck else RunFor(m, node, res.store, res.iterations, depth)
  }

  /** for (x in collection) body */
  ghost function RunForIn<S(!new)>(m: Meaning<S>, node: Node, s: World<S>, n: nat, depth: nat): (res: Result<World<S>>)
    requires Counting(m) && Structured(node) && node.ForIn? && n <= MAX_LOOP_ITERATIONS
    ensures res.Done? ==> n <= res.iterations <= MAX_LOOP_ITERATIONS
    decreases node, 1, MAX_LOOP_ITERATIONS + 1
  {
    var e := Leaf(m, node.collection, s, n);
    var b := Begin(m, e.value, e.store, e.iterations);
    RunElements(m, node, e.value, b.kind, 0, b.store, b.iterations, depth)
  }

  /** The elements from the idx-th on. */
  ghost function RunElements<S(!new)>(m: Meaning<S>, node: Node, coll: Val, kind: Iteration, idx: nat, s: World<S>,
                                      n: nat,
                                      depth: nat): (res: Result<World<S>>)
    requires Counting(m) && Structured(node) && node.ForIn? && n <= MAX_LOOP_ITERATIONS
    ensures res.Done? ==> n <= res.iterations <= MAX_LOOP_ITERATIONS
    decreases node, 1, MAX_LOOP_ITERATIONS - n, 0
  {
    if !HasElement(kind, idx) then Done(s, Normal, Void, n)
    else if n == MAX_LOOP_ITERATIONS then Stuck
    else
      var bound := Bind(m, node.variable, coll, kind, idx, s, n + 1);
      if !bound.found then Done(bound.store, Normal, Void, bound.iterations)
      else RunElement(m, node, coll, kind, idx, bound.store, bound.iterations, depth)
  }

  /** The round of the idx-th element, already bound, and the elements behind it. */
  ghost function RunElement<S(!new)>(m: Meaning<S>, node: Node, coll: Val, kind: Iteration, idx: nat, s: World<S>,
                                     n: nat,
                                     depth: nat): (res: Result<World<S>>)
    requires Counting(m) && Structured(node) && node.ForIn? && n <= MAX_LOOP_ITERATIONS
    ensures res.Done? ==> n <= res.iterations <= MAX_LOOP_ITERATIONS
    decreases node, 1, MAX_LOOP_ITERATIONS - n, 1
  {
    var b := Run(m, node.body, s, n, depth);
    if b.Stuck? then Stuck
    else match b.outcome
      case Broke => Done(b.store, Normal, Void, b.iterations)
      case Returned => Done(b.store, Returned, Void, b.iterations)
      case Threw => Done(b.store, Threw, Void, b.iterations)
      case _ => RunElements(m, node, coll, kind, idx + 1, b.store, b.iterations, depth)
  }

  /** Over a collection of known size a for-in loop whose body neither leaves it nor counts iterations itself makes
      one round for every element, and fails exactly when the budget is too small for that. */
  lemma {:induction false} ForInRounds<S(!new)>(m: Meaning<S>, node: Node, coll: Val, count: nat, idx: nat,
                                                s: World<S>, n: nat, depth: nat)
    requires Counting(m) && Structured(node) && node.ForIn? && idx <= count && n <= MAX_LOOP_ITERATIONS
    requires forall k: nat, w: World<S>, i: nat ::
               var b := Bind(m, node.variable, coll, Counted(count), k, w, i); b.found && b.iterations == i
    requires forall w: World<S>, i: nat | i <= MAX_LOOP_ITERATIONS ::
               var b := Run(m, node.body, w, i, depth); b.Done? && b.outcome in {Normal, Continued} && b.iterations == i
    ensures var res := RunElements(m, node, coll, Counted(count), idx, s, n, depth);
            if n + count - idx <= MAX_LOOP_ITERATIONS
            then res.Done? && res.outcome == Normal && res.iterations == n + count - idx
            else res.Stuck?
    decreases count - idx
  {
    hide Run, Bind, Counting;
    if idx < count && n < MAX_LOOP_ITERATIONS {
      var bound := Bind(m, node.variable, coll, Counted(count), idx, s, n + 1);
      var b := Run(m, node.body, bound.store, bound.iterations, depth);
      ForInRounds(m, node, coll, count, idx + 1, b.store, b.iterations, depth);
    }
  }

  /** The children of a block from the i-th on; the first that does not end normally ends the block. */
  ghost function RunBlock<S(!new)>(m: Meaning<S>, node: Node, i: nat, last: Val, s: World<S>, n: nat,
                                   depth: nat): (res: Result<World<S>>)
    requires Counting(m) && Structured(node) && node.Block? && i <= |node.children| && n <= MAX_LOOP_ITERATIONS
    ensures res.Done? ==> n <= res.iterations <= MAX_LOOP_ITERATIONS
    decreases node, 1, |node.children| - i
  {
    if i == |node.children| then Done(s, Normal, last, n)
    else
      var res := Run(m, node.children[i], s, n, depth);
      if res.Stuck? || res.outcome != Normal then res
      else RunBlock(m, node, i + 1, res.value, res.store, res.iterations, depth)
  }

  /** while (cond) body */
  ghost function RunWhile<S(!new)>(m: Meaning<S>, node: Node, s: World<S>, n: nat, depth: nat): (res: Result<World<S>>)
    requires Counting(m) && Structured(node) && node.While? && n <= MAX_LOOP_ITERATIONS
    ensures res.Done? ==> n <= res.iterations <= MAX_LOOP_ITERATIONS
    decreases node, 1, MAX_LOOP_ITERATIONS - n
  {
    if n == MAX_LOOP_ITERATIONS then Stuck
    else
      var c := RunRange(m, node.cond, s, n + 1, depth);
      if c.Stuck? then Stuck
      else if !Truthy(c.value) then Done(c.store, Normal, Void, c.iterations)
      else
        var b := Run(m, node.body, c.store, c.iterations, depth);
        if b.Stuck? then Stuck
        else match b.outcome
          case Broke => Done(b.store, Normal, Void, b.iterations)
          case Returned => Done(b.store, Returned, Void, b.iterations)
          case Threw => Done(b.store, Threw, Void, b.iterations)
          case _ => RunWhile(m, node, b.store, b.iterations, depth)
  }

  /** do body while (cond) */
  ghost function RunDoWhile<S(!new)>(m: Meaning<S>, node: Node, s: World<S>, n: nat, depth: nat)
      : (res: Result<World<S>>)
    requires Counting(m) && Structured(node) && node.DoWhile? && n <= MAX_LOOP_ITERATIONS
    ensures res.Done? ==> n <= res.iterations <= MAX_LOOP_ITERATIONS
    decreases node, 1, MAX_LOOP_ITERATIONS - n
  {
    if n == MAX_LOOP_ITERATIONS then Stuck
    else
      var b := Run(m, node.body, s, n + 1, depth);
      if b.Stuck? then Stuck
      else match b.outcome
        case Broke => Done(b.store, Normal, Void, b.iterations)
        case Returned => Done(b.store, Returned, Void, b.iterations)
        case Threw => Done(b.store, Threw, Void, b.iterations)
        case _ =>
          var c := RunRange(m, node.cond, b.store, b.iterations, depth);
          if c.Stuck? then Stuck
          else if !Truthy(c.value) then Done(c.store, Normal, Void, c.iterations)
          else RunDoWhile(m, node, c.store, c.iterations, depth)
  }

  /** for (; cond; increment) body; an empty condition is true */
  ghost function RunFor<S(!new)>(m: Meaning<S>, node: Node, s: World<S>, n: nat, depth: nat): (res: Result<World<S>>)
    requires Counting(m) && Structured(node) && node.For? && n <= MAX_LOOP_ITERATIONS
    ensures res.Done? ==> n <= res.iterations <= MAX_LOOP_ITERATIONS
    decreases node, 1, MAX_LOOP_ITERATIONS - n
  {
    if n == MAX_LOOP_ITERATIONS then Stuck
    else
      var c := RunForCond(m, node.cond, s, n + 1, depth);
      if c.Stuck? then Stuck
      else if !Truthy(c.value) then Done(c.store, Normal, Void, c.iterations)
      else
        var b := Run(m, node.body, c.store, c.iterations, depth);
        if b.Stuck? then Stuck
        else match b.outcome
          case Broke => Done(b.store, Normal, Void, b.iterations)
          case Returned => Done(b.store, Returned, Void, b.iterations)
          case Threw => Done(b.store, Threw, Void, b.iterations)
          case _ =>
            var i := RunRange(m, node.increment, b.store, b.iterations, depth);
            if i.Stuck? then Stuck else RunFor(m, node, i.store, i.iterations, depth)
  }

  /** The recursion limit only ever cuts a run off: a run that finishes does the same under any higher limit. */
  lemma {:induction false} LimitIrrelevant<S(!new)>(m: Meaning<S>, node: Node, s: World<S>, n: nat, depth: nat,
                                                    more: nat)
    requires Counting(m) && Structured(node) && n <= MAX_LOOP_ITERATIONS
    requires depth <= more && Run(m, node, s, n, depth).Done?
    ensures Run(m, node, s, n, more) == Run(m, node, s, n, depth)
    decreases node, 2, 0
  {
    hide RunBlock, RunWhile, RunDoWhile, RunFor, RunElements, RunElement, RunCases, RunFallback, RunLogical,
      RunTernary;
    match node
    case If(c, thn, els) =>
      var res := RunRange(m, c, s, n, depth - 1);
      if Truthy(res.value) {
        LimitIrrelevant(m, thn, res.store, res.iterations, depth - 1, more - 1);
      } else if els.Some? {
        LimitIrrelevant(m, els.value, res.store, res.iterations, depth - 1, more - 1);
      }
    case Block(_) => LimitBlock(m, node, 0, Void, s, n, depth - 1, more - 1);
    case While(_, _) => LimitWhile(m, node, s, n, depth - 1, more - 1);
    case DoWhile(_, _) => LimitDoWhile(m, node, s, n, depth - 1, more - 1);
    case For(_, _, _, _) =>
      var res := RunRange(m, node.init, s, n, depth - 1);
      LimitFor(m, node, res.store, res.iterations, depth - 1, more - 1);
    case ForIn(_, collection, _) =>
      var e := Leaf(m, collection, s, n);
      var b := Begin(m, e.value, e.store, e.iterations);
      LimitElements(m, node, e.value, b.kind, 0, b.store, b.iterations, depth - 1, more - 1);
    case Switch(scrutinee, cases, _) =>
      var e := Leaf(m, scrutinee, s, n);
      var matched := MatchedCase(e.value, cases, 0);
      if matched < |cases| {
        LimitCases(m, node, matched, e.store, e.iterations, depth - 1, more - 1);
      } else {
        LimitFallback(m, node, e.store, e.iterations, depth - 1, more - 1);
      }
    case Try(_, _, _, _) => LimitTry(m, node, s, n, depth - 1, more - 1);
    case Pool(body) =>
      if s.pools < MAX_POOL_DEPTH {
        LimitOptional(m, body, s.(pools := s.pools + 1), n, depth - 1, more - 1);
      }
    case _ =>
  }

  lemma {:induction false} LimitOptional<S(!new)>(m: Meaning<S>, body: Option<Node>, s: World<S>, n: nat, depth: nat,
                                                  more: nat)
    requires Counting(m) && (body.Some? ==> Structured(body.value)) && n <= MAX_LOOP_ITERATIONS
    requires depth <= more && RunOptional(m, body, s, n, depth).Done?
    ensures RunOptional(m, body, s, n, more) == RunOptional(m, body, s, n, depth)
    decreases body, 3, 0
  {
    hide Run, Structured;
    if body.Some? {
      LimitIrrelevant(m, body.value, s, n, depth, more);
    }
  }

  lemma {:induction false} LimitTry<S(!new)>(m: Meaning<S>, node: Node, s: World<S>, n: nat, depth: nat, more: nat)
    requires Counting(m) && Structured(node) && node.Try? && n <= MAX_LOOP_ITERATIONS
    requires depth <= more && RunTry(m, node, s, n, depth).Done?
    ensures RunTry(m, node, s, n, more) == RunTry(m, node, s, n, depth)
    decreases node, 1, 1
  {
    hide Run, RunOptional, RunCaught;
    var s1 := s.(tries := s.tries + 1);
    LimitCaught(m, node, s1, n, depth, more);
    var k := RunCaught(m, node, s1, n, depth);
    LimitOptional(m, node.finallyBody, k.store, k.iterations, depth, more);
  }

  lemma {:induction false} LimitCaught<S(!new)>(m: Meaning<S>, node: Node, s: World<S>, n: nat, depth: nat, more: nat)
    requires Counting(m) && Structured(node) && node.Try? && n <= MAX_LOOP_ITERATIONS
    requires depth <= more && RunCaught(m, node, s, n, depth).Done?
    ensures RunCaught(m, node, s, n, more) == RunCaught(m, node, s, n, depth)
    decreases node, 1, 0
  {
    hide Run, RunOptional;
    LimitOptional(m, node.tryBody, s, n, depth, more);
    var t := RunOptional(m, node.tryBody, s, n, depth);
    if t.outcome == Threw && node.catchBody.Some? {
      var b := BindCatch(m, node.catchVar, t.store, t.iterations);
      LimitIrrelevant(m, node.catchBody.value, b.store, b.iterations, depth, more);
    }
  }

  lemma {:induction false} LimitCases<S(!new)>(m: Meaning<S>, node: Node, i: nat, s: World<S>, n: nat, depth: nat,
                                               more: nat)
    requires Counting(m) && Structured(node) && node.Switch? && i <= |node.cases| && n <= MAX_LOOP_ITERATIONS
    requires depth <= more && RunCases(m, node, i, s, n, depth).Done?
    ensures RunCases(m, node, i, s, n, more) == RunCases(m, node, i, s, n, depth)
    decreases node, 1, |node.cases| - i + 1
  {
    hide Run, RunIf, RunBlock, RunWhile, RunDoWhile, RunFor, RunForWhole, RunForIn, RunElements, RunSwitch, RunFallback;
    if i == |node.cases| {
      LimitFallback(m, node, s, n, depth, more);
    } else {
      LimitIrrelevant(m, node.cases[i].body, s, n, depth, more);
      var b := Run(m, node.cases[i].body, s, n, depth);
      if b.outcome == Normal {
        LimitCases(m, node, i + 1, b.store, b.iterations, depth, more);
      }
    }
  }

  lemma {:induction false} LimitFallback<S(!new)>(m: Meaning<S>, node: Node, s: World<S>, n: nat, depth: nat, more: nat)
    requires Counting(m) && Structured(node) && node.Switch? && n <= MAX_LOOP_ITERATIONS
    requires depth <= more && RunFallback(m, node, s, n, depth).Done?
    ensures RunFallback(m, node, s, n, more) == RunFallback(m, node, s, n, depth)
    decreases node, 1, 0
  {
    hide Run, RunIf, RunBlock, RunWhile, RunDoWhile, RunFor, RunForWhole, RunForIn, RunElements, RunSwitch, RunCases;
    if node.fallback.Some? {
      LimitIrrelevant(m, node.fallback.value, s, n, depth, more);
    }
  }

  lemma {:induction false} LimitBlock<S(!new)>(m: Meaning<S>, node: Node, i: nat, last: Val, s: World<S>, n: nat,
                                               depth: nat,
                                               more: nat)
    requires Counting(m) && Structured(node) && node.Block? && i <= |node.children| && n <= MAX_LOOP_ITERATIONS
    requires depth <= more && RunBlock(m, node, i, last, s, n, depth).Done?
    ensures RunBlock(m, node, i, last, s, n, more) == RunBlock(m, node, i, last, s, n, depth)
    decreases node, 1, |node.children| - i
  {
    hide Run, RunIf, RunWhile, RunDoWhile, RunFor, RunForWhole, RunForIn, RunElements, RunSwitch, RunCases, RunFallback;
    if i < |node.children| {
      LimitIrrelevant(m, node.children[i], s, n, depth, more);
      var res := Run(m, node.children[i], s, n, depth);
      if res.outcome == Normal {
        LimitBlock(m, node, i + 1, res.value, res.store, res.iterations, depth, more);
      }
    }
  }

  lemma {:induction false} LimitWhile<S(!new)>(m: Meaning<S>, node: Node, s: World<S>, n: nat, depth: nat, more: nat)
    requires Counting(m) && Structured(node) && node.While? && n <= MAX_LOOP_ITERATIONS
    requires depth <= more && RunWhile(m, node, s, n, depth).Done?
    ensures RunWhile(m, node, s, n, more) == RunWhile(m, node, s, n, depth)
    decreases node, 1, MAX_LOOP_ITERATIONS - n
  {
    hide Run, RunIf, RunBlock, RunDoWhile, RunFor, RunForWhole, RunForIn, RunElements, RunSwitch, RunCases, RunFallback;
    var c := RunRange(m, node.cond, s, n + 1, depth);
    if Truthy(c.value) {
      LimitIrrelevant(m, node.body, c.store, c.iterations, depth, more);
      var b := Run(m, node.body, c.store, c.iterations, depth);
      if b.outcome == Normal || b.outcome == Continued {
        LimitWhile(m, node, b.store, b.iterations, depth, more);
      }
    }
  }

  lemma {:induction false} LimitDoWhile<S(!new)>(m: Meaning<S>, node: Node, s: World<S>, n: nat, depth: nat, more: nat)
    requires Counting(m) && Structured(node) && node.DoWhile? && n <= MAX_LOOP_ITERATIONS
    requires depth <= more && RunDoWhile(m, node, s, n, depth).Done?
    ensures RunDoWhile(m, node, s, n, more) == RunDoWhile(m, node, s, n, depth)
    decreases node, 1, MAX_LOOP_ITERATIONS - n
  {
    hide Run, RunIf, RunBlock, RunWhile, RunFor, RunForWhole, RunForIn, RunElements, RunSwitch, RunCases, RunFallback;
    LimitIrrelevant(m, node.body, s, n + 1, depth, more);
    var b := Run(m, node.body, s, n + 1, depth);
    if b.outcome == Normal || b.outcome == Continued {
      var c := RunRange(m, node.cond, b.store, b.iterations, depth);
      if Truthy(c.value) {
        LimitDoWhile(m, node, c.store, c.iterations, depth, more);
      }
    }
  }

  lemma {:induction false} LimitFor<S(!new)>(m: Meaning<S>, node: Node, s: World<S>, n: nat, depth: nat, more: nat)
    requires Counting(m) && Structured(node) && node.For? && n <= MAX_LOOP_ITERATIONS
    requires depth <= more && RunFor(m, node, s, n, depth).Done?
    ensures RunFor(m, node, s, n, more) == RunFor(m, node, s, n, depth)
    decreases node, 1, MAX_LOOP_ITERATIONS - n
  {
    hide Run, RunIf, RunBlock, RunWhile, RunDoWhile, RunForWhole, RunForIn, RunElements, RunSwitch, RunCases,
      RunFallback;
    var c := RunForCond(m, node.cond, s, n + 1, depth);
    if Truthy(c.value) {
      LimitIrrelevant(m, node.body, c.store, c.iterations, depth, more);
      var b := Run(m, node.body, c.store, c.iterations, depth);
      if b.outcome == Normal || b.outcome == Continued {
        var i := RunRange(m, node.increment, b.store, b.iterations, depth);
        LimitFor(m, node, i.store, i.iterations, depth, more);
      }
    }
  }

  lemma {:induction false} LimitElements<S(!new)>(m: Meaning<S>, node: Node, coll: Val, kind: Iteration, idx: nat,
                                                  s: World<S>, n: nat, depth: nat, more: nat)
    requires Counting(m) && Structured(node) && node.ForIn? && n <= MAX_LOOP_ITERATIONS
    requires depth <= more && RunElements(m, node, coll, kind, idx, s, n, depth).Done?
    ensures RunElements(m, node, coll, kind, idx, s, n, more) == RunElements(m, node, coll, kind, idx, s, n, depth)
    decreases node, 1, MAX_LOOP_ITERATIONS - n
  {
    hide Run, RunIf, RunBlock, RunWhile, RunDoWhile, RunFor, RunForWhole, RunForIn, RunSwitch, RunCases, RunFallback;
    if HasElement(kind, idx) {
      var bound := Bind(m, node.variable, coll, kind, idx, s, n + 1);
      if bound.found {
        LimitIrrelevant(m, node.body, bound.store, bound.iterations, depth, more);
        var b := Run(m, node.body, bound.store, bound.iterations, depth);
        if b.outcome == Normal || b.outcome == Continued {
          LimitElements(m, node, coll, kind, idx + 1, b.store, b.iterations, depth, more);
        }
      }
    }
  }

  /** Where no such statement can get out, there is no such outcome. */
  predicate OutcomeFits(node: Node, o: Outcome) {
    && (BreakFree(node) ==> o != Broke) && (ContinueFree(node) ==> o != Continued)
    && (ThrowFree(node) ==> o != Threw) && (ReturnFree(node) ==> o != Returned)
  }

  /** A break, continue, throw or return outcome comes only from a statement that can get out of the program. */
  lemma {:induction false} Contained<S(!new)>(m: Meaning<S>, node: Node, s: World<S>, n: nat, depth: nat)
    requires Counting(m) && Structured(node) && n <= MAX_LOOP_ITERATIONS
    requires Run(m, node, s, n, depth).Done?
    ensures OutcomeFits(node, Run(m, node, s, n, depth).outcome)
    decreases node, 2, 0
  {
    hide RunBlock, RunWhile, RunDoWhile, RunFor, RunElements, RunElement, RunCases, RunFallback, RunLogical,
      RunTernary;
    match node
    case If(c, thn, els) =>
      var res := RunRange(m, c, s, n, depth - 1);
      if Truthy(res.value) {
        Contained(m, thn, res.store, res.iterations, depth - 1);
      } else if els.Some? {
        Contained(m, els.value, res.store, res.iterations, depth - 1);
      }
    case Block(_) => ContainedBlock(m, node, 0, Void, s, n, depth - 1);
    case While(_, _) => WhileOutcome(m, node, s, n, depth - 1);
    case DoWhile(_, _) => DoWhileOutcome(m, node, s, n, depth - 1);
    case For(_, _, _, _) =>
      var res := RunRange(m, node.init, s, n, depth - 1);
      ForOutcome(m, node, res.store, res.iterations, depth - 1);
    case ForIn(_, collection, _) =>
      var e := Leaf(m, collection, s, n);
      var b := Begin(m, e.value, e.store, e.iterations);
      ElementsOutcome(m, node, e.value, b.kind, 0, b.store, b.iterations, depth - 1);
    case Switch(scrutinee, cases, _) =>
      var e := Leaf(m, scrutinee, s, n);
      var matched := MatchedCase(e.value, cases, 0);
      if matched < |cases| {
        ContainedCases(m, node, matched, e.store, e.iterations, depth - 1);
      } else {
        ContainedFallback(m, node, e.store, e.iterations, depth - 1);
      }
    case Try(_, _, _, _) => ContainedTry(m, node, s, n, depth - 1);
    case Pool(body) => ContainedOptional(m, body, s.(pools := s.pools + 1), n, depth - 1);
    case _ =>
  }

  predicate OptionalFits(body: Option<Node>, o: Outcome) {
    if body.None? then o == Normal else OutcomeFits(body.value, o)
  }

  lemma {:induction false} ContainedOptional<S(!new)>(m: Meaning<S>, body: Option<Node>, s: World<S>, n: nat,
                                                      depth: nat)
    requires Counting(m) && (body.Some? ==> Structured(body.value)) && n <= MAX_LOOP_ITERATIONS
    requires RunOptional(m, body, s, n, depth).Done?
    ensures OptionalFits(body, RunOptional(m, body, s, n, depth).outcome)
    decreases body, 3, 0
  {
    hide Run, Structured;
    if body.Some? {
      Contained(m, body.value, s, n, depth);
    }
  }

  lemma {:induction false} ContainedTry<S(!new)>(m: Meaning<S>, node: Node, s: World<S>, n: nat, depth: nat)
    requires Counting(m) && Structured(node) && node.Try? && n <= MAX_LOOP_ITERATIONS
    requires RunTry(m, node, s, n, depth).Done?
    ensures OutcomeFits(node, RunTry(m, node, s, n, depth).outcome)
    decreases node, 1, 1
  {
    hide Run, RunOptional, RunCaught;
    var s1 := s.(tries := s.tries + 1);
    ContainedCaught(m, node, s1, n, depth);
    var k := RunCaught(m, node, s1, n, depth);
    ContainedOptional(m, node.finallyBody, k.store, k.iterations, depth);
  }

  /** Neither body lets out more than it may, and a catch body takes what the try body throws. */
  lemma {:induction false} ContainedCaught<S(!new)>(m: Meaning<S>, node: Node, s: World<S>, n: nat, depth: nat)
    requires Counting(m) && Structured(node) && node.Try? && n <= MAX_LOOP_ITERATIONS
    requires RunCaught(m, node, s, n, depth).Done?
    ensures var o := RunCaught(m, node, s, n, depth).outcome;
            && (OptionalFits(node.tryBody, o) || (node.catchBody.Some? && OutcomeFits(node.catchBody.value, o)))
            && (Caught(node.tryBody, node.catchBody) ==> o != Threw)
    decreases node, 1, 0
  {
    hide Run, RunOptional;
    ContainedOptional(m, node.tryBody, s, n, depth);
    var t := RunOptional(m, node.tryBody, s, n, depth);
    if t.outcome == Threw && node.catchBody.Some? {
      var b := BindCatch(m, node.catchVar, t.store, t.iterations);
      Contained(m, node.catchBody.value, b.store, b.iterations, depth);
    }
  }

  lemma {:induction false} ContainedCases<S(!new)>(m: Meaning<S>, node: Node, i: nat, s: World<S>, n: nat, depth: nat)
    requires Counting(m) && Structured(node) && node.Switch? && i <= |node.cases| && n <= MAX_LOOP_ITERATIONS
    requires RunCases(m, node, i, s, n, depth).Done?
    ensures OutcomeFits(node, RunCases(m, node, i, s, n, depth).outcome)
    decreases node, 1, |node.cases| - i + 1
  {
    hide Run, RunIf, RunBlock, RunWhile, RunDoWhile, RunFor, RunForWhole, RunForIn, RunElements, RunSwitch, RunFallback;
    if i == |node.cases| {
      ContainedFallback(m, node, s, n, depth);
    } else {
      var b := Run(m, node.cases[i].body, s, n, depth);
      Contained(m, node.cases[i].body, s, n, depth);
      if b.outcome == Normal {
        ContainedCases(m, node, i + 1, b.store, b.iterations, depth);
      }
    }
  }

  lemma {:induction false} ContainedFallback<S(!new)>(m: Meaning<S>, node: Node, s: World<S>, n: nat, depth: nat)
    requires Counting(m) && Structured(node) && node.Switch? && n <= MAX_LOOP_ITERATIONS
    requires RunFallback(m, node, s, n, depth).Done?
    ensures OutcomeFits(node, RunFallback(m, node, s, n, depth).outcome)
    decreases node, 1, 0
  {
    hide Run, RunIf, RunBlock, RunWhile, RunDoWhile, RunFor, RunForWhole, RunForIn, RunElements, RunSwitch, RunCases;
    if node.fallback.Some? {
      Contained(m, node.fallback.value, s, n, depth);
    }
  }

  lemma {:induction false} ContainedBlock<S(!new)>(m: Meaning<S>, node: Node, i: nat, last: Val, s: World<S>, n: nat,
                                                   depth: nat)
    requires Counting(m) && Structured(node) && node.Block? && i <= |node.children| && n <= MAX_LOOP_ITERATIONS
    requires RunBlock(m, node, i, last, s, n, depth).Done?
    ensures OutcomeFits(node, RunBlock(m, node, i, last, s, n, depth).outcome)
    decreases node, 1, |node.children| - i
  {
    hide Run, RunIf, RunWhile, RunDoWhile, RunFor, RunForWhole, RunForIn, RunElements, RunSwitch, RunCases, RunFallback;
    if i < |node.children| {
      Contained(m, node.children[i], s, n, depth);
      var res := Run(m, node.children[i], s, n, depth);
      if res.outcome == Normal {
        ContainedBlock(m, node, i + 1, res.value, res.store, res.iterations, depth);
      }
    }
  }

  lemma {:induction false} WhileOutcome<S(!new)>(m: Meaning<S>, node: Node, s: World<S>, n: nat, depth: nat)
    requires Counting(m) && Structured(node) && node.While? && n <= MAX_LOOP_ITERATIONS
    requires RunWhile(m, node, s, n, depth).Done?
    ensures RunWhile(m, node, s, n, depth).outcome in {Normal, Returned, Threw}
              && OutcomeFits(node, RunWhile(m, node, s, n, depth).outcome)
    decreases node, 1, MAX_LOOP_ITERATIONS - n
  {
    hide Run, RunIf, RunBlock, RunDoWhile, RunFor, RunForWhole, RunForIn, RunElements, RunSwitch, RunCases, RunFallback;
    var c := RunRange(m, node.cond, s, n + 1, depth);
    if Truthy(c.value) {
      var b := Run(m, node.body, c.store, c.iterations, depth);
      Contained(m, node.body, c.store, c.iterations, depth);
      if b.outcome == Normal || b.outcome == Continued {
        WhileOutcome(m, node, b.store, b.iterations, depth);
      }
    }
  }

  lemma {:induction false} DoWhileOutcome<S(!new)>(m: Meaning<S>, node: Node, s: World<S>, n: nat, depth: nat)
    requires Counting(m) && Structured(node) && node.DoWhile? && n <= MAX_LOOP_ITERATIONS
    requires RunDoWhile(m, node, s, n, depth).Done?
    ensures RunDoWhile(m, node, s, n, depth).outcome in {Normal, Returned, Threw}
              && OutcomeFits(node, RunDoWhile(m, node, s, n, depth).outcome)
    decreases node, 1, MAX_LOOP_ITERATIONS - n
  {
    hide Run, RunIf, RunBlock, RunWhile, RunFor, RunForWhole, RunForIn, RunElements, RunSwitch, RunCases, RunFallback;
    var b := Run(m, node.body, s, n + 1, depth);
    Contained(m, node.body, s, n + 1, depth);
    if b.outcome == Normal || b.outcome == Continued {
      var c := RunRange(m, node.cond, b.store, b.iterations, depth);
      if Truthy(c.value) {
        DoWhileOutcome(m, node, c.store, c.iterations, depth);
      }
    }
  }

  lemma {:induction false} ForOutcome<S(!new)>(m: Meaning<S>, node: Node, s: World<S>, n: nat, depth: nat)
    requires Counting(m) && Structured(node) && node.For? && n <= MAX_LOOP_ITERATIONS
    requires RunFor(m, node, s, n, depth).Done?
    ensures RunFor(m, node, s, n, depth).outcome in {Normal, Returned, Threw}
              && OutcomeFits(node, RunFor(m, node, s, n, depth).outcome)
    decreases node, 1, MAX_LOOP_ITERATIONS - n
  {
    hide Run, RunIf, RunBlock, RunWhile, RunDoWhile, RunForWhole, RunForIn, RunElements, RunSwitch, RunCases,
      RunFallback;
    var c := RunForCond(m, node.cond, s, n + 1, depth);
    if Truthy(c.value) {
      var b := Run(m, node.body, c.store, c.iterations, depth);
      Contained(m, node.body, c.store, c.iterations, depth);
      if b.outcome == Normal || b.outcome == Continued {
        var i := RunRange(m, node.increment, b.store, b.iterations, depth);
        ForOutcome(m, node, i.store, i.iterations, depth);
      }
    }
  }

  lemma {:induction false} ElementsOutcome<S(!new)>(m: Meaning<S>, node: Node, coll: Val, kind: Iteration, idx: nat,
                                                    s: World<S>, n: nat, depth: nat)
    requires Counting(m) && Structured(node) && node.ForIn? && n <= MAX_LOOP_ITERATIONS
    requires RunElements(m, node, coll, kind, idx, s, n, depth).Done?
    ensures RunElements(m, node, coll, kind, idx, s, n, depth).outcome in {Normal, Returned, Threw}
              && OutcomeFits(node, RunElements(m, node, coll, kind, idx, s, n, depth).outcome)
    decreases node, 1, MAX_LOOP_ITERATIONS - n
  {
    hide Run, RunIf, RunBlock, RunWhile, RunDoWhile, RunFor, RunForWhole, RunForIn, RunSwitch, RunCases, RunFallback;
    if HasElement(kind, idx) {
      var bound := Bind(m, node.variable, coll, kind, idx, s, n + 1);
      if bound.found {
        var b := Run(m, node.body, bound.store, bound.iterations, depth);
        Contained(m, node.body, bound.store, bound.iterations, depth);
        if b.outcome == Normal || b.outcome == Continued {
          ElementsOutcome(m, node, coll, kind, idx + 1, b.store, b.iterations, depth);
        }
      }
    }
  }
}
