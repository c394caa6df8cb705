/** The flag machine computes the outcome semantics on structured programs. */
module Refinement {
  import opened Options
  import opened Ast
  import opened BigStep
  import opened FlagMachine

  /** No flag is pending and no error has been recorded. */
  predicate Quiet<S>(c: Context<S>) {
    && c.errorCode == OK && !c.breakPending && !c.continuePending && !c.returnPending && !c.exceptionPending
  }

  /** The same but for an exception. */
  predicate Steady<S>(c: Context<S>) {
    c.errorCode == OK && !c.breakPending && !c.continuePending && !c.returnPending
  }

  /** Source ranges and bindings neither fail, return, throw nor get interrupted, and depend on the store only; that
      of a catch variable depends on the exception as well. */
  ghost predicate Calm<S(!new)>(env: Env<S>, m: Meaning<S>) {
    && (forall r, c: Context<S> {:trigger env.leaf(r, c)} :: Steady(c) ==>
          LeafMeans(m.leaf(r, c.store, c.loopIterations), c, env.leaf(r, c)))
    && (forall v, c: Context<S> {:trigger env.begin(v, c)} :: Quiet(c) ==>
          BeginMeans(m.begin(v, c.store, c.loopIterations), c, env.begin(v, c)))
    && (forall x, v, kind, k: nat, c: Context<S> {:trigger env.bind(x, v, kind, k, c)} :: Quiet(c) ==>
          BindMeans(m.bind(x, v, kind, k, c.store, c.loopIterations), c, env.bind(x, v, kind, k, c)))
    && (forall x, c: Context<S> {:trigger env.bindCatch(x, c)} :: Steady(c) ==>
          CatchMeans(m.bindCatch(x, c.currentException, c.store, c.loopIterations), c, env.bindCatch(x, c)))
    && (forall n: nat :: !env.interrupt(n))
  }

  /** A source range had this effect and no other. */
  predicate LeafMeans<S(==)>(e: Effect<S>, c: Context<S>, r: Evaluated<S>) {
    r == Evaluated(c.(store := e.store, loopIterations := e.iterations), e.value)
  }

  predicate BeginMeans<S(==)>(b: Start<S>, c: Context<S>, r: Begun<S>) {
    r == Begun(b.kind, c.(store := b.store, loopIterations := b.iterations))
  }

  predicate BindMeans<S(==)>(b: Bound<S>, c: Context<S>, r: Binding<S>) {
    r == Binding(b.found, c.(store := b.store, loopIterations := b.iterations))
  }

  predicate CatchMeans<S(==)>(b: CatchBound<S>, c: Context<S>, c': Context<S>) {
    c' == c.(store := b.store, loopIterations := b.iterations)
  }

  function WorldOf<S>(c: Context<S>): World<S> {
    World(c.store, c.currentException, c.tryDepth, c.poolDepth)
  }

  /** An effect on the world, and no other. */
  predicate RangeMeans<S(==)>(e: Effect<World<S>>, c: Context<S>, r: Evaluated<S>) {
    e.store == WorldOf(r.ctx) && r == Evaluated(c.(store := e.store.store, loopIterations := e.iterations), e.value)
  }

  predicate StartMeans<S(==)>(b: Start<World<S>>, c: Context<S>, r: Begun<S>) {
    b.store == WorldOf(r.ctx) && r == Begun(b.kind, c.(store := b.store.store, loopIterations := b.iterations))
  }

  predicate BoundMeans<S(==)>(b: Bound<World<S>>, c: Context<S>, r: Binding<S>) {
    b.store == WorldOf(r.ctx) && r == Binding(b.found, c.(store := b.store.store, loopIterations := b.iterations))
  }

  /** The flags say what the explicit outcome says, and nothing else changed but the polls. */
  predicate Matches<S(==)>(res: Result<World<S>>, c: Context<S>, e: Evaluated<S>) {
    match res
    case Done(s, o, value, n) =>
      && e.value == value && s == WorldOf(e.ctx)
      && e.ctx == c.(store := s.store, currentException := s.exception, loopIterations := n, polls := e.ctx.polls,
                     breakPending := o == Broke, continuePending := o == Continued, returnPending := o == Returned,
                     exceptionPending := o == Threw)
    case Stuck => e.ctx.errorCode != OK
  }

  ghost predicate Plain<S(!new)>(env: Env<S>, m: Meaning<S>, node: Node, c: Context<S>) {
    && Sound(env) && Counting(m) && Calm(env, m) && Structured(node)
    && Quiet(c) && Ready(c) && c.evalDepth <= MAX_EVAL_DEPTH
  }

  function LevelsLeft<S>(c: Context<S>): nat {
    if c.evalDepth <= MAX_EVAL_DEPTH then MAX_EVAL_DEPTH - c.evalDepth else 0
  }

  lemma LeafRefines<S(!new)>(env: Env<S>, m: Meaning<S>, r: Range, c: Context<S>)
    requires Sound(env) && Counting(m) && Calm(env, m) && Steady(c) && Ready(c)
    ensures RangeMeans(Leaf(m, r, WorldOf(c), c.loopIterations), c, LeafF(env, r, c))
    ensures var e := Leaf(m, r, WorldOf(c), c.loopIterations);
            && c.loopIterations <= e.iterations <= MAX_LOOP_ITERATIONS && Steady(LeafF(env, r, c).ctx)
            && (Quiet(c) ==> Quiet(LeafF(env, r, c).ctx))
  {
  }

  lemma BindRefines<S(!new)>(env: Env<S>, m: Meaning<S>, x: string, coll: Val, kind: Iteration, k: nat, c: Context<S>)
    requires Sound(env) && Counting(m) && Calm(env, m) && Quiet(c) && Ready(c)
    ensures BoundMeans(Bind(m, x, coll, kind, k, WorldOf(c), c.loopIterations), c, BindF(env, x, coll, kind, k, c))
  {
  }

  lemma BeginRefines<S(!new)>(env: Env<S>, m: Meaning<S>, v: Val, c: Context<S>)
    requires Sound(env) && Counting(m) && Calm(env, m) && Quiet(c) && Ready(c)
    ensures StartMeans(Begin(m, v, WorldOf(c), c.loopIterations), c, BeginF(env, v, c))
    ensures c.loopIterations <= Begin(m, v, WorldOf(c), c.loopIterations).iterations <= MAX_LOOP_ITERATIONS
  {
  }

  lemma NoInterrupt<S(!new)>(env: Env<S>, m: Meaning<S>, c: Context<S>)
    requires Calm(env, m)
    ensures Leaving(env, c) <==> Unwinding(c)
  {
  }

  lemma RangeRefines<S(!new)>(env: Env<S>, m: Meaning<S>, r: Range, c: Context<S>)
    requires Sound(env) && Counting(m) && Calm(env, m) && Quiet(c) && Ready(c) && c.evalDepth <= MAX_EVAL_DEPTH
    ensures Matches(RunRange(m, r, WorldOf(c), c.loopIterations, LevelsLeft(c)), c, RangeNodeF(env, r, c))
    ensures RangeNodeF(env, r, c).ctx.errorCode == OK ==> Quiet(RangeNodeF(env, r, c).ctx)
  {
    hide Sound, Counting, Calm, LeafF;
    if c.evalDepth < MAX_EVAL_DEPTH {
      LeafRefines(env, m, r, Deeper(c));
    }
  }

  lemma CondRefines<S(!new)>(env: Env<S>, m: Meaning<S>, r: Range, c: Context<S>)
    requires Sound(env) && Counting(m) && Calm(env, m) && Quiet(c) && Ready(c) && c.evalDepth <= MAX_EVAL_DEPTH
    ensures Matches(RunForCond(m, r, WorldOf(c), c.loopIterations, LevelsLeft(c)), c, ForCondF(env, r, c))
    ensures ForCondF(env, r, c).ctx.errorCode == OK ==> Quiet(ForCondF(env, r, c).ctx)
  {
    hide Sound, Counting, Calm, RangeNodeF, RunRange;
    RangeRefines(env, m, r, c);
  }

  /** The kinds of nodes without others inside. */
  predicate Childless(node: Node) {
    || node.Statement? || node.Return? || node.And? || node.Or? || node.Ternary? || node.Throw?
    || node.Break? || node.Continue? || node.Noop?
  }

  lemma ChildlessRefines<S(!new)>(env: Env<S>, m: Meaning<S>, node: Node, c: Context<S>)
    requires Plain(env, m, node, c) && Childless(node)
    ensures Matches(Run(m, node, WorldOf(c), c.loopIterations, LevelsLeft(c)), c, Eval(env, node, c))
  {
    hide Sound, Counting, Calm, RunIf, RunBlock, RunWhile, RunDoWhile, RunFor, RunForWhole, RunForIn, RunElements,
      RunSwitch, RunCases, RunFallback, RunTry, RunThrow, RunPool, RunRange, RunForCond, RunLogical, RunTernary, IfF,
      BlockF, WhileF, DoWhileF, ForF, ForLoopF, ForInF, ElementsF, SwitchF, CasesF, FallbackF, LogicalF, TernaryF,
      RangeNodeF, ForCondF, LeafF, BindF, BodyF, TryF, ThrowF, PoolF, RunOptional, RunCaught, OptionalF, CaughtF,
      BreakFree, ContinueFree, ThrowFree, ReturnFree, Straight, Tryless, LeafMeans;
    if c.evalDepth < MAX_EVAL_DEPTH {
      var c1 := Deeper(c);
      match node
      case Statement(r) => LeafRefines(env, m, r, c1);
      case And(_, _) => LogicalRefines(env, m, node, c1);
      case Or(_, _) => LogicalRefines(env, m, node, c1);
      case Ternary(_, _, _) => TernaryRefines(env, m, node, c1);
      case Return(r) => LeafRefines(env, m, r, c1);
      case Throw(thrown) => ThrowRefines(env, m, thrown, c1);
      case _ =>
    }
  }

  /** For every structured program over calm source ranges, evaluation ends with the outcome, value, store, exception
      and iteration count of the semantics, or with an error where the semantics is stuck. */
  lemma {:induction false} Refines<S(!new)>(env: Env<S>, m: Meaning<S>, node: Node, c: Context<S>)
    requires Plain(env, m, node, c)
    ensures Matches(Run(m, node, WorldOf(c), c.loopIterations, LevelsLeft(c)), c, Eval(env, node, c))
    decreases node, 3, 0
  {
    hide Sound, Counting, Calm, RunIf, RunBlock, RunWhile, RunDoWhile, RunFor, RunForWhole, RunForIn, RunElements,
      RunSwitch, RunCases, RunFallback, RunTry, RunThrow, RunPool, RunRange, RunForCond, RunLogical, RunTernary, IfF,
      BlockF, WhileF, DoWhileF, ForF, ForLoopF, ForInF, ElementsF, SwitchF, CasesF, FallbackF, LogicalF, TernaryF,
      RangeNodeF, ForCondF, LeafF, BindF, BodyF, TryF, ThrowF, PoolF, RunOptional, RunCaught, OptionalF, CaughtF,
      BreakFree, ContinueFree, ThrowFree, ReturnFree, Straight, Tryless, LeafMeans;
    if Childless(node) {
      ChildlessRefines(env, m, node, c);
    } else if c.evalDepth < MAX_EVAL_DEPTH {
      var c1 := Deeper(c);
      match node
      case If(_, _, _) => IfRefines(env, m, node, c1);
      case While(_, _) => WhileRefines(env, m, node, c1, None);
      case DoWhile(_, _) => DoWhileRefines(env, m, node, c1, None);
      case For(_, _, _, _) => ForRefines(env, m, node, c1);
      case ForIn(_, _, _) => ForInRefines(env, m, node, c1);
      case Block(_) => BlockRefines(env, m, node, 0, Void, c1);
      case Switch(_, _, _) => SwitchRefines(env, m, node, c1);
      case Try(_, _, _, _) => TryRefines(env, m, node, c1);
      case Pool(_) => PoolRefines(env, m, node, c1);
      case _ =>
    }
  }

  /** What a loop sees of one round of its body. */
  predicate RoundMatches<S(==)>(res: Result<World<S>>, c: Context<S>, b: Context<S>) {
    match res
    case Done(s, o, _, n) =>
      && ExitOf(b) == (if o == Broke then Left else if o == Continued then Skipped else Ended) && s == WorldOf(b)
      && TakenDown(b) == c.(store := s.store, currentException := s.exception, loopIterations := n, polls := b.polls,
                            returnPending := o == Returned, exceptionPending := o == Threw)
    case Stuck => b.errorCode != OK
  }

  lemma {:induction false} RoundRefines<S(!new)>(env: Env<S>, m: Meaning<S>, body: Node, c: Context<S>)
    requires Plain(env, m, body, c)
    ensures RoundMatches(Run(m, body, WorldOf(c), c.loopIterations, LevelsLeft(c)), c, BodyF(env, body, c))
    decreases body, 4, 0
  {
    Refines(env, m, body, c);
    hide Sound, Counting, Calm, Eval, Run;
    assert c.(breakPending := false, continuePending := false) == c;
  }

  lemma {:induction false} IfRefines<S(!new)>(env: Env<S>, m: Meaning<S>, node: Node, c: Context<S>)
    requires Plain(env, m, node, c) && node.If?
    ensures Matches(RunIf(m, node, WorldOf(c), c.loopIterations, LevelsLeft(c)), c, IfF(env, node, c))
    decreases node, 1, 0
  {
    hide Sound, Counting, Calm, Run, RunBlock, RunWhile, RunDoWhile, RunFor, RunForWhole, RunForIn, RunElements,
      RunSwitch, RunCases, RunFallback, RunRange, RunForCond, RunLogical, RunTernary, Eval, EvalKind, BlockF, WhileF,
      DoWhileF, ForF, ForLoopF, ForInF, ElementsF, SwitchF, CasesF, FallbackF, LogicalF, TernaryF, RangeNodeF,
      ForCondF, LeafF, BindF, BodyF, TryF, ThrowF, PoolF;
    RangeRefines(env, m, node.cond, c);
    var cond := RangeNodeF(env, node.cond, c);
    if cond.ctx.errorCode == OK {
      if Truthy(cond.value) {
        Refines(env, m, node.thn, cond.ctx);
      } else if node.els.Some? {
        Refines(env, m, node.els.value, cond.ctx);
      }
    }
  }

  lemma {:induction false} LogicalRefines<S(!new)>(env: Env<S>, m: Meaning<S>, node: Node, c: Context<S>)
    requires Plain(env, m, node, c) && (node.And? || node.Or?)
    ensures RangeMeans(RunLogical(m, node, WorldOf(c), c.loopIterations), c, LogicalF(env, node, c))
    decreases node, 1, 0
  {
    hide Sound, Counting, Calm, Run, RunIf, RunBlock, RunWhile, RunDoWhile, RunFor, RunForWhole, RunForIn,
      RunElements, RunSwitch, RunCases, RunFallback, RunRange, RunForCond, RunTernary, Eval, EvalKind, IfF, BlockF,
      WhileF, DoWhileF, ForF, ForLoopF, ForInF, ElementsF, SwitchF, CasesF, FallbackF, TernaryF, RangeNodeF, ForCondF,
      LeafF, BindF, BodyF, TryF, ThrowF, PoolF;
    LeafRefines(env, m, node.left, c);
    LeafRefines(env, m, node.right, LeafF(env, node.left, c).ctx);
  }

  lemma {:induction false} TernaryRefines<S(!new)>(env: Env<S>, m: Meaning<S>, node: Node, c: Context<S>)
    requires Plain(env, m, node, c) && node.Ternary?
    ensures RangeMeans(RunTernary(m, node, WorldOf(c), c.loopIterations), c, TernaryF(env, node, c))
    decreases node, 1, 0
  {
    hide Sound, Counting, Calm, Run, RunIf, RunBlock, RunWhile, RunDoWhile, RunFor, RunForWhole, RunForIn,
      RunElements, RunSwitch, RunCases, RunFallback, RunRange, RunForCond, RunLogical, Eval, EvalKind, IfF, BlockF,
      WhileF, DoWhileF, ForF, ForLoopF, ForInF, ElementsF, SwitchF, CasesF, FallbackF, LogicalF, RangeNodeF, ForCondF,
      LeafF, BindF, BodyF, TryF, ThrowF, PoolF;
    LeafRefines(env, m, node.cond, c);
    var cond := LeafF(env, node.cond, c);
    LeafRefines(env, m, if Truthy(cond.value) then node.yes else node.no, cond.ctx);
  }

  lemma {:induction false} BlockRefines<S(!new)>(env: Env<S>, m: Meaning<S>, node: Node, i: nat, last: Val,
                                                 c: Context<S>)
    requires Plain(env, m, node, c) && node.Block? && i <= |node.children|
    ensures Matches(RunBlock(m, node, i, last, WorldOf(c), c.loopIterations, LevelsLeft(c)), c,
              BlockF(env, node, i, last, c))
    decreases node, 1, |node.children| - i
  {
    hide Sound, Counting, Calm, Run, RunIf, RunWhile, RunDoWhile, RunFor, RunForWhole, RunForIn, RunElements,
      RunSwitch, RunCases, RunFallback, RunRange, RunForCond, RunLogical, RunTernary, Eval, EvalKind, IfF, WhileF,
      DoWhileF, ForF, ForLoopF, ForInF, ElementsF, SwitchF, CasesF, FallbackF, LogicalF, TernaryF, RangeNodeF,
      ForCondF, LeafF, BindF, BodyF, TryF, ThrowF, PoolF;
    if i < |node.children| {
      Refines(env, m, node.children[i], c);
      ChildThrows(env, m, node, i, c);
      var e := Eval(env, node.children[i], c);
      if Quiet(e.ctx) {
        BlockRefines(env, m, node, i + 1, e.value, e.ctx);
      }
    }
  }

  lemma {:induction false} WhileRefines<S(!new)>(env: Env<S>, m: Meaning<S>, node: Node, c: Context<S>,
                                                 last: Option<Context<S>>)
    requires Plain(env, m, node, c) && node.While?
    ensures Matches(RunWhile(m, node, WorldOf(c), c.loopIterations, LevelsLeft(c)), c,
              Evaluated(WhileF(env, node, c, last).ctx, Void))
    decreases node, 1, MAX_LOOP_ITERATIONS - c.loopIterations
  {
    hide Sound, Counting, Calm, Run, RunIf, RunBlock, RunDoWhile, RunFor, RunForWhole, RunForIn, RunElements,
      RunSwitch, RunCases, RunFallback, RunRange, RunForCond, RunLogical, RunTernary, Eval, EvalKind, IfF, BlockF,
      DoWhileF, ForF, ForLoopF, ForInF, ElementsF, SwitchF, CasesF, FallbackF, LogicalF, TernaryF, RangeNodeF,
      ForCondF, LeafF, BindF, BodyF, TryF, ThrowF, PoolF;
    if c.loopIterations < MAX_LOOP_ITERATIONS {
      RangeRefines(env, m, node.cond, OneMore(c));
      var cond := RangeNodeF(env, node.cond, OneMore(c));
      if cond.ctx.errorCode == OK && Truthy(cond.value) {
        RoundRefines(env, m, node.body, cond.ctx);
        var b := BodyF(env, node.body, cond.ctx);
        var x := TakenDown(b);
        NoInterrupt(env, m, x);
        if b.errorCode == OK && ExitOf(b).Skipped? {
          WhileRefines(env, m, node, x, Some(b));
        } else if b.errorCode == OK && ExitOf(b).Ended? && !Unwinding(x) {
          WhileRefines(env, m, node, Polled(x), Some(b));
        }
      }
    }
  }

  lemma {:induction false} DoWhileRefines<S(!new)>(env: Env<S>, m: Meaning<S>, node: Node, c: Context<S>,
                                                   last: Option<Context<S>>)
    requires Plain(env, m, node, c) && node.DoWhile?
    ensures Matches(RunDoWhile(m, node, WorldOf(c), c.loopIterations, LevelsLeft(c)), c,
              Evaluated(DoWhileF(env, node, c, last).ctx, Void))
    decreases node, 1, MAX_LOOP_ITERATIONS - c.loopIterations
  {
    hide Sound, Counting, Calm, Run, RunIf, RunBlock, RunWhile, RunFor, RunForWhole, RunForIn, RunElements, RunSwitch,
      RunCases, RunFallback, RunRange, RunForCond, RunLogical, RunTernary, Eval, EvalKind, IfF, BlockF, WhileF, ForF,
      ForLoopF, ForInF, ElementsF, SwitchF, CasesF, FallbackF, LogicalF, TernaryF, RangeNodeF, ForCondF, LeafF, BindF,
      BodyF, TryF, ThrowF, PoolF;
    if c.loopIterations < MAX_LOOP_ITERATIONS {
      RoundRefines(env, m, node.body, OneMore(c));
      var b := BodyF(env, node.body, OneMore(c));
      var x := TakenDown(b);
      NoInterrupt(env, m, x);
      if b.errorCode == OK && !ExitOf(b).Left? && !Unwinding(x) {
        RangeRefines(env, m, node.cond, Polled(x));
        var cond := RangeNodeF(env, node.cond, Polled(x));
        if cond.ctx.errorCode == OK && Truthy(cond.value) {
          DoWhileRefines(env, m, node, cond.ctx, Some(b));
        }
      }
    }
  }

  lemma {:induction false} ForRefines<S(!new)>(env: Env<S>, m: Meaning<S>, node: Node, c: Context<S>)
    requires Plain(env, m, node, c) && node.For?
    ensures Matches(RunForWhole(m, node, WorldOf(c), c.loopIterations, LevelsLeft(c)), c,
              Evaluated(ForF(env, node, c).ctx, Void))
    decreases node, 1, MAX_LOOP_ITERATIONS + 1
  {
    hide Sound, Counting, Calm, Run, RunIf, RunBlock, RunWhile, RunDoWhile, RunFor, RunForIn, RunElements, RunSwitch,
      RunCases, RunFallback, RunRange, RunForCond, RunLogical, RunTernary, Eval, EvalKind, IfF, BlockF, WhileF,
      DoWhileF, ForLoopF, ForInF, ElementsF, SwitchF, CasesF, FallbackF, LogicalF, TernaryF, RangeNodeF, ForCondF,
      LeafF, BindF, BodyF, TryF, ThrowF, PoolF;
    RangeRefines(env, m, node.init, c);
    var c1 := RangeNodeF(env, node.init, c).ctx;
    if c1.errorCode == OK {
      ForLoopRefines(env, m, node, c1, None);
    }
  }

  lemma {:induction false} ForLoopRefines<S(!new)>(env: Env<S>, m: Meaning<S>, node: Node, c: Context<S>,
                                                   last: Option<Context<S>>)
    requires Plain(env, m, node, c) && node.For?
    ensures Matches(RunFor(m, node, WorldOf(c), c.loopIterations, LevelsLeft(c)), c,
              Evaluated(ForLoopF(env, node, c, last).ctx, Void))
    decreases node, 1, MAX_LOOP_ITERATIONS - c.loopIterations
  {
    hide Sound, Counting, Calm, Run, RunIf, RunBlock, RunWhile, RunDoWhile, RunForWhole, RunForIn, RunElements,
      RunSwitch, RunCases, RunFallback, RunRange, RunForCond, RunLogical, RunTernary, Eval, EvalKind, IfF, BlockF,
      WhileF, DoWhileF, ForF, ForInF, ElementsF, SwitchF, CasesF, FallbackF, LogicalF, TernaryF, RangeNodeF, ForCondF,
      LeafF, BindF, BodyF, TryF, ThrowF, PoolF;
    if c.loopIterations < MAX_LOOP_ITERATIONS {
      CondRefines(env, m, node.cond, OneMore(c));
      var cond := ForCondF(env, node.cond, OneMore(c));
      if cond.ctx.errorCode == OK && Truthy(cond.value) {
        RoundRefines(env, m, node.body, cond.ctx);
        var b := BodyF(env, node.body, cond.ctx);
        var x := TakenDown(b);
        NoInterrupt(env, m, x);
        if b.errorCode == OK && !ExitOf(b).Left? && !Unwinding(x) {
          RangeRefines(env, m, node.increment, Polled(x));
          var c1 := RangeNodeF(env, node.increment, Polled(x)).ctx;
          if c1.errorCode == OK {
            ForLoopRefines(env, m, node, c1, Some(b));
          }
        }
      }
    }
  }

  lemma {:induction false} ForInRefines<S(!new)>(env: Env<S>, m: Meaning<S>, node: Node, c: Context<S>)
    requires Plain(env, m, node, c) && node.ForIn?
    ensures Matches(RunForIn(m, node, WorldOf(c), c.loopIterations, LevelsLeft(c)), c,
              Evaluated(ForInF(env, node, c).ctx, Void))
    decreases node, 1, MAX_LOOP_ITERATIONS + 1
  {
    hide Sound, Counting, Calm, Run, RunIf, RunBlock, RunWhile, RunDoWhile, RunFor, RunForWhole, RunElements,
      RunSwitch, RunCases, RunFallback, RunRange, RunForCond, RunLogical, RunTernary, Eval, EvalKind, IfF, BlockF,
      WhileF, DoWhileF, ForF, ForLoopF, ElementsF, SwitchF, CasesF, FallbackF, LogicalF, TernaryF, RangeNodeF,
      ForCondF, LeafF, BindF, BodyF, TryF, ThrowF, PoolF;
    LeafRefines(env, m, node.collection, c);
    var coll := LeafF(env, node.collection, c);
    BeginRefines(env, m, coll.value, coll.ctx);
    var b := BeginF(env, coll.value, coll.ctx);
    ElementsRefines(env, m, node, coll.value, b.kind, 0, b.ctx, None);
  }

  lemma {:induction false} ElementsRefines<S(!new)>(env: Env<S>, m: Meaning<S>, node: Node, coll: Val, kind: Iteration,
                                                    idx: nat, c: Context<S>, last: Option<Context<S>>)
    requires Plain(env, m, node, c) && node.ForIn?
    ensures Matches(RunElements(m, node, coll, kind, idx, WorldOf(c), c.loopIterations, LevelsLeft(c)), c,
                    Evaluated(ElementsF(env, node, coll, kind, idx, c, last).ctx, Void))
    decreases node, 1, MAX_LOOP_ITERATIONS - c.loopIterations, 0
  {
    hide Sound, Counting, Calm, Run, RunIf, RunBlock, RunWhile, RunDoWhile, RunFor, RunForWhole, RunForIn, RunElement,
      RunSwitch, RunCases, RunFallback, RunRange, RunForCond, RunLogical, RunTernary, Eval, EvalKind, IfF, BlockF,
      WhileF, DoWhileF, ForF, ForLoopF, ForInF, ElementF, SwitchF, CasesF, FallbackF, LogicalF, TernaryF, RangeNodeF,
      ForCondF, LeafF, BindF, BodyF, TryF, ThrowF, PoolF;
    if HasElement(kind, idx) && c.loopIterations < MAX_LOOP_ITERATIONS {
      BindRefines(env, m, node.variable, coll, kind, idx, OneMore(c));
      var bound := BindF(env, node.variable, coll, kind, idx, OneMore(c));
      if bound.found {
        ElementRefines(env, m, node, coll, kind, idx, bound.ctx);
      }
    }
  }

  /** A round of for-in that is not followed by another one. */
  lemma LastElement<S(!new)>(env: Env<S>, m: Meaning<S>, node: Node, coll: Val, kind: Iteration, idx: nat,
                             c: Context<S>)
    requires Plain(env, m, node, c) && node.ForIn?
    requires var b := BodyF(env, node.body, c);
             && RoundMatches(Run(m, node.body, WorldOf(c), c.loopIterations, LevelsLeft(c)), c, b)
             && (b.errorCode != OK || ExitOf(b).Left? || (ExitOf(b).Ended? && Leaving(env, TakenDown(b))))
    ensures Matches(RunElement(m, node, coll, kind, idx, WorldOf(c), c.loopIterations, LevelsLeft(c)), c,
                    Evaluated(ElementF(env, node, coll, kind, idx, c).ctx, Void))
  {
    hide Sound, Counting, Calm, Run, RunIf, RunBlock, RunWhile, RunDoWhile, RunFor, RunForWhole, RunForIn,
      RunElements, RunSwitch, RunCases, RunFallback, RunRange, RunForCond, RunLogical, RunTernary, Eval, EvalKind,
      IfF, BlockF, WhileF, DoWhileF, ForF, ForLoopF, ForInF, ElementsF, SwitchF, CasesF, FallbackF, LogicalF,
      TernaryF, RangeNodeF, ForCondF, LeafF, BindF, BodyF, TryF, ThrowF, PoolF, LeafMeans, BoundMeans,
      Leaving, ContinueFree;
    NoInterrupt(env, m, TakenDown(BodyF(env, node.body, c)));
  }

  lemma {:induction false} ElementRefines<S(!new)>(env: Env<S>, m: Meaning<S>, node: Node, coll: Val, kind: Iteration,
                                                   idx: nat, c: Context<S>)
    requires Plain(env, m, node, c) && node.ForIn?
    ensures Matches(RunElement(m, node, coll, kind, idx, WorldOf(c), c.loopIterations, LevelsLeft(c)), c,
                    Evaluated(ElementF(env, node, coll, kind, idx, c).ctx, Void))
    decreases node, 1, MAX_LOOP_ITERATIONS - c.loopIterations, 1
  {
    hide Sound, Counting, Calm, Run, RunIf, RunBlock, RunWhile, RunDoWhile, RunFor, RunForWhole, RunForIn,
      RunElements, RunSwitch, RunCases, RunFallback, RunRange, RunForCond, RunLogical, RunTernary, Eval, EvalKind,
      IfF, BlockF, WhileF, DoWhileF, ForF, ForLoopF, ForInF, ElementsF, SwitchF, CasesF, FallbackF, LogicalF,
      TernaryF, RangeNodeF, ForCondF, LeafF, BindF, BodyF, TryF, ThrowF, PoolF, LeafMeans, BoundMeans,
      Leaving, ContinueFree;
    RoundRefines(env, m, node.body, c);
    var b := BodyF(env, node.body, c);
    var x := TakenDown(b);
    NoInterrupt(env, m, x);
    if b.errorCode != OK || ExitOf(b).Left? || (ExitOf(b).Ended? && Leaving(env, x)) {
      LastElement(env, m, node, coll, kind, idx, c);
    } else {
      ElementsRefines(env, m, node, coll, kind, idx + 1, if ExitOf(b).Skipped? then x else Polled(x), Some(b));
    }
  }

  lemma {:induction false} SwitchRefines<S(!new)>(env: Env<S>, m: Meaning<S>, node: Node, c: Context<S>)
    requires Plain(env, m, node, c) && node.Switch?
    ensures Matches(RunSwitch(m, node, WorldOf(c), c.loopIterations, LevelsLeft(c)), c, SwitchF(env, node, c))
    decreases node, 2, 0
  {
    hide Sound, Counting, Calm, Run, RunIf, RunBlock, RunWhile, RunDoWhile, RunFor, RunForWhole, RunForIn,
      RunElements, RunCases, RunFallback, RunRange, RunForCond, RunLogical, RunTernary, Eval, EvalKind, IfF, BlockF,
      WhileF, DoWhileF, ForF, ForLoopF, ForInF, ElementsF, CasesF, FallbackF, LogicalF, TernaryF, RangeNodeF,
      ForCondF, LeafF, BindF, BodyF, TryF, ThrowF, PoolF;
    LeafRefines(env, m, node.scrutinee, c);
    var s := LeafF(env, node.scrutinee, c);
    var matched := MatchedCase(s.value, node.cases, 0);
    if matched < |node.cases| {
      CasesRefine(env, m, node, matched, s.ctx);
    } else {
      FallbackRefines(env, m, node, s.ctx);
    }
  }

  lemma {:induction false} CasesRefine<S(!new)>(env: Env<S>, m: Meaning<S>, node: Node, i: nat, c: Context<S>)
    requires Plain(env, m, node, c) && node.Switch? && i <= |node.cases|
    ensures Matches(RunCases(m, node, i, WorldOf(c), c.loopIterations, LevelsLeft(c)), c,
              Evaluated(CasesF(env, node, i, c), Void))
    decreases node, 1, |node.cases| - i
  {
    hide Sound, Counting, Calm, Run, RunIf, RunBlock, RunWhile, RunDoWhile, RunFor, RunForWhole, RunForIn,
      RunElements, RunSwitch, RunFallback, RunRange, RunForCond, RunLogical, RunTernary, Eval, EvalKind, IfF, BlockF,
      WhileF, DoWhileF, ForF, ForLoopF, ForInF, ElementsF, SwitchF, FallbackF, LogicalF, TernaryF, RangeNodeF,
      ForCondF, LeafF, BindF, BodyF, TryF, ThrowF, PoolF;
    if i < |node.cases| {
      assert c.(breakPending := false) == c;
      Refines(env, m, node.cases[i].body, c);
      CaseContinues(env, m, node, i, c);
      var b := Eval(env, node.cases[i].body, c).ctx;
      if b.errorCode == OK && !b.breakPending && !Unwinding(b) {
        if b.continuePending {
          NothingBehind(env, node, i, b);
        } else {
          CasesRefine(env, m, node, i + 1, b);
        }
      }
    } else {
      FallbackRefines(env, m, node, c);
    }
  }

  lemma {:induction false} FallbackRefines<S(!new)>(env: Env<S>, m: Meaning<S>, node: Node, c: Context<S>)
    requires Plain(env, m, node, c) && node.Switch?
    ensures Matches(RunFallback(m, node, WorldOf(c), c.loopIterations, LevelsLeft(c)), c,
              Evaluated(FallbackF(env, node, c), Void))
    decreases node, 0, 0
  {
    hide Sound, Counting, Calm, Run, RunIf, RunBlock, RunWhile, RunDoWhile, RunFor, RunForWhole, RunForIn,
      RunElements, RunSwitch, RunCases, RunRange, RunForCond, RunLogical, RunTernary, Eval, EvalKind, IfF, BlockF,
      WhileF, DoWhileF, ForF, ForLoopF, ForInF, ElementsF, SwitchF, CasesF, LogicalF, TernaryF, RangeNodeF, ForCondF,
      LeafF, BindF, BodyF, TryF, ThrowF, PoolF;
    if node.fallback.Some? {
      assert c.(breakPending := false) == c;
      Refines(env, m, node.fallback.value, c);
    }
  }

  /** No case but the last of the switch runs into the next one with a continue. */
  lemma CaseContinues<S(!new)>(env: Env<S>, m: Meaning<S>, node: Node, i: nat, c: Context<S>)
    requires Plain(env, m, node, c) && node.Switch? && i < |node.cases|
    ensures var res := Run(m, node.cases[i].body, WorldOf(c), c.loopIterations, LevelsLeft(c));
            res.Done? && res.outcome == Continued ==> IsLast(node.cases, node.fallback, i)
  {
    hide Sound, Counting, Calm, Run;
    if Run(m, node.cases[i].body, WorldOf(c), c.loopIterations, LevelsLeft(c)).Done? {
      Contained(m, node.cases[i].body, WorldOf(c), c.loopIterations, LevelsLeft(c));
    }
  }

  /** Only the last child of a block throws. */
  lemma ChildThrows<S(!new)>(env: Env<S>, m: Meaning<S>, node: Node, i: nat, c: Context<S>)
    requires Plain(env, m, node, c) && node.Block? && i < |node.children|
    ensures var res := Run(m, node.children[i], WorldOf(c), c.loopIterations, LevelsLeft(c));
            res.Done? && res.outcome == Threw ==> i == |node.children| - 1
  {
    hide Sound, Counting, Calm, Run;
    if Run(m, node.children[i], WorldOf(c), c.loopIterations, LevelsLeft(c)).Done? {
      Contained(m, node.children[i], WorldOf(c), c.loopIterations, LevelsLeft(c));
    }
  }

  // ---- Exceptions ----

  /** As `Matches`, where there is no value to compare. */
  predicate Leads<S(==)>(res: Result<World<S>>, c: Context<S>, c': Context<S>) {
    Matches(if res.Done? then res.(value := Void) else res, c, Evaluated(c', Void))
  }

  lemma ThrowRefines<S(!new)>(env: Env<S>, m: Meaning<S>, thrown: Option<Range>, c: Context<S>)
    requires Sound(env) && Counting(m) && Calm(env, m) && Quiet(c) && Ready(c)
    ensures Matches(RunThrow(m, thrown, WorldOf(c), c.loopIterations), c, Evaluated(ThrowF(env, thrown, c), Void))
  {
    hide Sound, Counting, Calm, LeafF;
    if thrown.Some? {
      LeafRefines(env, m, thrown.value, c);
    }
  }

  lemma {:induction false} OptionalRefines<S(!new)>(env: Env<S>, m: Meaning<S>, body: Option<Node>, c: Context<S>)
    requires Sound(env) && Counting(m) && Calm(env, m) && (body.Some? ==> Structured(body.value))
    requires Quiet(c) && Ready(c) && c.evalDepth <= MAX_EVAL_DEPTH
    ensures Leads(RunOptional(m, body, WorldOf(c), c.loopIterations, LevelsLeft(c)), c, OptionalF(env, body, c))
    decreases body, 4, 0
  {
    hide Sound, Counting, Calm, Run, Eval;
    if body.Some? {
      Refines(env, m, body.value, c);
    }
  }

  lemma {:induction false} PoolRefines<S(!new)>(env: Env<S>, m: Meaning<S>, node: Node, c: Context<S>)
    requires Plain(env, m, node, c) && node.Pool?
    ensures Matches(RunPool(m, node, WorldOf(c), c.loopIterations, LevelsLeft(c)), c,
                    Evaluated(PoolF(env, node, c), Void))
    decreases node, 1, 0
  {
    hide Sound, Counting, Calm, RunOptional, OptionalF;
    if c.poolDepth < MAX_POOL_DEPTH {
      OptionalRefines(env, m, node.poolBody, c.(poolDepth := c.poolDepth + 1));
    }
  }

  lemma CatchRefines<S(!new)>(env: Env<S>, m: Meaning<S>, x: string, c: Context<S>)
    requires Sound(env) && Counting(m) && Calm(env, m) && Steady(c) && Ready(c)
    ensures var b, c' := BindCatch(m, x, WorldOf(c), c.loopIterations), BindCatchF(env, x, c);
            && b.store == WorldOf(c') && c.loopIterations <= b.iterations <= MAX_LOOP_ITERATIONS
            && c' == c.(store := b.store.store, loopIterations := b.iterations)
  {
  }

  lemma {:induction false} CaughtRefines<S(!new)>(env: Env<S>, m: Meaning<S>, node: Node, c: Context<S>,
                                                  c1: Context<S>)
    requires Plain(env, m, node, c) && node.Try? && c1 == c.(tryDepth := c.tryDepth + 1)
    ensures Leads(RunCaught(m, node, WorldOf(c1), c1.loopIterations, LevelsLeft(c1)), c1, CaughtF(env, node, c))
    decreases node, 0, 0
  {
    hide Sound, Counting, Calm, RunOptional, Run, OptionalF, Eval, BindCatchF, BindCatch;
    assert c1 == c.(tryDepth := c.tryDepth + 1, exceptionPending := false);
    OptionalRefines(env, m, node.tryBody, c1);
    var t := OptionalF(env, node.tryBody, c1);
    if t.exceptionPending && node.catchBody.Some? && t.errorCode == OK {
      CatchRefines(env, m, node.catchVar, t);
      var c2 := BindCatchF(env, node.catchVar, t).(exceptionPending := false);
      Refines(env, m, node.catchBody.value, c2);
      OptionalIs(env, node.catchBody, c2);
    }
  }

  lemma OptionalIs<S(!new)>(env: Env<S>, body: Option<Node>, c: Context<S>)
    requires Sound(env) && Ready(c)
    ensures OptionalF(env, body, c) == if body.None? then c else Eval(env, body.value, c).ctx
  {
    hide Sound, Eval;
  }

  // ---- A finally part with an exception pending ----

  /** The same but for whether an exception is pending. */
  predicate Alike<S(==)>(c: Context<S>, c': Context<S>) {
    c'.(exceptionPending := c.exceptionPending) == c
  }

  lemma LeafAlike<S(!new)>(env: Env<S>, m: Meaning<S>, r: Range, c: Context<S>, c0: Context<S>)
    requires Sound(env) && Counting(m) && Calm(env, m) && Steady(c) && Ready(c) && Alike(c, c0)
    ensures var e, e0 := LeafF(env, r, c), LeafF(env, r, c0);
            && e.value == e0.value && Alike(e.ctx, e0.ctx) && e.ctx.exceptionPending == c.exceptionPending
            && Steady(e.ctx)
  {
    hide Sound, Counting, Calm, LeafF;
    LeafRefines(env, m, r, c);
    LeafRefines(env, m, r, c0);
  }

  /** Blocks and conditionals of statements do the same whether an exception is pending or not. */
  lemma {:induction false} StraightAlike<S(!new)>(env: Env<S>, m: Meaning<S>, node: Node, c: Context<S>,
                                                  c0: Context<S>)
    requires Sound(env) && Counting(m) && Calm(env, m) && Straight(node) && Steady(c) && Ready(c) && Alike(c, c0)
    ensures var e, e0 := Eval(env, node, c), Eval(env, node, c0);
            && e.value == e0.value && Alike(e.ctx, e0.ctx) && e.ctx.exceptionPending == c.exceptionPending
            && (e.ctx.errorCode == OK ==> Steady(e.ctx))
    decreases node, 2, 0
  {
    hide Sound, Counting, Calm, LeafF, RangeNodeF, IfF, BlockF, LogicalF, TernaryF, WhileF, DoWhileF, ForF, ForInF,
      SwitchF, TryF, ThrowF, PoolF;
    if c.evalDepth < MAX_EVAL_DEPTH {
      var d, d0 := Deeper(c), Deeper(c0);
      match node
      case If(_, _, _) => IfAlike(env, m, node, d, d0);
      case Block(_) => BlockAlike(env, m, node, 0, Void, d, d0);
      case Statement(r) => LeafAlike(env, m, r, d, d0);
      case And(_, _) => LogicalAlike(env, m, node, d, d0);
      case Or(_, _) => LogicalAlike(env, m, node, d, d0);
      case Ternary(_, _, _) => TernaryAlike(env, m, node, d, d0);
      case Noop =>
    }
  }

  lemma LogicalAlike<S(!new)>(env: Env<S>, m: Meaning<S>, node: Node, c: Context<S>, c0: Context<S>)
    requires Sound(env) && Counting(m) && Calm(env, m) && Steady(c) && Ready(c) && Alike(c, c0)
    requires node.And? || node.Or?
    ensures var e, e0 := LogicalF(env, node, c), LogicalF(env, node, c0);
            && e.value == e0.value && Alike(e.ctx, e0.ctx) && e.ctx.exceptionPending == c.exceptionPending
            && Steady(e.ctx)
  {
    hide Sound, Counting, Calm, LeafF;
    LeafAlike(env, m, node.left, c, c0);
    LeafAlike(env, m, node.right, LeafF(env, node.left, c).ctx, LeafF(env, node.left, c0).ctx);
  }

  lemma TernaryAlike<S(!new)>(env: Env<S>, m: Meaning<S>, node: Node, c: Context<S>, c0: Context<S>)
    requires Sound(env) && Counting(m) && Calm(env, m) && Steady(c) && Ready(c) && Alike(c, c0) && node.Ternary?
    ensures var e, e0 := TernaryF(env, node, c), TernaryF(env, node, c0);
            && e.value == e0.value && Alike(e.ctx, e0.ctx) && e.ctx.exceptionPending == c.exceptionPending
            && Steady(e.ctx)
  {
    hide Sound, Counting, Calm, LeafF;
    LeafAlike(env, m, node.cond, c, c0);
    var cond, cond0 := LeafF(env, node.cond, c), LeafF(env, node.cond, c0);
    LeafAlike(env, m, if Truthy(cond.value) then node.yes else node.no, cond.ctx, cond0.ctx);
  }

  lemma {:induction false} IfAlike<S(!new)>(env: Env<S>, m: Meaning<S>, node: Node, c: Context<S>, c0: Context<S>)
    requires Sound(env) && Counting(m) && Calm(env, m) && Straight(node) && Steady(c) && Ready(c) && Alike(c, c0)
    requires node.If?
    ensures var e, e0 := IfF(env, node, c), IfF(env, node, c0);
            && e.value == e0.value && Alike(e.ctx, e0.ctx) && e.ctx.exceptionPending == c.exceptionPending
            && (e.ctx.errorCode == OK ==> Steady(e.ctx))
    decreases node, 1, 0
  {
    hide Sound, Counting, Calm, LeafF, Eval;
    if c.evalDepth < MAX_EVAL_DEPTH {
      LeafAlike(env, m, node.cond, Deeper(c), Deeper(c0));
      var cond, cond0 := RangeNodeF(env, node.cond, c), RangeNodeF(env, node.cond, c0);
      if Truthy(cond.value) {
        StraightAlike(env, m, node.thn, cond.ctx, cond0.ctx);
      } else if node.els.Some? {
        StraightAlike(env, m, node.els.value, cond.ctx, cond0.ctx);
      }
    } else {
      TooDeep(env, node, c);
      TooDeep(env, node, c0);
    }
  }

  lemma TooDeep<S(!new)>(env: Env<S>, node: Node, c: Context<S>)
    requires Sound(env) && Ready(c) && c.evalDepth >= MAX_EVAL_DEPTH && node.If?
    ensures IfF(env, node, c) == Evaluated(Failed(c, RESOURCE_ERROR), Void)
  {
    hide Sound, LeafF, EvalKind;
  }

  lemma {:induction false} BlockAlike<S(!new)>(env: Env<S>, m: Meaning<S>, node: Node, i: nat, last: Val,
                                               c: Context<S>, c0: Context<S>)
    requires Sound(env) && Counting(m) && Calm(env, m) && Straight(node) && Steady(c) && Ready(c) && Alike(c, c0)
    requires node.Block? && i <= |node.children|
    ensures var e, e0 := BlockF(env, node, i, last, c), BlockF(env, node, i, last, c0);
            && e.value == e0.value && Alike(e.ctx, e0.ctx) && e.ctx.exceptionPending == c.exceptionPending
            && (e.ctx.errorCode == OK ==> Steady(e.ctx))
    decreases node, 1, |node.children| - i
  {
    hide Sound, Counting, Calm, Eval;
    if i < |node.children| {
      StraightAlike(env, m, node.children[i], c, c0);
      var e, e0 := Eval(env, node.children[i], c), Eval(env, node.children[i], c0);
      if e.ctx.errorCode == OK {
        BlockAlike(env, m, node, i + 1, e.value, e.ctx, e0.ctx);
      }
    }
  }

  lemma {:induction false} StraightIsFree(node: Node)
    requires Straight(node)
    ensures Structured(node) && BreakFree(node) && ContinueFree(node) && ThrowFree(node) && ReturnFree(node)
  {
    match node
    case Block(children) =>
      forall i | 0 <= i < |children|
        ensures Structured(children[i]) && BreakFree(children[i]) && ContinueFree(children[i])
        ensures ThrowFree(children[i]) && ReturnFree(children[i])
      {
        StraightIsFree(children[i]);
      }
    case If(_, thn, els) =>
      StraightIsFree(thn);
      if els.Some? {
        StraightIsFree(els.value);
      }
    case _ =>
  }

  /** A straight finally part behind an exception that stays pending. */
  lemma {:induction false} PendingFinally<S(!new)>(env: Env<S>, m: Meaning<S>, body: Node, k: Context<S>)
    requires Sound(env) && Counting(m) && Calm(env, m) && Straight(body) && Structured(body)
    requires Steady(k) && k.exceptionPending && Ready(k) && k.evalDepth <= MAX_EVAL_DEPTH
    ensures var res, f := Run(m, body, WorldOf(k), k.loopIterations, LevelsLeft(k)), Eval(env, body, k).ctx;
            && (res.Done? ==> res.outcome == Normal && Leads(res.(outcome := Threw), k, f))
            && (res.Stuck? ==> f.errorCode != OK)
    decreases body, 4, 0
  {
    hide Sound, Counting, Calm, Run, Eval, Straight, Structured;
    var k0 := k.(exceptionPending := false);
    StraightAlike(env, m, body, k, k0);
    Refines(env, m, body, k0);
    StraightIsFree(body);
    var res := Run(m, body, WorldOf(k), k.loopIterations, LevelsLeft(k));
    if res.Done? {
      Contained(m, body, WorldOf(k), k.loopIterations, LevelsLeft(k));
    }
  }

  /** The finally part, whatever the bodies before it left. */
  lemma {:induction false} FinallyRefines<S(!new)>(env: Env<S>, m: Meaning<S>, node: Node, c1: Context<S>,
                                                   k: Context<S>, res: Result<World<S>>)
    requires Sound(env) && Counting(m) && Calm(env, m) && Structured(node) && node.Try?
    requires Quiet(c1) && Ready(c1) && c1.evalDepth <= MAX_EVAL_DEPTH
    requires res == RunCaught(m, node, WorldOf(c1), c1.loopIterations, LevelsLeft(c1)) && res.Done?
    requires Leads(res, c1, k) && Ready(k)
    ensures var f := RunOptional(m, node.finallyBody, res.store, res.iterations, LevelsLeft(c1));
            var f' := OptionalF(env, node.finallyBody, k);
            && (f.Stuck? ==> f'.errorCode != OK)
            && (f.Done? ==> Leads(f.(outcome := if f.outcome == Normal then res.outcome else f.outcome), c1, f'))
    decreases node, 0, 0
  {
    hide Sound, Counting, Calm, Run, Eval, RunCaught, StaysInside, Caught;
    ContainedCaught(m, node, WorldOf(c1), c1.loopIterations, LevelsLeft(c1));
    if node.finallyBody.Some? {
      Inside(node, res.outcome);
      if res.outcome == Normal {
        Refines(env, m, node.finallyBody.value, k);
      } else {
        PendingFinally(env, m, node.finallyBody.value, k);
      }
    }
  }

  lemma Inside(node: Node, o: BigStep.Outcome)
    requires Structured(node) && node.Try? && node.finallyBody.Some?
    requires OptionalFits(node.tryBody, o) || (node.catchBody.Some? && OutcomeFits(node.catchBody.value, o))
    requires Caught(node.tryBody, node.catchBody) ==> o != Threw
    ensures o == Normal || (o == Threw && Straight(node.finallyBody.value))
  {
  }

  lemma {:induction false} TryRefines<S(!new)>(env: Env<S>, m: Meaning<S>, node: Node, c: Context<S>)
    requires Plain(env, m, node, c) && node.Try?
    ensures Matches(RunTry(m, node, WorldOf(c), c.loopIterations, LevelsLeft(c)), c,
                    Evaluated(TryF(env, node, c), Void))
    decreases node, 1, 0
  {
    hide Sound, Counting, Calm, Run, Eval, RunCaught, RunOptional, OptionalF, CaughtF;
    if c.tryDepth < MAX_TRY_DEPTH {
      var c1 := c.(tryDepth := c.tryDepth + 1);
      CaughtRefines(env, m, node, c, c1);
      var res := RunCaught(m, node, WorldOf(c1), c1.loopIterations, LevelsLeft(c1));
      if res.Done? {
        FinallyRefines(env, m, node, c1, CaughtF(env, node, c), res);
      }
    }
  }
}
