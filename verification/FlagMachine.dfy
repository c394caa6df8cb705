/** What the evaluator computes, as functions on contexts: pending flags, depth counters and budgets. */
module FlagMachine {
  import opened Options
  import opened Ast

  /** What a for-in loop iterates over; an enumerator has been asked for. */
  datatype Begun<S> = Begun(kind: Iteration, ctx: Context<S>)

  /** Whether there was another element to bind. */
  datatype Binding<S> = Binding(found: bool, ctx: Context<S>)

  /** Everything evaluation takes from outside the tree. */
  datatype Env<!S> = Env(
    /** Evaluate a source range. */
    leaf: (Range, Context<S>) -> Evaluated<S>,
    /** What a for-in loop makes of its collection. */
    begin: (Val, Context<S>) -> Begun<S>,
    /** Bind the variable of a for-in loop to the n-th element, if there still is one. */
    bind: (string, Val, Iteration, nat, Context<S>) -> Binding<S>,
    /** Bind a catch variable to the current exception. */
    bindCatch: (string, Context<S>) -> Context<S>,
    /** Whether the host asks for an interrupt at the n-th poll. */
    interrupt: nat -> bool)

  /** Source ranges and bindings keep the evaluator's counters and flags. */
  ghost predicate Sound<S(!new)>(env: Env<S>) {
    && (forall r, c: Context<S> :: Ready(c) ==> Leaflike(c, env.leaf(r, c).ctx))
    && (forall v, c: Context<S> :: Ready(c) ==> Leaflike(c, env.begin(v, c).ctx))
    && (forall x, v, k, n: nat, c: Context<S> :: Ready(c) ==> Leaflike(c, env.bind(x, v, k, n, c).ctx))
    && (forall x, c: Context<S> :: Ready(c) ==> Leaflike(c, env.bindCatch(x, c)))
  }

  predicate Ready<S>(c: Context<S>) {
    c.loopIterations <= MAX_LOOP_ITERATIONS
  }

  function Failed<S>(c: Context<S>, code: nat): Context<S> {
    c.(errorCode := code)
  }

  /** One level deeper in the tree, and back. */
  function Deeper<S>(c: Context<S>): Context<S> {
    c.(evalDepth := c.evalDepth + 1)
  }

  function Back<S>(c: Context<S>): Context<S>
    requires c.evalDepth > 0
  {
    c.(evalDepth := c.evalDepth - 1)
  }

  /** One more loop iteration. */
  function OneMore<S>(c: Context<S>): Context<S> {
    c.(loopIterations := c.loopIterations + 1)
  }

  ghost function LeafF<S(!new)>(env: Env<S>, r: Range, c: Context<S>): (e: Evaluated<S>)
    requires Sound(env) && Ready(c)
    ensures Leaflike(c, e.ctx)
  {
    env.leaf(r, c)
  }

  /** A condition, initialiser or increment: a node of its own, one level deeper. */
  ghost function RangeNodeF<S(!new)>(env: Env<S>, r: Range, c: Context<S>): (e: Evaluated<S>)
    requires Sound(env) && Ready(c)
    ensures Leaflike(c, e.ctx)
  {
    hide Sound;
    if c.evalDepth >= MAX_EVAL_DEPTH then Evaluated(Failed(c, RESOURCE_ERROR), Void)
    else
      var e := LeafF(env, r, Deeper(c));
      e.(ctx := Back(e.ctx))
  }

  /** How a loop body ended: on a break, on a continue, or in any other way. */
  datatype Exit = Left | Skipped | Ended

  function ExitOf<S>(c: Context<S>): Exit {
    if c.breakPending then Left else if c.continuePending then Skipped else Ended
  }

  /** A loop takes down the flag it acts on: the break, or else the continue. */
  function TakenDown<S>(c: Context<S>): Context<S> {
    if c.breakPending then c.(breakPending := false) else c.(continuePending := false)
  }

  predicate Unwinding<S>(c: Context<S>) {
    c.returnPending || c.exceptionPending
  }

  /** Whether a loop must be left for a return, an exception or an interrupt of the host. */
  predicate Leaving<S>(env: Env<S>, c: Context<S>) {
    Unwinding(c) || env.interrupt(c.polls)
  }

  /** The host is asked only when nothing else ends the loop. */
  function Polled<S>(c: Context<S>): Context<S> {
    if Unwinding(c) then c else c.(polls := c.polls + 1)
  }

  /** A loop run: the context it ends in, and the one in which the body of its last round ended. */
  datatype LoopRun<S> = LoopRun(ctx: Context<S>, last: Option<Context<S>>)

  /** Evaluate a node, one level deeper. */
  ghost function Eval<S(!new)>(env: Env<S>, node: Node, c: Context<S>): (e: Evaluated<S>)
    requires Sound(env) && Ready(c)
    ensures Balanced(c, e.ctx)
    decreases node, 4, 0
  {
    hide Sound;
    if c.evalDepth >= MAX_EVAL_DEPTH then Evaluated(Failed(c, RESOURCE_ERROR), Void)
    else
      var e := EvalKind(env, node, Deeper(c));
      e.(ctx := Back(e.ctx))
  }

  ghost function EvalKind<S(!new)>(env: Env<S>, node: Node, c: Context<S>): (e: Evaluated<S>)
    requires Sound(env) && Ready(c)
    ensures Balanced(c, e.ctx)
    decreases node, 3, 0
  {
    hide Sound;
    match node
    case If(_, _, _) => IfF(env, node, c)
    case While(_, _) => Evaluated(WhileF(env, node, c, None).ctx, Void)
    case DoWhile(_, _) => Evaluated(DoWhileF(env, node, c, None).ctx, Void)
    case For(_, _, _, _) => Evaluated(ForF(env, node, c).ctx, Void)
    case ForIn(_, _, _) => Evaluated(ForInF(env, node, c).ctx, Void)
    case Block(_) => BlockF(env, node, 0, Void, c)
    case Statement(r) => LeafF(env, r, c)
    case And(_, _) => LogicalF(env, node, c)
    case Or(_, _) => LogicalF(env, node, c)
    case Ternary(_, _, _) => TernaryF(env, node, c)
    case Return(r) => var e := LeafF(env, r, c); e.(ctx := e.ctx.(returnPending := true))
    case Break => Evaluated(c.(breakPending := true), Void)
    case Continue => Evaluated(c.(continuePending := true), Void)
    case Noop => Evaluated(c, Void)
    case Switch(_, _, _) => SwitchF(env, node, c)
    case Try(_, _, _, _) => Evaluated(TryF(env, node, c), Void)
    case Throw(thrown) => Evaluated(ThrowF(env, thrown, c), Void)
    case Pool(_) => Evaluated(PoolF(env, node, c), Void)
  }

  /** A body that may be missing. */
  ghost function OptionalF<S(!new)>(env: Env<S>, body: Option<Node>, c: Context<S>): (c': Context<S>)
    requires Sound(env) && Ready(c)
    ensures Balanced(c, c')
    decreases body, 5, 0
  {
    hide Sound;
    if body.None? then c else Eval(env, body.value, c).ctx
  }

  ghost function IfF<S(!new)>(env: Env<S>, node: Node, c: Context<S>): (e: Evaluated<S>)
    requires Sound(env) && Ready(c) && node.If?
    ensures Balanced(c, e.ctx)
    decreases node, 1, 0
  {
    hide Sound;
    var cond := RangeNodeF(env, node.cond, c);
    if Truthy(cond.value) then Eval(env, node.thn, cond.ctx)
    else if node.els.Some? then Eval(env, node.els.value, cond.ctx)
    else Evaluated(cond.ctx, Void)
  }

  /** && and ||: the right side is evaluated only when the left one leaves it open. */
  ghost function LogicalF<S(!new)>(env: Env<S>, node: Node, c: Context<S>): (e: Evaluated<S>)
    requires Sound(env) && Ready(c) && (node.And? || node.Or?)
    ensures Leaflike(c, e.ctx)
    decreases node, 1, 0
  {
    hide Sound;
    var l := LeafF(env, node.left, c);
    if node.And? && !Truthy(l.value) then Evaluated(l.ctx, Int(0))
    else if node.Or? && Truthy(l.value) then Evaluated(l.ctx, Int(1))
    else
      var r := LeafF(env, node.right, l.ctx);
      Evaluated(r.ctx, Int(if Truthy(r.value) then 1 else 0))
  }

  ghost function TernaryF<S(!new)>(env: Env<S>, node: Node, c: Context<S>): (e: Evaluated<S>)
    requires Sound(env) && Ready(c) && node.Ternary?
    ensures Leaflike(c, e.ctx)
    decreases node, 1, 0
  {
    hide Sound;
    var cond := LeafF(env, node.cond, c);
    LeafF(env, if Truthy(cond.value) then node.yes else node.no, cond.ctx)
  }

  /** The children of a block from the i-th on; a pending return, break or continue, or an error, ends the block. */
  ghost function BlockF<S(!new)>(env: Env<S>, node: Node, i: nat, last: Val, c: Context<S>): (e: Evaluated<S>)
    requires Sound(env) && Ready(c) && node.Block? && i <= |node.children|
    ensures Balanced(c, e.ctx)
    decreases node, 1, |node.children| - i
  {
    hide Sound;
    if i == |node.children| then Evaluated(c, last)
    else
      var e := Eval(env, node.children[i], c);
      if e.ctx.returnPending || e.ctx.breakPending || e.ctx.continuePending || e.ctx.errorCode != OK then e
      else BlockF(env, node, i + 1, e.value, e.ctx)
  }

  /** One round of a loop body, which starts with the loop flags down. */
  ghost function BodyF<S(!new)>(env: Env<S>, body: Node, c: Context<S>): (c': Context<S>)
    requires Sound(env) && Ready(c)
    ensures Balanced(c, c')
    decreases body, 5, 0
  {
    hide Sound;
    Eval(env, body, c.(breakPending := false, continuePending := false)).ctx
  }

  ghost function WhileF<S(!new)>(env: Env<S>, node: Node, c: Context<S>, last: Option<Context<S>>): (l: LoopRun<S>)
    requires Sound(env) && Ready(c) && node.While?
    ensures Balanced(c, l.ctx)
    decreases node, 1, MAX_LOOP_ITERATIONS - c.loopIterations
  {
    hide Sound;
    if c.loopIterations == MAX_LOOP_ITERATIONS then LoopRun(Failed(c, RESOURCE_ERROR), last)
    else
      var cond := RangeNodeF(env, node.cond, OneMore(c));
      if !Truthy(cond.value) then LoopRun(cond.ctx, last)
      else
        var b := BodyF(env, node.body, cond.ctx);
        var x := TakenDown(b);
        if ExitOf(b).Left? then LoopRun(x, Some(b))
        else if ExitOf(b).Skipped? then WhileF(env, node, x, Some(b))
        else if Leaving(env, x) then LoopRun(Polled(x), Some(b))
        else WhileF(env, node, Polled(x), Some(b))
  }

  ghost function DoWhileF<S(!new)>(env: Env<S>, node: Node, c: Context<S>, last: Option<Context<S>>): (l: LoopRun<S>)
    requires Sound(env) && Ready(c) && node.DoWhile?
    ensures Balanced(c, l.ctx)
    decreases node, 1, MAX_LOOP_ITERATIONS - c.loopIterations
  {
    hide Sound;
    if c.loopIterations == MAX_LOOP_ITERATIONS then LoopRun(Failed(c, RESOURCE_ERROR), last)
    else
      var b := BodyF(env, node.body, OneMore(c));
      var x := TakenDown(b);
      if ExitOf(b).Left? then LoopRun(x, Some(b))
      else if Leaving(env, x) then LoopRun(Polled(x), Some(b))
      else
        var cond := RangeNodeF(env, node.cond, Polled(x));
        if !Truthy(cond.value) then LoopRun(cond.ctx, Some(b))
        else DoWhileF(env, node, cond.ctx, Some(b))
  }

  ghost function ForF<S(!new)>(env: Env<S>, node: Node, c: Context<S>): (l: LoopRun<S>)
    requires Sound(env) && Ready(c) && node.For?
    ensures Balanced(c, l.ctx)
    decreases node, 1, MAX_LOOP_ITERATIONS + 1
  {
    hide Sound;
    ForLoopF(env, node, RangeNodeF(env, node.init, c).ctx, None)
  }

  /** The condition of a for loop; an empty one is true. */
  ghost function ForCondF<S(!new)>(env: Env<S>, cond: Range, c: Context<S>): (e: Evaluated<S>)
    requires Sound(env) && Ready(c)
    ensures Leaflike(c, e.ctx)
  {
    hide Sound;
    if cond.len == 0 then Evaluated(c, Int(1)) else RangeNodeF(env, cond, c)
  }

  ghost function ForLoopF<S(!new)>(env: Env<S>, node: Node, c: Context<S>, last: Option<Context<S>>): (l: LoopRun<S>)
    requires Sound(env) && Ready(c) && node.For?
    ensures Balanced(c, l.ctx)
    decreases node, 1, MAX_LOOP_ITERATIONS - c.loopIterations
  {
    hide Sound;
    if c.loopIterations == MAX_LOOP_ITERATIONS then LoopRun(Failed(c, RESOURCE_ERROR), last)
    else
      var cond := ForCondF(env, node.cond, OneMore(c));
      if !Truthy(cond.value) then LoopRun(cond.ctx, last)
      else
        var b := BodyF(env, node.body, cond.ctx);
        var x := TakenDown(b);
        if ExitOf(b).Left? then LoopRun(x, Some(b))
        else if Leaving(env, x) then LoopRun(Polled(x), Some(b))
        else ForLoopF(env, node, RangeNodeF(env, node.increment, Polled(x)).ctx, Some(b))
  }

  ghost function ForInF<S(!new)>(env: Env<S>, node: Node, c: Context<S>): (l: LoopRun<S>)
    requires Sound(env) && Ready(c) && node.ForIn?
    ensures Balanced(c, l.ctx)
    decreases node, 1, MAX_LOOP_ITERATIONS + 1
  {
    hide Sound;
    var coll := LeafF(env, node.collection, c);
    var b := BeginF(env, coll.value, coll.ctx);
    ElementsF(env, node, coll.value, b.kind, 0, b.ctx, None)
  }

  ghost function BeginF<S(!new)>(env: Env<S>, coll: Val, c: Context<S>): (r: Begun<S>)
    requires Sound(env) && Ready(c)
    ensures Leaflike(c, r.ctx)
  {
    env.begin(coll, c)
  }

  /** Bind the loop variable, if there still is an element. */
  ghost function BindF<S(!new)>(env: Env<S>, variable: string, coll: Val, kind: Iteration, idx: nat, c: Context<S>)
      : (r: Binding<S>)
    requires Sound(env) && Ready(c)
    ensures Leaflike(c, r.ctx)
  {
    env.bind(variable, coll, kind, idx, c)
  }

  /** The elements from the idx-th on. */
  ghost function ElementsF<S(!new)>(env: Env<S>, node: Node, coll: Val, kind: Iteration, idx: nat, c: Context<S>,
                                    last: Option<Context<S>>): (l: LoopRun<S>)
    requires Sound(env) && Ready(c) && node.ForIn?
    ensures Balanced(c, l.ctx)
    decreases node, 1, MAX_LOOP_ITERATIONS - c.loopIterations, 0
  {
    hide Sound;
    if !HasElement(kind, idx) then LoopRun(c, last)
    else if c.loopIterations == MAX_LOOP_ITERATIONS then LoopRun(Failed(c, RESOURCE_ERROR), last)
    else
      var bound := BindF(env, node.variable, coll, kind, idx, OneMore(c));
      if !bound.found then LoopRun(bound.ctx, last) else ElementF(env, node, coll, kind, idx, bound.ctx)
  }

  /** The round of the idx-th element, already bound, and the elements behind it. */
  ghost function ElementF<S(!new)>(env: Env<S>, node: Node, coll: Val, kind: Iteration, idx: nat, c: Context<S>)
      : (l: LoopRun<S>)
    requires Sound(env) && Ready(c) && node.ForIn?
    ensures Balanced(c, l.ctx)
    decreases node, 1, MAX_LOOP_ITERATIONS - c.loopIterations, 1
  {
    hide Sound;
    var b := BodyF(env, node.body, c);
    var x := TakenDown(b);
    if ExitOf(b).Left? then LoopRun(x, Some(b))
    else if ExitOf(b).Skipped? then ElementsF(env, node, coll, kind, idx + 1, x, Some(b))
    else if Leaving(env, x) then LoopRun(Polled(x), Some(b))
    else ElementsF(env, node, coll, kind, idx + 1, Polled(x), Some(b))
  }

  ghost function SwitchF<S(!new)>(env: Env<S>, node: Node, c: Context<S>): (e: Evaluated<S>)
    requires Sound(env) && Ready(c) && node.Switch?
    ensures Balanced(c, e.ctx)
    decreases node, 2, 0
  {
    hide Sound;
    var s := LeafF(env, node.scrutinee, c);
    if s.ctx.errorCode != OK then s
    else
      var matched := MatchedCase(s.value, node.cases, 0);
      Evaluated(if matched < |node.cases| then CasesF(env, node, matched, s.ctx) else FallbackF(env, node, s.ctx), Void)
  }

  /** The cases from the i-th on, one falling into the next until a break; a continue stays pending meanwhile. */
  ghost function CasesF<S(!new)>(env: Env<S>, node: Node, i: nat, c: Context<S>): (c': Context<S>)
    requires Sound(env) && Ready(c) && node.Switch? && i <= |node.cases|
    ensures Balanced(c, c')
    decreases node, 1, |node.cases| - i
  {
    hide Sound;
    if i == |node.cases| then FallbackF(env, node, c)
    else
      var b := Eval(env, node.cases[i].body, c.(breakPending := false)).ctx;
      if b.breakPending then b.(breakPending := false)
      else if Unwinding(b) then b
      else CasesF(env, node, i + 1, b)
  }

  /** The default of a switch, if it has one. */
  ghost function FallbackF<S(!new)>(env: Env<S>, node: Node, c: Context<S>): (c': Context<S>)
    requires Sound(env) && Ready(c) && node.Switch?
    ensures Balanced(c, c')
    decreases node, 0, 0
  {
    hide Sound;
    if node.fallback.None? then c
    else Eval(env, node.fallback.value, c.(breakPending := false)).ctx.(breakPending := false)
  }

  /** Behind the last case of a switch without a default nothing is evaluated. */
  lemma NothingBehind<S(!new)>(env: Env<S>, node: Node, i: nat, c: Context<S>)
    requires Sound(env) && Ready(c) && node.Switch? && i < |node.cases| && IsLast(node.cases, node.fallback, i)
    ensures CasesF(env, node, i + 1, c) == c
  {
    hide Sound, Eval;
  }

  /** Bind the catch variable, if the catch names one. */
  ghost function BindCatchF<S(!new)>(env: Env<S>, variable: string, c: Context<S>): (c': Context<S>)
    requires Sound(env) && Ready(c)
    ensures Leaflike(c, c')
  {
    if variable == "" then c else env.bindCatch(variable, c)
  }

  /** Pop the try frame; an exception caught and not thrown again is forgotten. */
  function LeaveTryF<S>(c: Context<S>): Context<S> {
    c.(tryDepth := if c.tryDepth > 0 then c.tryDepth - 1 else 0,
       currentException := if c.exceptionPending then c.currentException else Void)
  }

  /** The try body, the catch body when an exception is pending, the finally body in any case. */
  ghost function TryF<S(!new)>(env: Env<S>, node: Node, c: Context<S>): (c': Context<S>)
    requires Sound(env) && Ready(c) && node.Try?
    ensures Balanced(c, c')
    decreases node, 1, 0
  {
    hide Sound;
    if c.tryDepth >= MAX_TRY_DEPTH then Failed(c, RESOURCE_ERROR)
    else LeaveTryF(OptionalF(env, node.finallyBody, CaughtF(env, node, c)))
  }

  /** The try body, and the catch body when it leaves an exception pending. */
  ghost function CaughtF<S(!new)>(env: Env<S>, node: Node, c: Context<S>): (c': Context<S>)
    requires Sound(env) && Ready(c) && node.Try?
    ensures Balanced(c.(tryDepth := c.tryDepth + 1), c')
    decreases node, 0, 0
  {
    hide Sound;
    var t := OptionalF(env, node.tryBody, c.(tryDepth := c.tryDepth + 1, exceptionPending := false));
    if t.exceptionPending && node.catchBody.Some?
    then OptionalF(env, node.catchBody, BindCatchF(env, node.catchVar, t).(exceptionPending := false))
    else t
  }

  /** A throw leaves its exception pending; outside every try it is an error as well. */
  ghost function ThrowF<S(!new)>(env: Env<S>, thrown: Option<Range>, c: Context<S>): (c': Context<S>)
    requires Sound(env) && Ready(c)
    ensures Leaflike(c, c')
  {
    hide Sound;
    if thrown.None? && c.currentException.Void? then Failed(c, RUNTIME_ERROR)
    else
      var e := if thrown.None? then Evaluated(c, c.currentException) else LeafF(env, thrown.value, c);
      var x := e.ctx.(currentException := e.value, exceptionPending := true);
      if x.tryDepth == 0 then Failed(x, RUNTIME_ERROR) else x
  }

  ghost function PoolF<S(!new)>(env: Env<S>, node: Node, c: Context<S>): (c': Context<S>)
    requires Sound(env) && Ready(c) && node.Pool?
    ensures Balanced(c, c')
    decreases node, 1, 0
  {
    hide Sound;
    if c.poolDepth >= MAX_POOL_DEPTH then Failed(c, RESOURCE_ERROR)
    else
      var b := OptionalF(env, node.poolBody, c.(poolDepth := c.poolDepth + 1));
      b.(poolDepth := b.poolDepth - 1)
  }
}
