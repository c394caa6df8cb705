/** Where a pending break or continue can and cannot go. */
module PendingFlags {
  import opened Options
  import opened Ast
  import opened FlagMachine

  /** What evaluating a node may do to the loop flags. */
  predicate FlagsKept<S>(node: Node, c: Context<S>, c': Context<S>) {
    && (BreakFree(node) && !c.breakPending ==> !c'.breakPending)
    && (ContinueFree(node) && !c.continuePending ==> !c'.continuePending)
    && (Tryless(node) && !c.breakPending && !c.continuePending ==> !Both(c'))
  }

  predicate Both<S>(c: Context<S>) {
    c.breakPending && c.continuePending
  }

  /** The same for a body that may be missing. */
  ghost predicate OptionalKept<S>(body: Option<Node>, c: Context<S>, c': Context<S>) {
    if body.None? then c' == c else FlagsKept(body.value, c, c')
  }

  /** What a loop does to the loop flags, whatever its body: without a round nothing; otherwise it takes down
      the break, and lets a continue out exactly when its last round left a break pending beside it. */
  predicate LoopFlags<S>(c: Context<S>, l: LoopRun<S>) {
    if l.last.None? then l.ctx.breakPending == c.breakPending && l.ctx.continuePending == c.continuePending
    else !l.ctx.breakPending && (l.ctx.continuePending <==> Both(l.last.value))
  }

  predicate LoopStarts<S>(c: Context<S>, last: Option<Context<S>>) {
    last.Some? ==> !c.breakPending && !c.continuePending && !last.value.breakPending
  }

  /** The last round of a loop was a round of its body. */
  ghost predicate IsRound<S(!new)>(env: Env<S>, body: Node, last: Option<Context<S>>)
    requires Sound(env)
  {
    last.Some? ==> exists c :: Ready(c) && last.value == BodyF(env, body, c)
  }

  lemma RoundIs<S(!new)>(env: Env<S>, body: Node, c: Context<S>)
    requires Sound(env) && Ready(c)
    ensures IsRound(env, body, Some(BodyF(env, body, c)))
  {
    hide Sound, BodyF;
  }

  lemma {:induction false} WhileFlags<S(!new)>(env: Env<S>, node: Node, c: Context<S>, last: Option<Context<S>>)
    requires Sound(env) && Ready(c) && node.While? && LoopStarts(c, last) && IsRound(env, node.body, last)
    ensures var l := WhileF(env, node, c, last);
            && IsRound(env, node.body, l.last) && (last.Some? ==> l.last.Some?) && LoopFlags(c, l)
    decreases MAX_LOOP_ITERATIONS - c.loopIterations
  {
    hide Sound, RangeNodeF, BodyF, IsRound;
    if c.loopIterations < MAX_LOOP_ITERATIONS {
      var cond := RangeNodeF(env, node.cond, OneMore(c));
      if Truthy(cond.value) {
        var b := BodyF(env, node.body, cond.ctx);
        var x := TakenDown(b);
        RoundIs(env, node.body, cond.ctx);
        if ExitOf(b).Skipped? {
          WhileFlags(env, node, x, Some(b));
        } else if ExitOf(b).Ended? && !Leaving(env, x) {
          WhileFlags(env, node, Polled(x), Some(b));
        }
      }
    }
  }

  lemma {:induction false} DoWhileFlags<S(!new)>(env: Env<S>, node: Node, c: Context<S>, last: Option<Context<S>>)
    requires Sound(env) && Ready(c) && node.DoWhile? && LoopStarts(c, last) && IsRound(env, node.body, last)
    ensures var l := DoWhileF(env, node, c, last);
            && IsRound(env, node.body, l.last) && (last.Some? ==> l.last.Some?) && LoopFlags(c, l)
    decreases MAX_LOOP_ITERATIONS - c.loopIterations
  {
    hide Sound, RangeNodeF, ForCondF, BindF, BodyF, IsRound;
    if c.loopIterations < MAX_LOOP_ITERATIONS {
      var c1 := OneMore(c);
      var b := BodyF(env, node.body, c1);
      var x := TakenDown(b);
      RoundIs(env, node.body, c1);
      if !ExitOf(b).Left? && !Leaving(env, x) {
        var cond := RangeNodeF(env, node.cond, Polled(x));
        if Truthy(cond.value) {
          DoWhileFlags(env, node, cond.ctx, Some(b));
        }
      }
    }
  }

  lemma {:induction false} ForLoopFlags<S(!new)>(env: Env<S>, node: Node, c: Context<S>, last: Option<Context<S>>)
    requires Sound(env) && Ready(c) && node.For? && LoopStarts(c, last) && IsRound(env, node.body, last)
    ensures var l := ForLoopF(env, node, c, last);
            && IsRound(env, node.body, l.last) && (last.Some? ==> l.last.Some?) && LoopFlags(c, l)
    decreases MAX_LOOP_ITERATIONS - c.loopIterations
  {
    hide Sound, RangeNodeF, ForCondF, BindF, BodyF, IsRound;
    if c.loopIterations < MAX_LOOP_ITERATIONS {
      var cond := ForCondF(env, node.cond, OneMore(c));
      if Truthy(cond.value) {
        var b := BodyF(env, node.body, cond.ctx);
        var x := TakenDown(b);
        RoundIs(env, node.body, cond.ctx);
        if !ExitOf(b).Left? && !Leaving(env, x) {
          ForLoopFlags(env, node, RangeNodeF(env, node.increment, Polled(x)).ctx, Some(b));
        }
      }
    }
  }

  lemma {:induction false} ElementsFlags<S(!new)>(env: Env<S>, node: Node, coll: Val, kind: Iteration, idx: nat,
                                                  c: Context<S>, last: Option<Context<S>>)
    requires Sound(env) && Ready(c) && node.ForIn? && LoopStarts(c, last) && IsRound(env, node.body, last)
    ensures var l := ElementsF(env, node, coll, kind, idx, c, last);
            && IsRound(env, node.body, l.last) && (last.Some? ==> l.last.Some?) && LoopFlags(c, l)
    decreases MAX_LOOP_ITERATIONS - c.loopIterations, 0
  {
    hide Sound, BindF, ElementF, IsRound;
    if HasElement(kind, idx) && c.loopIterations < MAX_LOOP_ITERATIONS {
      var bound := BindF(env, node.variable, coll, kind, idx, OneMore(c));
      if bound.found {
        ElementFlags(env, node, coll, kind, idx, bound.ctx);
      }
    }
  }

  lemma {:induction false} ElementFlags<S(!new)>(env: Env<S>, node: Node, coll: Val, kind: Iteration, idx: nat,
                                                 c: Context<S>)
    requires Sound(env) && Ready(c) && node.ForIn?
    ensures var l := ElementF(env, node, coll, kind, idx, c);
            IsRound(env, node.body, l.last) && l.last.Some? && LoopFlags(c, l)
    decreases MAX_LOOP_ITERATIONS - c.loopIterations, 1
  {
    hide Sound, ElementsF, BodyF, IsRound, HasElement, OneMore, Failed, Leaving;
    var b := BodyF(env, node.body, c);
    var x := TakenDown(b);
    RoundIs(env, node.body, c);
    if ExitOf(b).Skipped? {
      ElementsFlags(env, node, coll, kind, idx + 1, x, Some(b));
    } else if ExitOf(b).Ended? && !Leaving(env, x) {
      ElementsFlags(env, node, coll, kind, idx + 1, Polled(x), Some(b));
    }
  }

  predicate IsLoop(node: Node) {
    node.While? || node.DoWhile? || node.For? || node.ForIn?
  }

  ghost function LoopF<S(!new)>(env: Env<S>, node: Node, c: Context<S>): (l: LoopRun<S>)
    requires Sound(env) && Ready(c) && IsLoop(node)
    ensures Balanced(c, l.ctx)
  {
    hide Sound;
    match node
    case While(_, _) => WhileF(env, node, c, None)
    case DoWhile(_, _) => DoWhileF(env, node, c, None)
    case For(_, _, _, _) => ForF(env, node, c)
    case ForIn(_, _, _) => ForInF(env, node, c)
  }

  /** A loop of any kind lets no break out, and lets a continue out exactly when the break that ended its last
      round left that continue pending. */
  lemma LoopLetsOutIff<S(!new)>(env: Env<S>, node: Node, c: Context<S>)
    requires Sound(env) && Ready(c) && IsLoop(node)
    ensures IsRound(env, node.body, LoopF(env, node, c).last) && LoopFlags(c, LoopF(env, node, c))
  {
    hide Sound, WhileF, DoWhileF, ForLoopF, ElementsF, LeafF, BeginF, RangeNodeF;
    match node
    case While(_, _) => WhileFlags(env, node, c, None);
    case DoWhile(_, _) => DoWhileFlags(env, node, c, None);
    case For(_, _, _, _) => ForLoopFlags(env, node, RangeNodeF(env, node.init, c).ctx, None);
    case ForIn(_, _, _) =>
      var coll := LeafF(env, node.collection, c);
      var b := BeginF(env, coll.value, coll.ctx);
      ElementsFlags(env, node, coll.value, b.kind, 0, b.ctx, None);
  }

  // ---- Every tree ----

  /** No break escapes a break-free node, no continue a continue-free one, and without a try statement the two
      are never pending together. */
  lemma {:induction false} KindFlags<S(!new)>(env: Env<S>, node: Node, c: Context<S>)
    requires Sound(env) && Ready(c)
    ensures FlagsKept(node, c, EvalKind(env, node, c).ctx)
    decreases node, 2, 0
  {
    hide Sound, Eval, IfF, BlockF, LogicalF, TernaryF, SwitchF, TryF, ThrowF, PoolF, LeafF, WhileF, DoWhileF, ForF,
      ForInF;
    match node
    case If(_, _, _) => IfFlags(env, node, c);
    case While(_, _) => BodyFlags(env, node, c);
    case DoWhile(_, _) => BodyFlags(env, node, c);
    case For(_, _, _, _) => BodyFlags(env, node, c);
    case ForIn(_, _, _) => BodyFlags(env, node, c);
    case Block(_) => BlockFlags(env, node, 0, Void, c);
    case Switch(_, _, _) => SwitchFlags(env, node, c);
    case Try(_, _, _, _) => TryFlags(env, node, c);
    case Pool(_) => PoolFlags(env, node, c);
    case _ =>
  }

  lemma {:induction false} NodeFlags<S(!new)>(env: Env<S>, node: Node, c: Context<S>)
    requires Sound(env) && Ready(c)
    ensures FlagsKept(node, c, Eval(env, node, c).ctx)
    decreases node, 3, 0
  {
    hide Sound, EvalKind, BreakFree, ContinueFree, Tryless;
    if c.evalDepth < MAX_EVAL_DEPTH {
      KindFlags(env, node, Deeper(c));
    }
  }

  lemma {:induction false} OptionalFlags<S(!new)>(env: Env<S>, body: Option<Node>, c: Context<S>)
    requires Sound(env) && Ready(c)
    ensures OptionalKept(body, c, OptionalF(env, body, c))
    decreases body, 4, 0
  {
    hide Sound, Eval, FlagsKept;
    if body.Some? {
      NodeFlags(env, body.value, c);
    }
  }

  lemma {:induction false} IfFlags<S(!new)>(env: Env<S>, node: Node, c: Context<S>)
    requires Sound(env) && Ready(c) && node.If?
    ensures FlagsKept(node, c, IfF(env, node, c).ctx)
    decreases node, 1, 0
  {
    hide Sound, Eval, RangeNodeF;
    var cond := RangeNodeF(env, node.cond, c);
    if Truthy(cond.value) {
      NodeFlags(env, node.thn, cond.ctx);
    } else if node.els.Some? {
      NodeFlags(env, node.els.value, cond.ctx);
    }
  }

  lemma {:induction false} BlockFlags<S(!new)>(env: Env<S>, node: Node, i: nat, last: Val, c: Context<S>)
    requires Sound(env) && Ready(c) && node.Block? && i <= |node.children|
    ensures FlagsKept(node, c, BlockF(env, node, i, last, c).ctx)
    decreases node, 1, |node.children| - i
  {
    hide Sound, Eval;
    if i < |node.children| {
      var e := Eval(env, node.children[i], c);
      NodeFlags(env, node.children[i], c);
      if !(e.ctx.returnPending || e.ctx.breakPending || e.ctx.continuePending || e.ctx.errorCode != OK) {
        BlockFlags(env, node, i + 1, e.value, e.ctx);
      }
    }
  }

  /** A loop clears every continue of a body that cannot leave a break beside it. */
  lemma {:induction false} BodyFlags<S(!new)>(env: Env<S>, node: Node, c: Context<S>)
    requires Sound(env) && Ready(c) && IsLoop(node)
    ensures FlagsKept(node, c, LoopF(env, node, c).ctx)
    decreases node, 1, 0
  {
    LoopLetsOutIff(env, node, c);
    hide Sound, LoopF, Eval;
    var l := LoopF(env, node, c);
    if l.last.Some? {
      var c0: Context<S> :| Ready(c0) && l.last.value == BodyF(env, node.body, c0);
      NodeFlags(env, node.body, c0.(breakPending := false, continuePending := false));
    }
  }

  lemma {:induction false} SwitchFlags<S(!new)>(env: Env<S>, node: Node, c: Context<S>)
    requires Sound(env) && Ready(c) && node.Switch?
    ensures FlagsKept(node, c, SwitchF(env, node, c).ctx)
    decreases node, 1, |node.cases| + 1
  {
    hide Sound, CasesF, FallbackF, LeafF;
    var s := LeafF(env, node.scrutinee, c);
    var matched := MatchedCase(s.value, node.cases, 0);
    if matched < |node.cases| {
      CasesFlags(env, node, matched, s.ctx);
    } else {
      FallbackFlags(env, node, s.ctx);
    }
  }

  lemma {:induction false} CasesFlags<S(!new)>(env: Env<S>, node: Node, i: nat, c: Context<S>)
    requires Sound(env) && Ready(c) && node.Switch? && i <= |node.cases|
    ensures FlagsKept(node, c, CasesF(env, node, i, c))
    decreases node, 1, |node.cases| - i
  {
    hide Sound, Eval, FallbackF;
    if i < |node.cases| {
      var c1 := c.(breakPending := false);
      NodeFlags(env, node.cases[i].body, c1);
      var b := Eval(env, node.cases[i].body, c1).ctx;
      if !b.breakPending && !Unwinding(b) {
        CasesFlags(env, node, i + 1, b);
      }
    } else {
      FallbackFlags(env, node, c);
    }
  }

  lemma {:induction false} FallbackFlags<S(!new)>(env: Env<S>, node: Node, c: Context<S>)
    requires Sound(env) && Ready(c) && node.Switch?
    ensures FlagsKept(node, c, FallbackF(env, node, c))
    decreases node, 0, 0
  {
    hide Sound, Eval;
    if node.fallback.Some? {
      NodeFlags(env, node.fallback.value, c.(breakPending := false));
    }
  }

  lemma {:induction false} TryFlags<S(!new)>(env: Env<S>, node: Node, c: Context<S>)
    requires Sound(env) && Ready(c) && node.Try?
    ensures FlagsKept(node, c, TryF(env, node, c))
    decreases node, 1, 0
  {
    hide Sound, OptionalF, BindCatchF;
    if c.tryDepth < MAX_TRY_DEPTH {
      var c1 := c.(tryDepth := c.tryDepth + 1, exceptionPending := false);
      OptionalFlags(env, node.tryBody, c1);
      var t := OptionalF(env, node.tryBody, c1);
      if t.exceptionPending && node.catchBody.Some? {
        OptionalFlags(env, node.catchBody, BindCatchF(env, node.catchVar, t).(exceptionPending := false));
      }
      OptionalFlags(env, node.finallyBody, CaughtF(env, node, c));
    }
  }

  lemma {:induction false} PoolFlags<S(!new)>(env: Env<S>, node: Node, c: Context<S>)
    requires Sound(env) && Ready(c) && node.Pool?
    ensures FlagsKept(node, c, PoolF(env, node, c))
    decreases node, 1, 0
  {
    hide Sound, OptionalF;
    if c.poolDepth < MAX_POOL_DEPTH {
      OptionalFlags(env, node.poolBody, c.(poolDepth := c.poolDepth + 1));
    }
  }

  // ---- A continue that escapes ----

  /** A break in the body and a continue in the finally part are left pending together. */
  lemma TryLeavesBoth<S(!new)>(env: Env<S>, c: Context<S>)
    requires Sound(env) && Ready(c) && c.evalDepth + 1 < MAX_EVAL_DEPTH && c.tryDepth < MAX_TRY_DEPTH
    ensures Eval(env, Try(Some(Break), "", None, Some(Continue)), c).ctx
         == c.(breakPending := true, continuePending := true, exceptionPending := false, currentException := Void)
  {
    hide Sound, Eval;
    var node := Try(Some(Break), "", None, Some(Continue));
    var c1 := Deeper(c);
    var c2 := c1.(tryDepth := c1.tryDepth + 1, exceptionPending := false);
    var c3 := c2.(breakPending := true);
    FlagNodes(env, c2);
    assert CaughtF(env, node, c1) == c3;
    FlagNodes(env, c3);
    assert TryF(env, node, c1) == LeaveTryF(c3.(continuePending := true));
    TryDeeper(env, node, c);
  }

  /** What break and continue statements do. */
  lemma FlagNodes<S(!new)>(env: Env<S>, c: Context<S>)
    requires Sound(env) && Ready(c) && c.evalDepth < MAX_EVAL_DEPTH
    ensures Eval(env, Continue, c).ctx == c.(continuePending := true)
    ensures Eval(env, Break, c).ctx == c.(breakPending := true)
  {
    hide Sound;
  }

  lemma TryDeeper<S(!new)>(env: Env<S>, node: Node, c: Context<S>)
    requires Sound(env) && Ready(c) && c.evalDepth < MAX_EVAL_DEPTH && node.Try?
    ensures Eval(env, node, c).ctx == TryF(env, node, Deeper(c)).(evalDepth := c.evalDepth)
  {
    hide Sound, TryF;
  }

  /** A first round that ends on a break ends the loop in its context, the break taken down. */
  lemma LeftInFirstRound<S(!new)>(env: Env<S>, node: Node, c: Context<S>, b: Context<S>)
    requires Sound(env) && c.loopIterations < MAX_LOOP_ITERATIONS && node.While?
    requires var cond := RangeNodeF(env, node.cond, OneMore(c));
             Truthy(cond.value) && b == BodyF(env, node.body, cond.ctx) && b.breakPending
    ensures WhileF(env, node, c, None).ctx == b.(breakPending := false)
  {
    hide Sound, RangeNodeF, BodyF;
  }

  /** while (r) { @try { break; } @finally { continue; } } ends with the continue pending. */
  lemma ContinueEscapes<S(!new)>(env: Env<S>, r: Range, c: Context<S>)
    requires Sound(env) && c.loopIterations < MAX_LOOP_ITERATIONS
    requires c.evalDepth + 3 < MAX_EVAL_DEPTH && c.tryDepth < MAX_TRY_DEPTH
    requires Truthy(RangeNodeF(env, r, OneMore(Deeper(c))).value)
    ensures var e := Eval(env, While(r, Try(Some(Break), "", None, Some(Continue))), c);
            e.ctx.continuePending && !e.ctx.breakPending
  {
    hide Sound, RangeNodeF, WhileF, Eval, EvalKind;
    var body := Try(Some(Break), "", None, Some(Continue));
    var c1 := Deeper(c);
    var cond := RangeNodeF(env, r, OneMore(c1)).ctx;
    TryLeavesBoth(env, cond.(breakPending := false, continuePending := false));
    assert Both(BodyF(env, body, cond));
    hide BodyF;
    LeftInFirstRound(env, While(r, body), c1, BodyF(env, body, cond));
    WhileDeeper(env, r, body, c);
  }

  lemma WhileDeeper<S(!new)>(env: Env<S>, r: Range, body: Node, c: Context<S>)
    requires Sound(env) && Ready(c) && c.evalDepth < MAX_EVAL_DEPTH
    ensures Eval(env, While(r, body), c).ctx
         == WhileF(env, While(r, body), Deeper(c), None).ctx.(evalDepth := c.evalDepth)
  {
    hide Sound, WhileF;
  }

  /** What follows such a loop in a block is skipped, whatever it is. */
  lemma RestSkipped<S(!new)>(env: Env<S>, inner: Node, rest: Node, c: Context<S>)
    requires Sound(env) && Ready(c) && c.evalDepth < MAX_EVAL_DEPTH
    requires Eval(env, inner, Deeper(c)).ctx.continuePending
    ensures Eval(env, Block([inner, rest]), c) == Eval(env, Block([inner]), c)
  {
    hide Sound;
    var c1 := Deeper(c);
    var e := Eval(env, inner, c1);
    assert BlockF(env, Block([inner, rest]), 0, Void, c1) == e;
    assert BlockF(env, Block([inner]), 0, Void, c1) == e;
  }

  /** A case that ends on a continue leaves the switch, whatever the bodies behind it are, exactly when nothing is
      behind it: no other case and no default. */
  lemma ContinueLeavesSwitchIff<S(!new)>(env: Env<S>, r: Range, cases: seq<Case>, fallback: Option<Node>, i: nat,
                                         c: Context<S>)
    requires Sound(env) && Ready(c) && c.evalDepth < MAX_EVAL_DEPTH && i < |cases|
    requires var b := Eval(env, cases[i].body, c.(breakPending := false)).ctx;
             b.continuePending && !b.breakPending && !Unwinding(b)
    ensures IsLast(cases, fallback, i) <==>
              forall behind: seq<Case>, other: Option<Node> ::
                |behind| == |cases| - i - 1 && (other.Some? <==> fallback.Some?) ==>
                  LeavesSwitch(env, Switch(r, cases[..i + 1] + behind, other), i, c)
  {
    hide Sound, Eval, CasesF;
    var b := Eval(env, cases[i].body, c.(breakPending := false)).ctx;
    if IsLast(cases, fallback, i) {
      forall behind: seq<Case>, other: Option<Node> | |behind| == |cases| - i - 1 && (other.Some? <==> fallback.Some?)
        ensures LeavesSwitch(env, Switch(r, cases[..i + 1] + behind, other), i, c)
      {
        var node := Switch(r, cases[..i + 1] + behind, other);
        GoesOn(env, node, i, c);
        NothingBehind(env, node, i, b);
      }
    } else {
      var behind := seq(|cases| - i - 1, _ => Case(0, Return(r)));
      var other := if fallback.Some? then Some(Return(r)) else None;
      var node := Switch(r, cases[..i + 1] + behind, other);
      GoesOn(env, node, i, c);
      ReturnBehind(env, r, node, i, b);
      assert |behind| == |cases| - i - 1 && (other.Some? <==> fallback.Some?);
      assert !LeavesSwitch(env, Switch(r, cases[..i + 1] + behind, other), i, c);
    }
  }

  /** From its i-th case on, the switch ends in the context in which that case ends. */
  ghost predicate LeavesSwitch<S(!new)>(env: Env<S>, node: Node, i: nat, c: Context<S>)
    requires Sound(env) && Ready(c) && node.Switch? && i < |node.cases|
  {
    CasesF(env, node, i, c) == Eval(env, node.cases[i].body, c.(breakPending := false)).ctx
  }

  lemma GoesOn<S(!new)>(env: Env<S>, node: Node, i: nat, c: Context<S>)
    requires Sound(env) && Ready(c) && node.Switch? && i < |node.cases|
    requires var b := Eval(env, node.cases[i].body, c.(breakPending := false)).ctx; !b.breakPending && !Unwinding(b)
    ensures CasesF(env, node, i, c)
         == CasesF(env, node, i + 1, Eval(env, node.cases[i].body, c.(breakPending := false)).ctx)
  {
    hide Sound, Eval;
  }

  /** A return statement next behind the i-th case is evaluated. */
  lemma ReturnBehind<S(!new)>(env: Env<S>, r: Range, node: Node, i: nat, b: Context<S>)
    requires Sound(env) && Ready(b) && b.evalDepth < MAX_EVAL_DEPTH && !b.breakPending && node.Switch?
    requires i < |node.cases| && !IsLast(node.cases, node.fallback, i)
    requires if i + 1 < |node.cases| then node.cases[i + 1].body == Return(r) else node.fallback == Some(Return(r))
    ensures CasesF(env, node, i + 1, b).returnPending
  {
    ReturnSets(env, Return(r), b);
    hide Sound, Eval;
    assert b.(breakPending := false) == b;
  }

  lemma ReturnSets<S(!new)>(env: Env<S>, node: Node, c: Context<S>)
    requires Sound(env) && Ready(c) && c.evalDepth < MAX_EVAL_DEPTH && node.Return?
    ensures var x := Eval(env, node, c).ctx; x.returnPending && x.breakPending == c.breakPending
  {
    hide Sound, LeafF, IfF, BlockF, WhileF, DoWhileF, ForF, ForInF, SwitchF, LogicalF, TernaryF, TryF, ThrowF, PoolF;
  }

  /** A continue in a case stays pending while the next case runs: in the second case the break is taken, and
      the switch ends with the continue still pending. */
  lemma ContinueFallsThrough<S(!new)>(env: Env<S>, r: Range, v: int, w: int, c: Context<S>)
    requires Sound(env) && Ready(c) && c.evalDepth + 1 < MAX_EVAL_DEPTH && c.errorCode == OK
    requires !c.returnPending && !c.exceptionPending
    requires env.leaf(r, Deeper(c)) == Evaluated(Deeper(c), Int(v))
    ensures Eval(env, Switch(r, [Case(v, Continue), Case(w, Break)], None), c).ctx
         == c.(breakPending := false, continuePending := true)
  {
    hide Sound, CasesF, WhileF, DoWhileF, ForF, ForInF, BlockF;
    var node := Switch(r, [Case(v, Continue), Case(w, Break)], None);
    var c1 := Deeper(c);
    FallingCases(env, node, c1);
    assert SwitchF(env, node, c1) == Evaluated(CasesF(env, node, 0, c1), Void);
  }

  lemma FallingCases<S(!new)>(env: Env<S>, node: Node, c: Context<S>)
    requires Sound(env) && Ready(c) && c.evalDepth < MAX_EVAL_DEPTH && !c.returnPending && !c.exceptionPending
    requires node.Switch? && |node.cases| == 2 && node.cases[0].body == Continue && node.cases[1].body == Break
    requires node.fallback == None
    ensures CasesF(env, node, 0, c) == c.(breakPending := false, continuePending := true)
  {
    FlagNodes(env, c.(breakPending := false));
    FlagNodes(env, c.(breakPending := false, continuePending := true));
    hide Sound, Eval;
    assert CasesF(env, node, 1, c.(breakPending := false, continuePending := true))
        == c.(breakPending := false, continuePending := true);
  }
}
