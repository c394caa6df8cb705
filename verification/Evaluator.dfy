/** The evaluator of control-flow trees: one recursive method that talks to itself through pending
    flags and depth counters in the shared context. */
module Evaluator {
  import opened Options
  import opened Ast
  import opened FlagMachine

  class Interpreter<S(!new)> {
    var ctx: Context<S>
    const env: Env<S>

    constructor (env: Env<S>, ctx: Context<S>)
      ensures this.env == env && this.ctx == ctx
    {
      this.env, this.ctx := env, ctx;
    }

    method Fail(code: nat)
      modifies this
      ensures ctx == Failed(old(ctx), code)
    {
      ctx := ctx.(errorCode := code);
    }

    method EvalRange(r: Range) returns (v: Val)
      requires Sound(env) && Ready(ctx)
      modifies this
      ensures Evaluated(ctx, v) == LeafF(env, r, old(ctx))
    {
      var e := env.leaf(r, ctx);
      ctx := e.ctx;
      v := e.value;
    }

    /** Evaluate a condition, initialiser or increment: a node of its own, one level deeper. */
    method EvalRangeNode(r: Range) returns (v: Val)
      requires Sound(env) && Ready(ctx)
      modifies this
      ensures Evaluated(ctx, v) == RangeNodeF(env, r, old(ctx))
    {
      hide Sound, LeafF;
      if ctx.evalDepth >= MAX_EVAL_DEPTH {
        Fail(RESOURCE_ERROR);
        return Void;
      }
      ctx := ctx.(evalDepth := ctx.evalDepth + 1);
      v := EvalRange(r);
      ctx := ctx.(evalDepth := ctx.evalDepth - 1);
    }

    /** Count one more loop iteration; true when the budget is used up. */
    method LoopIterCheck() returns (exceeded: bool)
      requires Ready(ctx)
      modifies this
      ensures exceeded <==> old(ctx).loopIterations == MAX_LOOP_ITERATIONS
      ensures ctx == if exceeded then Failed(old(ctx), RESOURCE_ERROR) else OneMore(old(ctx))
    {
      if ctx.loopIterations >= MAX_LOOP_ITERATIONS {
        Fail(RESOURCE_ERROR);
        return true;
      }
      ctx := ctx.(loopIterations := ctx.loopIterations + 1);
      exceeded := false;
    }

    /** Whether a loop must be left for a return, an exception or an interrupt of the host. */
    method Unwind() returns (stop: bool)
      modifies this
      ensures stop == Leaving(env, old(ctx)) && ctx == Polled(old(ctx))
    {
      if ctx.returnPending || ctx.exceptionPending {
        return true;
      }
      stop := env.interrupt(ctx.polls);
      ctx := ctx.(polls := ctx.polls + 1);
    }

    /** Evaluate a node, one level deeper. */
    method EvalAst(node: Node) returns (last: Val)
      requires Sound(env) && Ready(ctx)
      modifies this
      ensures Evaluated(ctx, last) == Eval(env, node, old(ctx))
      decreases node, 4
    {
      hide Sound, EvalKind, IfF, BlockF, WhileF, DoWhileF, ForF, ForLoopF, ForInF, ElementsF, SwitchF, CasesF,
        FallbackF, LogicalF, TernaryF, RangeNodeF, ForCondF, LeafF, BindF, BodyF, TryF, CaughtF, ThrowF, PoolF,
        OptionalF;
      last := Void;
      if ctx.evalDepth >= MAX_EVAL_DEPTH {
        Fail(RESOURCE_ERROR);
        return;
      }
      ctx := ctx.(evalDepth := ctx.evalDepth + 1);
      last := EvalNode(node);
      ctx := ctx.(evalDepth := ctx.evalDepth - 1);
    }

    /** Evaluate a node by its kind, its level already counted. */
    method EvalNode(node: Node) returns (last: Val)
      requires Sound(env) && Ready(ctx)
      modifies this
      ensures Evaluated(ctx, last) == EvalKind(env, node, old(ctx))
      decreases node, 3
    {
      hide Sound, Eval, IfF, BlockF, WhileF, DoWhileF, ForF, ForLoopF, ForInF, ElementsF, SwitchF, CasesF, FallbackF,
        LogicalF, TernaryF, RangeNodeF, ForCondF, LeafF, BindF, BodyF, TryF, CaughtF, ThrowF, PoolF, OptionalF;
      last := Void;
      match node {
        case If(_, _, _) => last := EvalIf(node);
        case While(_, _) => EvalWhile(node);
        case DoWhile(_, _) => EvalDoWhile(node);
        case For(_, _, _, _) => EvalFor(node);
        case ForIn(_, _, _) => EvalForIn(node);
        case Block(_) => last := EvalBlock(node);
        case Statement(r) => last := EvalRange(r);
        case And(_, _) => last := EvalLogical(node);
        case Or(_, _) => last := EvalLogical(node);
        case Ternary(_, _, _) => last := EvalTernary(node);
        case Return(r) =>
          last := EvalRange(r);
          ctx := ctx.(returnPending := true);
        case Break => ctx := ctx.(breakPending := true);
        case Continue => ctx := ctx.(continuePending := true);
        case Noop =>
        case Switch(_, _, _) => last := EvalSwitch(node);
        case Try(_, _, _, _) => EvalTry(node);
        case Throw(thrown) => EvalThrow(thrown);
        case Pool(_) => EvalPool(node);
      }
    }

    /** Evaluate a body that may be missing. */
    method EvalOptional(body: Option<Node>)
      requires Sound(env) && Ready(ctx)
      modifies this
      ensures ctx == OptionalF(env, body, old(ctx))
      decreases body, 5
    {
      hide Sound, Eval, EvalKind, IfF, BlockF, WhileF, DoWhileF, ForF, ForLoopF, ForInF, ElementsF, SwitchF, CasesF,
        FallbackF, LogicalF, TernaryF, RangeNodeF, ForCondF, LeafF, BindF, BodyF, TryF, CaughtF, ThrowF, PoolF;
      if body.Some? {
        var v := EvalAst(body.value);
      }
    }

    method EvalIf(node: Node) returns (last: Val)
      requires Sound(env) && Ready(ctx) && node.If?
      modifies this
      ensures Evaluated(ctx, last) == IfF(env, node, old(ctx))
      decreases node, 1
    {
      hide Sound, Eval, EvalKind, BlockF, WhileF, DoWhileF, ForF, ForLoopF, ForInF, ElementsF, SwitchF, CasesF,
        FallbackF, LogicalF, TernaryF, RangeNodeF, ForCondF, LeafF, BindF, BodyF, TryF, CaughtF, ThrowF, PoolF,
        OptionalF;
      last := Void;
      var cond := EvalRangeNode(node.cond);
      if Truthy(cond) {
        last := EvalAst(node.thn);
      } else if node.els.Some? {
        last := EvalAst(node.els.value);
      }
    }

    /** && and ||: the right side is evaluated only when the left one leaves it open. */
    method EvalLogical(node: Node) returns (last: Val)
      requires Sound(env) && Ready(ctx) && (node.And? || node.Or?)
      modifies this
      ensures Evaluated(ctx, last) == LogicalF(env, node, old(ctx))
    {
      hide Sound, LeafF;
      var l := EvalRange(node.left);
      if node.And? {
        if !Truthy(l) {
          return Int(0);
        }
      } else if Truthy(l) {
        return Int(1);
      }
      var r := EvalRange(node.right);
      last := Int(if Truthy(r) then 1 else 0);
    }

    method EvalTernary(node: Node) returns (last: Val)
      requires Sound(env) && Ready(ctx) && node.Ternary?
      modifies this
      ensures Evaluated(ctx, last) == TernaryF(env, node, old(ctx))
    {
      hide Sound, LeafF;
      var cond := EvalRange(node.cond);
      if Truthy(cond) {
        last := EvalRange(node.yes);
      } else {
        last := EvalRange(node.no);
      }
    }

    method EvalBlock(node: Node) returns (last: Val)
      requires Sound(env) && Ready(ctx) && node.Block?
      modifies this
      ensures Evaluated(ctx, last) == BlockF(env, node, 0, Void, old(ctx))
      decreases node, 1
    {
      hide Sound, Eval, EvalKind, IfF, WhileF, DoWhileF, ForF, ForLoopF, ForInF, ElementsF, SwitchF, CasesF,
        FallbackF, LogicalF, TernaryF, RangeNodeF, ForCondF, LeafF, BindF, BodyF, TryF, CaughtF, ThrowF, PoolF,
        OptionalF;
      ghost var whole := BlockF(env, node, 0, Void, ctx);
      last := Void;
      for i := 0 to |node.children|
        invariant Ready(ctx) && BlockF(env, node, i, last, ctx) == whole
      {
        last := EvalAst(node.children[i]);
        if ctx.returnPending || ctx.breakPending || ctx.continuePending {
          return;
        }
        if ctx.errorCode != OK {
          return;
        }
      }
    }

    /** One round of a loop body: clear the flags, evaluate, take down a break or continue. */
    method EvalBody(body: Node) returns (exit: Exit)
      requires Sound(env) && Ready(ctx)
      modifies this
      ensures var b := BodyF(env, body, old(ctx)); ctx == TakenDown(b) && exit == ExitOf(b)
      decreases body, 5
    {
      hide Sound, Eval, EvalKind, IfF, BlockF, WhileF, DoWhileF, ForF, ForLoopF, ForInF, ElementsF, SwitchF, CasesF,
        FallbackF, LogicalF, TernaryF, RangeNodeF, ForCondF, LeafF, BindF, TryF, CaughtF, ThrowF, PoolF, OptionalF;
      ctx := ctx.(breakPending := false);
      ctx := ctx.(continuePending := false);
      var v := EvalAst(body);
      exit := Ended;
      if ctx.breakPending {
        ctx := ctx.(breakPending := false);
        exit := Left;
      } else if ctx.continuePending {
        ctx := ctx.(continuePending := false);
        exit := Skipped;
      }
    }

    method EvalWhile(node: Node)
      requires Sound(env) && Ready(ctx) && node.While?
      modifies this
      ensures ctx == WhileF(env, node, old(ctx), None).ctx
      decreases node, 1
    {
      hide Sound, Eval, EvalKind, IfF, BlockF, DoWhileF, ForF, ForLoopF, ForInF, ElementsF, SwitchF, CasesF,
        FallbackF, LogicalF, TernaryF, RangeNodeF, ForCondF, LeafF, BindF, BodyF, TryF, CaughtF, ThrowF, PoolF,
        OptionalF;
      ghost var whole := WhileF(env, node, ctx, None).ctx;
      ghost var last: Option<Context<S>> := None;
      while true
        invariant Ready(ctx) && WhileF(env, node, ctx, last).ctx == whole
        decreases MAX_LOOP_ITERATIONS - ctx.loopIterations
      {
        var exceeded := LoopIterCheck();
        if exceeded {
          return;
        }
        var cond := EvalRangeNode(node.cond);
        if !Truthy(cond) {
          return;
        }
        ghost var b := BodyF(env, node.body, ctx);
        var exit := EvalBody(node.body);
        last := Some(b);
        if exit.Left? {
          return;
        }
        if exit.Skipped? {
          continue;
        }
        var leaving := Unwind();
        if leaving {
          return;
        }
      }
    }

    method EvalDoWhile(node: Node)
      requires Sound(env) && Ready(ctx) && node.DoWhile?
      modifies this
      ensures ctx == DoWhileF(env, node, old(ctx), None).ctx
      decreases node, 1
    {
      hide Sound, Eval, EvalKind, IfF, BlockF, WhileF, ForF, ForLoopF, ForInF, ElementsF, SwitchF, CasesF, FallbackF,
        LogicalF, TernaryF, RangeNodeF, ForCondF, LeafF, BindF, BodyF, TryF, CaughtF, ThrowF, PoolF, OptionalF;
      ghost var whole := DoWhileF(env, node, ctx, None).ctx;
      ghost var last: Option<Context<S>> := None;
      while true
        invariant Ready(ctx) && DoWhileF(env, node, ctx, last).ctx == whole
        decreases MAX_LOOP_ITERATIONS - ctx.loopIterations
      {
        var exceeded := LoopIterCheck();
        if exceeded {
          return;
        }
        ghost var b := BodyF(env, node.body, ctx);
        var exit := EvalBody(node.body);
        last := Some(b);
        if exit.Left? {
          return;
        }
        var leaving := Unwind();
        if leaving {
          return;
        }
        var cond := EvalRangeNode(node.cond);
        if !Truthy(cond) {
          return;
        }
      }
    }

    /** The condition of a for loop; an empty one is true. */
    method EvalForCond(cond: Range) returns (more: bool)
      requires Sound(env) && Ready(ctx)
      modifies this
      ensures ctx == ForCondF(env, cond, old(ctx)).ctx && more == Truthy(ForCondF(env, cond, old(ctx)).value)
    {
      hide Sound, RangeNodeF;
      more := true;
      if cond.len > 0 {
        var c := EvalRangeNode(cond);
        more := Truthy(c);
      }
    }

    method EvalFor(node: Node)
      requires Sound(env) && Ready(ctx) && node.For?
      modifies this
      ensures ctx == ForF(env, node, old(ctx)).ctx
      decreases node, 2
    {
      hide Sound, Eval, EvalKind, IfF, BlockF, WhileF, DoWhileF, ForLoopF, ForInF, ElementsF, SwitchF, CasesF,
        FallbackF, LogicalF, TernaryF, RangeNodeF, ForCondF, LeafF, BindF, BodyF, TryF, CaughtF, ThrowF, PoolF,
        OptionalF;
      var v := EvalRangeNode(node.init);
      EvalForLoop(node);
    }

    method EvalForLoop(node: Node)
      requires Sound(env) && Ready(ctx) && node.For?
      modifies this
      ensures ctx == ForLoopF(env, node, old(ctx), None).ctx
      decreases node, 1
    {
      hide Sound, Eval, EvalKind, IfF, BlockF, WhileF, DoWhileF, ForF, ForInF, ElementsF, SwitchF, CasesF, FallbackF,
        LogicalF, TernaryF, RangeNodeF, ForCondF, LeafF, BindF, BodyF, TryF, CaughtF, ThrowF, PoolF, OptionalF;
      ghost var whole := ForLoopF(env, node, ctx, None).ctx;
      ghost var last: Option<Context<S>> := None;
      while true
        invariant Ready(ctx) && ForLoopF(env, node, ctx, last).ctx == whole
        decreases MAX_LOOP_ITERATIONS - ctx.loopIterations
      {
        var exceeded := LoopIterCheck();
        if exceeded {
          return;
        }
        var more := EvalForCond(node.cond);
        if !more {
          return;
        }
        ghost var b := BodyF(env, node.body, ctx);
        var exit := EvalBody(node.body);
        last := Some(b);
        if exit.Left? {
          return;
        }
        var leaving := Unwind();
        if leaving {
          return;
        }
        var v := EvalRangeNode(node.increment);
      }
    }

    /** Bind the loop variable to the next element, if there still is one. */
    method Bind(variable: string, coll: Val, kind: Iteration, idx: nat) returns (found: bool)
      requires Sound(env) && Ready(ctx)
      modifies this
      ensures Binding(found, ctx) == BindF(env, variable, coll, kind, idx, old(ctx))
    {
      hide Sound;
      var bound := env.bind(variable, coll, kind, idx, ctx);
      ctx := bound.ctx;
      found := bound.found;
    }

    /** Find out what to iterate over; another object than a collection or string is asked for its enumerator. */
    method BeginForIn(coll: Val) returns (kind: Iteration)
      requires Sound(env) && Ready(ctx)
      modifies this
      ensures Begun(kind, ctx) == BeginF(env, coll, old(ctx))
    {
      hide Sound;
      var begun := env.begin(coll, ctx);
      ctx := begun.ctx;
      kind := begun.kind;
    }

    /** for (x in collection) body: over a counted collection or string, or over an enumerator. */
    method EvalForIn(node: Node)
      requires Sound(env) && Ready(ctx) && node.ForIn?
      modifies this
      ensures ctx == ForInF(env, node, old(ctx)).ctx
      decreases node, 1
    {
      hide Sound, Eval, EvalKind, IfF, BlockF, WhileF, DoWhileF, ForF, ForLoopF, SwitchF, CasesF, FallbackF,
        LogicalF, TernaryF, RangeNodeF, ForCondF, LeafF, BindF, BeginF, BodyF, TryF, CaughtF, ThrowF, PoolF, OptionalF;
      var coll := EvalRange(node.collection);
      var kind := BeginForIn(coll);
      var idx := 0;
      ghost var whole := ElementsF(env, node, coll, kind, idx, ctx, None).ctx;
      ghost var last: Option<Context<S>> := None;
      while kind.Enumerated? || (kind.Counted? && idx < kind.count)
        invariant Ready(ctx) && ElementsF(env, node, coll, kind, idx, ctx, last).ctx == whole
        decreases MAX_LOOP_ITERATIONS - ctx.loopIterations
      {
        var exceeded := LoopIterCheck();
        if exceeded {
          return;
        }
        var found := Bind(node.variable, coll, kind, idx);
        if !found {
          return;
        }
        ghost var b := BodyF(env, node.body, ctx);
        var exit := EvalBody(node.body);
        last := Some(b);
        idx := idx + 1;
        if exit.Left? {
          return;
        }
        if exit.Skipped? {
          continue;
        }
        var leaving := Unwind();
        if leaving {
          return;
        }
      }
    }

    /** The index of the first case with the value of the scrutinee, or the number of cases. */
    static method FindCase(scrutinee: Val, cases: seq<Case>) returns (matched: nat)
      ensures matched == MatchedCase(scrutinee, cases, 0)
    {
      matched := 0;
      while matched < |cases|
        invariant 0 <= matched <= |cases|
        invariant MatchedCase(scrutinee, cases, matched) == MatchedCase(scrutinee, cases, 0)
      {
        if scrutinee.Int? && cases[matched].value == scrutinee.n {
          return;
        }
        matched := matched + 1;
      }
    }

    method EvalSwitch(node: Node) returns (last: Val)
      requires Sound(env) && Ready(ctx) && node.Switch?
      modifies this
      ensures Evaluated(ctx, last) == SwitchF(env, node, old(ctx))
      decreases node, 2
    {
      hide Sound, Eval, EvalKind, IfF, BlockF, WhileF, DoWhileF, ForF, ForLoopF, ForInF, ElementsF, CasesF,
        FallbackF, LogicalF, TernaryF, RangeNodeF, ForCondF, LeafF, BindF, BodyF, TryF, CaughtF, ThrowF, PoolF,
        OptionalF;
      last := Void;
      var scrutinee := EvalRange(node.scrutinee);
      if ctx.errorCode != OK {
        return scrutinee;
      }
      var matched := FindCase(scrutinee, node.cases);
      if matched < |node.cases| {
        EvalCases(node, matched);
      } else {
        EvalFallback(node);
      }
    }

    /** From the matched case on, one case falling into the next, until a break; then the default. */
    method EvalCases(node: Node, matched: nat)
      requires Sound(env) && Ready(ctx) && node.Switch? && matched < |node.cases|
      modifies this
      ensures ctx == CasesF(env, node, matched, old(ctx))
      decreases node, 1
    {
      hide Sound, Eval, EvalKind, IfF, BlockF, WhileF, DoWhileF, ForF, ForLoopF, ForInF, ElementsF, SwitchF,
        FallbackF, LogicalF, TernaryF, RangeNodeF, ForCondF, LeafF, BindF, BodyF, TryF, CaughtF, ThrowF, PoolF,
        OptionalF;
      ghost var whole := CasesF(env, node, matched, ctx);
      for ci := matched to |node.cases|
        invariant Ready(ctx) && CasesF(env, node, ci, ctx) == whole
      {
        ctx := ctx.(breakPending := false);
        var v := EvalAst(node.cases[ci].body);
        if ctx.breakPending {
          ctx := ctx.(breakPending := false);
          return;
        }
        if ctx.returnPending || ctx.exceptionPending {
          return;
        }
      }
      EvalFallback(node);
    }

    /** The default of a switch, if it has one; a break there leaves the switch. */
    method EvalFallback(node: Node)
      requires Sound(env) && Ready(ctx) && node.Switch?
      modifies this
      ensures ctx == FallbackF(env, node, old(ctx))
      decreases node, 0
    {
      hide Sound, Eval, EvalKind, IfF, BlockF, WhileF, DoWhileF, ForF, ForLoopF, ForInF, ElementsF, SwitchF, CasesF,
        LogicalF, TernaryF, RangeNodeF, ForCondF, LeafF, BindF, BodyF, TryF, CaughtF, ThrowF, PoolF, OptionalF;
      if node.fallback.Some? {
        ctx := ctx.(breakPending := false);
        var v := EvalAst(node.fallback.value);
        if ctx.breakPending {
          ctx := ctx.(breakPending := false);
        }
      }
    }

    method BindCatch(variable: string)
      requires Sound(env) && Ready(ctx)
      modifies this
      ensures ctx == BindCatchF(env, variable, old(ctx))
    {
      if variable != "" {
        ctx := env.bindCatch(variable, ctx);
      }
    }

    method EvalTry(node: Node)
      requires Sound(env) && Ready(ctx) && node.Try?
      modifies this
      ensures ctx == TryF(env, node, old(ctx))
      decreases node, 2
    {
      hide Sound, Eval, EvalKind, IfF, BlockF, WhileF, DoWhileF, ForF, ForLoopF, ForInF, ElementsF, SwitchF, CasesF,
        FallbackF, LogicalF, TernaryF, RangeNodeF, ForCondF, LeafF, BindF, BodyF, CaughtF, ThrowF, PoolF, OptionalF,
        BindCatchF;
      if ctx.tryDepth >= MAX_TRY_DEPTH {
        Fail(RESOURCE_ERROR);
        return;
      }
      var hadException := EvalCaught(node);
      EvalOptional(node.finallyBody);
      LeaveTry(hadException);
    }

    /** The try body in a frame of its own, and the catch body when an exception is pending then. */
    method EvalCaught(node: Node) returns (hadException: bool)
      requires Sound(env) && Ready(ctx) && node.Try?
      modifies this
      ensures ctx == CaughtF(env, node, old(ctx))
      decreases node, 1
    {
      hide Sound, Eval, EvalKind, IfF, BlockF, WhileF, DoWhileF, ForF, ForLoopF, ForInF, ElementsF, SwitchF, CasesF,
        FallbackF, LogicalF, TernaryF, RangeNodeF, ForCondF, LeafF, BindF, BodyF, TryF, ThrowF, PoolF, OptionalF,
        BindCatchF;
      ctx := ctx.(tryDepth := ctx.tryDepth + 1);
      ctx := ctx.(exceptionPending := false);
      EvalOptional(node.tryBody);
      hadException := ctx.exceptionPending;
      if hadException && node.catchBody.Some? {
        BindCatch(node.catchVar);
        ctx := ctx.(exceptionPending := false);
        EvalOptional(node.catchBody);
      }
    }

    /** Pop the try frame; an exception caught and not thrown again is forgotten. */
    method LeaveTry(hadException: bool)
      modifies this
      ensures ctx == LeaveTryF(old(ctx))
    {
      if ctx.tryDepth > 0 {
        ctx := ctx.(tryDepth := ctx.tryDepth - 1);
      }
      if hadException && ctx.exceptionPending {
        // stays pending for the enclosing try
      } else if !ctx.exceptionPending {
        ctx := ctx.(currentException := Void);
      }
    }

    method EvalThrow(thrown: Option<Range>)
      requires Sound(env) && Ready(ctx)
      modifies this
      ensures ctx == ThrowF(env, thrown, old(ctx))
    {
      hide Sound, LeafF;
      var exc := ctx.currentException;
      if thrown.None? {
        if exc.Void? {
          Fail(RUNTIME_ERROR);
          return;
        }
      } else {
        exc := EvalRange(thrown.value);
      }
      ctx := ctx.(currentException := exc);
      ctx := ctx.(exceptionPending := true);
      if ctx.tryDepth == 0 {
        Fail(RUNTIME_ERROR);
      }
    }

    method EvalPool(node: Node)
      requires Sound(env) && Ready(ctx) && node.Pool?
      modifies this
      ensures ctx == PoolF(env, node, old(ctx))
      decreases node, 1
    {
      hide Sound, Eval, EvalKind, IfF, BlockF, WhileF, DoWhileF, ForF, ForLoopF, ForInF, ElementsF, SwitchF, CasesF,
        FallbackF, LogicalF, TernaryF, RangeNodeF, ForCondF, LeafF, BindF, BodyF, TryF, CaughtF, ThrowF, OptionalF;
      if ctx.poolDepth >= MAX_POOL_DEPTH {
        Fail(RESOURCE_ERROR);
        return;
      }
      ctx := ctx.(poolDepth := ctx.poolDepth + 1);
      EvalOptional(node.poolBody);
      if ctx.poolDepth > 0 {
        ctx := ctx.(poolDepth := ctx.poolDepth - 1);
      }
    }
  }
}
