/** Try, catch, finally and throw, in terms of the evaluation of their parts. */
module Exceptions {
  import opened Options
  import opened Ast
  import opened FlagMachine

  lemma TryNode<S(!new)>(env: Env<S>, node: Node, c: Context<S>)
    requires Sound(env) && Ready(c) && c.evalDepth < MAX_EVAL_DEPTH && node.Try?
    ensures Eval(env, node, c) == Evaluated(Back(TryF(env, node, Deeper(c))), Void)
  {
    hide Sound, TryF;
  }

  /** A body that may be missing ends in `c'`. */
  ghost predicate Ends<S(!new)>(env: Env<S>, body: Option<Node>, c: Context<S>, c': Context<S>)
    requires Sound(env) && Ready(c)
  {
    c' == if body.None? then c else Eval(env, body.value, c).ctx
  }

  lemma EndsReady<S(!new)>(env: Env<S>, body: Option<Node>, c: Context<S>, c': Context<S>)
    requires Sound(env) && Ready(c) && Ends(env, body, c, c')
    ensures Ready(c') && c'.tryDepth == c.tryDepth && c'.evalDepth == c.evalDepth && OptionalF(env, body, c) == c'
  {
    hide Sound, Eval;
  }

  /** The try body runs in a frame of its own, with no exception pending.  The catch body runs if and only if it
      leaves one pending, from the context in which the catch variable is bound to it and it has been taken down.
      The finally body runs in any case.  Then the frame is gone, and the exception too unless one is pending. */
  lemma TryRuns<S(!new)>(env: Env<S>, node: Node, c: Context<S>, c1: Context<S>, t: Context<S>, bound: Context<S>,
                         k: Context<S>, f: Context<S>)
    requires Sound(env) && Ready(c) && c.evalDepth < MAX_EVAL_DEPTH && c.tryDepth < MAX_TRY_DEPTH && node.Try?
    requires c1 == c.(evalDepth := c.evalDepth + 1, tryDepth := c.tryDepth + 1, exceptionPending := false)
    requires Ends(env, node.tryBody, c1, t)
    requires bound == if node.catchVar == "" then t else env.bindCatch(node.catchVar, t)
    requires Ready(t) && Ready(bound)
    requires if t.exceptionPending && node.catchBody.Some?
             then Ends(env, node.catchBody, bound.(exceptionPending := false), k) else k == t
    requires Ready(k) && Ends(env, node.finallyBody, k, f)
    ensures Eval(env, node, c).value == Void
    ensures Eval(env, node, c).ctx
         == f.(evalDepth := c.evalDepth, tryDepth := c.tryDepth,
               currentException := if f.exceptionPending then f.currentException else Void)
  {
    hide Sound, Eval, CaughtF, OptionalF, Ends;
    TryNode(env, node, c);
    CaughtIs(env, node, Deeper(c), c1, t, bound, k);
    EndsReady(env, node.finallyBody, k, f);
    assert TryF(env, node, Deeper(c)) == LeaveTryF(f);
  }

  lemma CaughtIs<S(!new)>(env: Env<S>, node: Node, c: Context<S>, c1: Context<S>, t: Context<S>, bound: Context<S>,
                          k: Context<S>)
    requires Sound(env) && Ready(c) && node.Try?
    requires c1 == c.(tryDepth := c.tryDepth + 1, exceptionPending := false)
    requires Ends(env, node.tryBody, c1, t)
    requires bound == if node.catchVar == "" then t else env.bindCatch(node.catchVar, t)
    requires Ready(t) && Ready(bound)
    requires if t.exceptionPending && node.catchBody.Some?
             then Ends(env, node.catchBody, bound.(exceptionPending := false), k) else k == t
    ensures CaughtF(env, node, c) == k && k.tryDepth == c.tryDepth + 1 && k.evalDepth == c.evalDepth
  {
    hide Sound, Eval, OptionalF, Ends;
    EndsReady(env, node.tryBody, c1, t);
    assert BindCatchF(env, node.catchVar, t) == bound;
    if t.exceptionPending && node.catchBody.Some? {
      EndsReady(env, node.catchBody, bound.(exceptionPending := false), k);
    }
  }

  /** Without an exception pending behind the try body, the catch part might be any other, or missing. */
  lemma CatchIgnored<S(!new)>(env: Env<S>, t: Option<Node>, x: string, k: Option<Node>, y: string, l: Option<Node>,
                              f: Option<Node>, c: Context<S>, c1: Context<S>, b: Context<S>)
    requires Sound(env) && Ready(c) && c.evalDepth < MAX_EVAL_DEPTH && c.tryDepth < MAX_TRY_DEPTH
    requires c1 == c.(evalDepth := c.evalDepth + 1, tryDepth := c.tryDepth + 1, exceptionPending := false)
    requires Ends(env, t, c1, b) && !b.exceptionPending
    ensures Eval(env, Try(t, x, k, f), c) == Eval(env, Try(t, y, l, f), c)
  {
    hide Sound, Eval, OptionalF, Ends;
    TryNode(env, Try(t, x, k, f), c);
    TryNode(env, Try(t, y, l, f), c);
    EndsReady(env, t, c1, b);
    var d := Deeper(c);
    assert d.(tryDepth := d.tryDepth + 1, exceptionPending := false) == c1;
    assert CaughtF(env, Try(t, x, k, f), d) == b && CaughtF(env, Try(t, y, l, f), d) == b;
    assert TryF(env, Try(t, x, k, f), d) == TryF(env, Try(t, y, l, f), d);
  }

  lemma LeafIs<S(!new)>(env: Env<S>, r: Range, c: Context<S>, e: Evaluated<S>)
    requires Sound(env) && Ready(c) && e == env.leaf(r, c)
    ensures LeafF(env, r, c) == e && Leaflike(c, e.ctx)
  {
    hide Sound;
  }

  /** A throw inside a try leaves the value of its expression pending as the exception, and nothing else; outside every
      try that is an error as well. */
  lemma ThrowLeaves<S(!new)>(env: Env<S>, r: Range, c: Context<S>, e: Evaluated<S>)
    requires Sound(env) && Ready(c) && c.evalDepth < MAX_EVAL_DEPTH
    requires e == env.leaf(r, c.(evalDepth := c.evalDepth + 1))
    ensures Eval(env, Throw(Some(r)), c).ctx
         == e.ctx.(evalDepth := c.evalDepth, currentException := e.value, exceptionPending := true,
                   errorCode := if c.tryDepth == 0 then RUNTIME_ERROR else e.ctx.errorCode)
  {
    hide Sound, Eval, LeafF;
    LeafIs(env, r, Deeper(c), e);
    ThrowNode(env, Some(r), c);
  }

  /** Throwing again leaves the exception as it is; without one it is an error. */
  lemma RethrowLeaves<S(!new)>(env: Env<S>, c: Context<S>)
    requires Sound(env) && Ready(c) && c.evalDepth < MAX_EVAL_DEPTH
    ensures Eval(env, Throw(None), c).ctx
         == if c.currentException == Void then c.(errorCode := RUNTIME_ERROR)
            else c.(exceptionPending := true, errorCode := if c.tryDepth == 0 then RUNTIME_ERROR else c.errorCode)
  {
    hide Sound, Eval;
    ThrowNode(env, None, c);
  }

  lemma ThrowNode<S(!new)>(env: Env<S>, thrown: Option<Range>, c: Context<S>)
    requires Sound(env) && Ready(c) && c.evalDepth < MAX_EVAL_DEPTH
    ensures Eval(env, Throw(thrown), c) == Evaluated(Back(ThrowF(env, thrown, Deeper(c))), Void)
  {
    hide Sound, ThrowF;
  }

  /** Nothing is pending but, perhaps, an exception. */
  predicate Going<S>(c: Context<S>) {
    c.errorCode == OK && !c.breakPending && !c.continuePending && !c.returnPending
  }

  lemma PairRuns<S(!new)>(env: Env<S>, first: Node, second: Node, c: Context<S>, c1: Context<S>, t: Context<S>)
    requires Sound(env) && Ready(c) && c.evalDepth < MAX_EVAL_DEPTH && c1 == c.(evalDepth := c.evalDepth + 1)
    requires t == Eval(env, first, c1).ctx && Going(t)
    ensures Ready(t)
    ensures Eval(env, Block([first, second]), c).value == Eval(env, second, t).value
    ensures Eval(env, Block([first, second]), c).ctx == Eval(env, second, t).ctx.(evalDepth := c.evalDepth)
  {
    hide Sound, Eval;
    BlockNode(env, [first, second], c);
    var node := Block([first, second]);
    var e := Eval(env, second, t);
    assert BlockF(env, node, 2, e.value, e.ctx) == e;
    assert BlockF(env, node, 1, Eval(env, first, c1).value, t) == e;
    assert BlockF(env, node, 0, Void, c1) == e;
  }

  lemma BlockNode<S(!new)>(env: Env<S>, children: seq<Node>, c: Context<S>)
    requires Sound(env) && Ready(c) && c.evalDepth < MAX_EVAL_DEPTH
    ensures var e := BlockF(env, Block(children), 0, Void, Deeper(c));
            Eval(env, Block(children), c).value == e.value
            && Eval(env, Block(children), c).ctx == e.ctx.(evalDepth := c.evalDepth)
  {
    hide Sound, BlockF;
  }

  lemma OneRuns<S(!new)>(env: Env<S>, first: Node, c: Context<S>, c1: Context<S>, t: Context<S>)
    requires Sound(env) && Ready(c) && c.evalDepth < MAX_EVAL_DEPTH && c1 == c.(evalDepth := c.evalDepth + 1)
    requires t == Eval(env, first, c1).ctx
    ensures Eval(env, Block([first]), c).ctx == t.(evalDepth := c.evalDepth)
  {
    hide Sound, Eval;
    BlockNode(env, [first], c);
    var node := Block([first]);
    assert BlockF(env, node, 1, Eval(env, first, c1).value, t).ctx == t;
    assert BlockF(env, node, 0, Void, c1).ctx == t;
  }

  lemma ManyRun<S(!new)>(env: Env<S>, first: Node, rest: seq<Node>, c: Context<S>, c1: Context<S>, t: Context<S>)
    requires Sound(env) && Ready(c) && c.evalDepth < MAX_EVAL_DEPTH && c1 == c.(evalDepth := c.evalDepth + 1)
    requires t == Eval(env, first, c1).ctx && Going(t) && rest != [] && Eval(env, rest[0], t).ctx.returnPending
    ensures Eval(env, Block([first] + rest), c).ctx.returnPending
  {
    hide Sound, Eval;
    var node := Block([first] + rest);
    BlockNode(env, [first] + rest, c);
    assert node.children[0] == first && node.children[1] == rest[0];
    assert BlockF(env, node, 1, Eval(env, first, c1).value, t) == Eval(env, rest[0], t);
    assert BlockF(env, node, 0, Void, c1) == BlockF(env, node, 1, Eval(env, first, c1).value, t);
  }

  lemma ReturnNode<S(!new)>(env: Env<S>, node: Node, c: Context<S>)
    requires Sound(env) && Ready(c) && c.evalDepth < MAX_EVAL_DEPTH && node.Return?
    ensures Eval(env, node, c).ctx.returnPending
  {
    hide Sound, LeafF, IfF, BlockF, WhileF, DoWhileF, ForF, ForInF, SwitchF, LogicalF, TernaryF, TryF, ThrowF, PoolF;
  }

  /** A statement that leaves an exception pending ends its block, whatever the statements behind it are, exactly when
      there are none: the block goes on with them, and the exception is caught only afterwards. */
  lemma ThrowEndsBlockIff<S(!new)>(env: Env<S>, first: Node, rest: seq<Node>, r: Range, c: Context<S>,
                                   c1: Context<S>, t: Context<S>)
    requires Sound(env) && Ready(c) && c.evalDepth + 1 < MAX_EVAL_DEPTH && c1 == c.(evalDepth := c.evalDepth + 1)
    requires t == Eval(env, first, c1).ctx && t.exceptionPending && Going(t)
    ensures rest == [] <==>
            forall behind: seq<Node> | |behind| == |rest| ::
              Eval(env, Block([first] + behind), c).ctx == t.(evalDepth := c.evalDepth)
  {
    hide Sound, Eval, EvalKind;
    if rest == [] {
      forall behind: seq<Node> | |behind| == |rest|
        ensures Eval(env, Block([first] + behind), c).ctx == t.(evalDepth := c.evalDepth)
      {
        assert [first] + behind == [first];
        OneRuns(env, first, c, c1, t);
      }
    } else {
      var behind := seq(|rest|, _ => Return(r));
      DepthKept(env, first, c1, t);
      ReturnNode(env, Return(r), t);
      ManyRun(env, first, behind, c, c1, t);
      assert |behind| == |rest|;
      assert Eval(env, Block([first] + behind), c).ctx != t.(evalDepth := c.evalDepth);
    }
  }

  lemma DepthKept<S(!new)>(env: Env<S>, node: Node, c: Context<S>, c': Context<S>)
    requires Sound(env) && Ready(c) && c' == Eval(env, node, c).ctx
    ensures Ready(c') && c'.evalDepth == c.evalDepth && c'.tryDepth == c.tryDepth
  {
    hide Sound, Eval;
  }

  // ---- What becomes of an exception pending in a finally part ----

  /** A while loop whose round ends with nothing else pending goes on exactly when no exception is pending: with one,
      however long it would go on, it is left behind that round. */
  lemma PendingLoopStops<S(!new)>(env: Env<S>, r: Range, body: Node, c: Context<S>, c1: Context<S>,
                                  cond: Evaluated<S>, b: Context<S>)
    requires Sound(env) && c.loopIterations < MAX_LOOP_ITERATIONS && c.evalDepth < MAX_EVAL_DEPTH
    requires c1 == c.(evalDepth := c.evalDepth + 1, loopIterations := c.loopIterations + 1)
    requires cond == Eval(env, Statement(r), c1) && Truthy(cond.value)
    requires b == Eval(env, body, cond.ctx.(breakPending := false, continuePending := false)).ctx
    requires !b.breakPending && !b.continuePending && !b.returnPending && !env.interrupt(b.polls)
    ensures Ready(b)
    ensures Eval(env, While(r, body), c).ctx
         == if b.exceptionPending then b.(evalDepth := c.evalDepth)
            else Eval(env, While(r, body), b.(evalDepth := c.evalDepth, polls := b.polls + 1)).ctx
  {
    hide Sound, RangeNodeF, Eval, EvalKind;
    var node := While(r, body);
    StatementNode(env, r, c1);
    WhileNode(env, node, c);
    assert OneMore(Deeper(c)) == c1;
    assert BodyF(env, body, cond.ctx) == b;
    assert TakenDown(b) == b;
    if b.exceptionPending {
      assert WhileF(env, node, Deeper(c), None).ctx == b;
    } else {
      var next := b.(evalDepth := c.evalDepth, polls := b.polls + 1);
      assert Polled(b) == Deeper(next);
      assert WhileF(env, node, Deeper(c), None).ctx == WhileF(env, node, Deeper(next), Some(b)).ctx;
      LastIrrelevant(env, node, Deeper(next), Some(b));
      WhileNode(env, node, next);
    }
  }

  lemma LastIrrelevant<S(!new)>(env: Env<S>, node: Node, c: Context<S>, last: Option<Context<S>>)
    requires Sound(env) && Ready(c) && node.While?
    ensures WhileF(env, node, c, last).ctx == WhileF(env, node, c, None).ctx
  {
    hide Sound, RangeNodeF, BodyF;
  }

  lemma StatementNode<S(!new)>(env: Env<S>, r: Range, c: Context<S>)
    requires Sound(env) && Ready(c)
    ensures Eval(env, Statement(r), c) == RangeNodeF(env, r, c)
  {
    hide Sound, LeafF;
  }

  lemma WhileNode<S(!new)>(env: Env<S>, node: Node, c: Context<S>)
    requires Sound(env) && Ready(c) && c.evalDepth < MAX_EVAL_DEPTH && node.While?
    ensures Eval(env, node, c).ctx == WhileF(env, node, Deeper(c), None).ctx.(evalDepth := c.evalDepth)
  {
    hide Sound, WhileF;
  }

  /** A try statement does the same whether an exception was pending before it or not. */
  lemma TryForgets<S(!new)>(env: Env<S>, node: Node, c: Context<S>)
    requires Sound(env) && Ready(c) && c.evalDepth < MAX_EVAL_DEPTH && c.tryDepth < MAX_TRY_DEPTH && node.Try?
    ensures Eval(env, node, c) == Eval(env, node, c.(exceptionPending := false))
  {
    hide Sound, Eval, OptionalF;
    TryNode(env, node, c);
    TryNode(env, node, c.(exceptionPending := false));
    var d, d0 := Deeper(c), Deeper(c.(exceptionPending := false));
    assert d.(tryDepth := d.tryDepth + 1, exceptionPending := false)
        == d0.(tryDepth := d0.tryDepth + 1, exceptionPending := false);
    assert CaughtF(env, node, d) == CaughtF(env, node, d0);
  }

  /** An inner try, even an empty one, makes the pending exception disappear. */
  lemma InnerTryDrops<S(!new)>(env: Env<S>, c: Context<S>)
    requires Sound(env) && Ready(c) && c.evalDepth < MAX_EVAL_DEPTH && c.tryDepth < MAX_TRY_DEPTH
    ensures Eval(env, Try(None, "", None, None), c).ctx == c.(exceptionPending := false, currentException := Void)
  {
    var c1 := c.(evalDepth := c.evalDepth + 1, tryDepth := c.tryDepth + 1, exceptionPending := false);
    TryRuns(env, Try(None, "", None, None), c, c1, c1, c1, c1, c1);
  }

  /** Behind an inner try a catch body can no longer throw its exception again: @try { } @throw; fails. */
  lemma RethrowForgotten<S(!new)>(env: Env<S>, c: Context<S>)
    requires Sound(env) && Ready(c) && c.evalDepth + 1 < MAX_EVAL_DEPTH && c.tryDepth < MAX_TRY_DEPTH && Going(c)
    ensures Eval(env, Block([Try(None, "", None, None), Throw(None)]), c).ctx
         == c.(exceptionPending := false, currentException := Void, errorCode := RUNTIME_ERROR)
  {
    hide Sound, Eval;
    var c1 := c.(evalDepth := c.evalDepth + 1);
    InnerTryDrops(env, c1);
    var t := c1.(exceptionPending := false, currentException := Void);
    PairRuns(env, Try(None, "", None, None), Throw(None), c, c1, t);
    RethrowLeaves(env, t);
  }
}
