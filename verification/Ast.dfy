/** Control-flow trees and the interpreter context their evaluation works on. */
module Ast {
  import opened Options

  datatype Val = Void | Int(n: int) | Float(f: real) | Id(handle: nat) | Cls(cls: nat) | Sel(sel: nat)

  predicate Truthy(v: Val)
    ensures Truthy(v) <==> v != Void && !v.Sel? && v != Int(0) && v != Float(0.0) && v != Id(0) && v != Cls(0)
  {
    match v
    case Int(n) => n != 0
    case Float(f) => f != 0.0
    case Id(h) => h != 0
    case Cls(c) => c != 0
    case Sel(_) => false
    case Void => false
  }

  /** A range of the source text; statements and expressions are kept as ranges. */
  datatype Range = Range(start: nat, len: nat)

  datatype Case = Case(value: int, body: Node)

  /** A node.  Conditions, initialisers and increments are always plain source ranges. */
  datatype Node =
    | If(cond: Range, thn: Node, els: Option<Node>)
    | While(cond: Range, body: Node)
    | DoWhile(body: Node, cond: Range)
    | For(init: Range, cond: Range, increment: Range, body: Node)
    | ForIn(variable: string, collection: Range, body: Node)
    | Block(children: seq<Node>)
    | Statement(range: Range)
    | And(left: Range, right: Range)
    | Or(left: Range, right: Range)
    | Ternary(cond: Range, yes: Range, no: Range)
    | Return(range: Range)
    | Break
    | Continue
    | Noop
    | Switch(scrutinee: Range, cases: seq<Case>, fallback: Option<Node>)
    | Try(tryBody: Option<Node>, catchVar: string, catchBody: Option<Node>, finallyBody: Option<Node>)
    | Throw(thrown: Option<Range>)
    | Pool(poolBody: Option<Node>)

  /** The parts of the interpreter context that evaluation reads and writes; `store` stands for all
      the rest (variables, strings, collections, the return value). */
  datatype Context<S> = Context(
    store: S,
    errorCode: nat,
    breakPending: bool,
    continuePending: bool,
    returnPending: bool,
    exceptionPending: bool,
    currentException: Val,
    evalDepth: nat,
    tryDepth: nat,
    poolDepth: nat,
    loopIterations: nat,
    polls: nat)

  const OK: nat := 0
  const RUNTIME_ERROR: nat := 2
  const RESOURCE_ERROR: nat := 5

  const MAX_EVAL_DEPTH: nat := 256
  const MAX_LOOP_ITERATIONS: nat := 1000000
  const MAX_TRY_DEPTH: nat := 16
  const MAX_POOL_DEPTH: nat := 16

  /** What evaluating a source range leaves behind and returns. */
  datatype Evaluated<S> = Evaluated(ctx: Context<S>, value: Val)

  /** What a for-in loop iterates over. */
  datatype Iteration = Counted(count: nat) | Enumerated(enumerator: nat) | Nothing

  /** From one context to a later one: depths as before, iterations and polls not fewer and within
      the budget, and an error, once there, stays. */
  predicate Balanced<S>(c: Context<S>, c': Context<S>) {
    && c'.evalDepth == c.evalDepth && c'.tryDepth == c.tryDepth && c'.poolDepth == c.poolDepth
    && c.loopIterations <= c'.loopIterations <= MAX_LOOP_ITERATIONS
    && c.polls <= c'.polls
    && (c.errorCode != OK ==> c'.errorCode != OK)
  }

  /** What is assumed of everything evaluated from source text: it is balanced itself and neither
      starts nor ends a break or continue. */
  predicate Leaflike<S>(c: Context<S>, c': Context<S>) {
    && Balanced(c, c')
    && c'.breakPending == c.breakPending && c'.continuePending == c.continuePending
  }

  /** No break of this node is meant for an enclosing loop or switch. */
  predicate BreakFree(node: Node) {
    match node
    case Break => false
    case If(_, thn, els) => BreakFree(thn) && (els.Some? ==> BreakFree(els.value))
    case Block(children) => forall i :: 0 <= i < |children| ==> BreakFree(children[i])
    case Try(t, _, c, f) =>
      (t.Some? ==> BreakFree(t.value)) && (c.Some? ==> BreakFree(c.value)) && (f.Some? ==> BreakFree(f.value))
    case Pool(body) => body.Some? ==> BreakFree(body.value)
    case _ => true
  }

  /** No try statement occurs in this node, other than inside loops and switches. */
  predicate Tryless(node: Node) {
    match node
    case If(_, thn, els) => Tryless(thn) && (els.Some? ==> Tryless(els.value))
    case Block(children) => forall i :: 0 <= i < |children| ==> Tryless(children[i])
    case Try(_, _, _, _) => false
    case Pool(body) => body.Some? ==> Tryless(body.value)
    case _ => true
  }

  /** No continue of this node can reach an enclosing loop.  A try statement can leave a break and a
      continue pending together, and a loop that leaves on the break does not clear the continue. */
  predicate ContinueFree(node: Node) {
    match node
    case Continue => false
    case While(_, body) => Tryless(body) || BreakFree(body) || ContinueFree(body)
    case DoWhile(body, _) => Tryless(body) || BreakFree(body) || ContinueFree(body)
    case For(_, _, _, body) => Tryless(body) || BreakFree(body) || ContinueFree(body)
    case ForIn(_, _, body) => Tryless(body) || BreakFree(body) || ContinueFree(body)
    case If(_, thn, els) => ContinueFree(thn) && (els.Some? ==> ContinueFree(els.value))
    case Block(children) => forall i :: 0 <= i < |children| ==> ContinueFree(children[i])
    case Switch(_, cases, fallback) =>
      && (forall i :: 0 <= i < |cases| ==> ContinueFree(cases[i].body))
      && (fallback.Some? ==> ContinueFree(fallback.value))
    case Try(t, _, c, f) =>
      (t.Some? ==> ContinueFree(t.value)) && (c.Some? ==> ContinueFree(c.value)) && (f.Some? ==> ContinueFree(f.value))
    case Pool(body) => body.Some? ==> ContinueFree(body.value)
    case _ => true
  }

  /** No throw of this node can leave it. */
  predicate ThrowFree(node: Node) {
    match node
    case Throw(_) => false
    case While(_, body) => ThrowFree(body)
    case DoWhile(body, _) => ThrowFree(body)
    case For(_, _, _, body) => ThrowFree(body)
    case ForIn(_, _, body) => ThrowFree(body)
    case If(_, thn, els) => ThrowFree(thn) && (els.Some? ==> ThrowFree(els.value))
    case Block(children) => forall i :: 0 <= i < |children| ==> ThrowFree(children[i])
    case Switch(_, cases, fallback) =>
      && (forall i :: 0 <= i < |cases| ==> ThrowFree(cases[i].body))
      && (fallback.Some? ==> ThrowFree(fallback.value))
    case Try(t, _, c, f) =>
      && (t.None? || ThrowFree(t.value) || (c.Some? && ThrowFree(c.value)))
      && (f.Some? ==> ThrowFree(f.value))
    case Pool(body) => body.Some? ==> ThrowFree(body.value)
    case _ => true
  }

  /** No return statement in this node. */
  predicate ReturnFree(node: Node) {
    match node
    case Return(_) => false
    case While(_, body) => ReturnFree(body)
    case DoWhile(body, _) => ReturnFree(body)
    case For(_, _, _, body) => ReturnFree(body)
    case ForIn(_, _, body) => ReturnFree(body)
    case If(_, thn, els) => ReturnFree(thn) && (els.Some? ==> ReturnFree(els.value))
    case Block(children) => forall i :: 0 <= i < |children| ==> ReturnFree(children[i])
    case Switch(_, cases, fallback) =>
      && (forall i :: 0 <= i < |cases| ==> ReturnFree(cases[i].body))
      && (fallback.Some? ==> ReturnFree(fallback.value))
    case Try(t, _, c, f) =>
      (t.Some? ==> ReturnFree(t.value)) && (c.Some? ==> ReturnFree(c.value)) && (f.Some? ==> ReturnFree(f.value))
    case Pool(body) => body.Some? ==> ReturnFree(body.value)
    case _ => true
  }

  /** Blocks and conditionals of statements: nothing that looks at a pending exception. */
  predicate Straight(node: Node) {
    match node
    case Block(children) => forall i :: 0 <= i < |children| ==> Straight(children[i])
    case If(_, thn, els) => Straight(thn) && (els.Some? ==> Straight(els.value))
    case Statement(_) => true
    case And(_, _) => true
    case Or(_, _) => true
    case Ternary(_, _, _) => true
    case Noop => true
    case _ => false
  }

  /** Programs in which the evaluator's flags do not get in each other's way:

      - no continue leaves a case of a switch that has another case or the default behind it (it would fall into
        that);
      - nothing follows in a block on what may throw (it would be evaluated);
      - behind a try with a finally part come no break, continue or return (they would cut the finally part short),
        and, if an exception may be left pending there, that part has no loop, switch, try or throw in it. */
  predicate Structured(node: Node) {
    match node
    case If(_, thn, els) => Structured(thn) && (els.Some? ==> Structured(els.value))
    case While(_, body) => Structured(body)
    case DoWhile(body, _) => Structured(body)
    case For(_, _, _, body) => Structured(body)
    case ForIn(_, _, body) => Structured(body)
    case Block(children) =>
      forall i :: 0 <= i < |children| ==> Structured(children[i]) && (i < |children| - 1 ==> ThrowFree(children[i]))
    case Switch(_, cases, fallback) =>
      && (forall i :: 0 <= i < |cases| ==>
            Structured(cases[i].body) && (IsLast(cases, fallback, i) || ContinueFree(cases[i].body)))
      && (fallback.Some? ==> Structured(fallback.value))
    case Try(t, _, c, f) =>
      && (t.Some? ==> Structured(t.value)) && (c.Some? ==> Structured(c.value)) && (f.Some? ==> Structured(f.value))
      && (f.Some? ==> (t.Some? ==> StaysInside(t.value)) && (c.Some? ==> StaysInside(c.value)))
      && (f.Some? ==> Straight(f.value) || Caught(t, c))
    case Pool(body) => body.Some? ==> Structured(body.value)
    case _ => true
  }

  /** No break, continue or return leaves this node. */
  predicate StaysInside(node: Node) {
    BreakFree(node) && ContinueFree(node) && ReturnFree(node)
  }

  /** No exception is pending behind this try body and this catch body. */
  predicate Caught(t: Option<Node>, c: Option<Node>) {
    t.None? || ThrowFree(t.value) || (c.Some? && ThrowFree(c.value))
  }

  /** Nothing of the switch is behind the i-th case. */
  predicate IsLast(cases: seq<Case>, fallback: Option<Node>, i: nat) {
    i == |cases| - 1 && fallback.None?
  }

  /** The first case from i on with the value of the scrutinee, if there is one. */
  function MatchedCase(v: Val, cases: seq<Case>, i: nat): (m: nat)
    requires i <= |cases|
    ensures i <= m <= |cases| && (m < |cases| ==> v == Int(cases[m].value))
    ensures forall j :: i <= j < m ==> v != Int(cases[j].value)
    decreases |cases| - i
  {
    if i == |cases| || (v.Int? && cases[i].value == v.n) then i else MatchedCase(v, cases, i + 1)
  }

  predicate HasElement(kind: Iteration, idx: nat) {
    kind.Enumerated? || (kind.Counted? && idx < kind.count)
  }
}
