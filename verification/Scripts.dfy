/** Whole runs of the lazy engine against plain evaluation: caches, dirty flags and the order in which things
    are computed can never be observed. What can be observed of preparing variables together is which INPUT
    leaves a read waits for. */
module Scripts {
  import opened Wrappers
  import opened ExprGraph
  import opened Links
  import opened Caches
  import opened Reshaping
  import opened Waits
  import opened Closure
  import opened Engine

  datatype Step =
    | MakeLeaf(isInput: bool, x: Value)
    | MakeOp(op: nat, inputs: seq<Var>, outputs: nat)
    | WriteTo(e: nat, x: Value)
    | ResizeLeaf(e: nat, x: Value)
    | PrepareAll(vars: seq<Var>)
    | ComputeAll(vars: seq<Var>)
    | ReadVar(v: Var)

  predicate VarsOk(exprs: seq<Expr>, vars: seq<Var>)
  {
    forall i :: 0 <= i < |vars| ==> VarOk(exprs, vars[i], |exprs|)
  }

  /** The step only mentions what exists and resizes only leaves; others are ignored. */
  predicate Legal(exprs: seq<Expr>, step: Step)
  {
    match step
    case MakeLeaf(_, _) => true
    case MakeOp(_, inputs, _) => VarsOk(exprs, inputs)
    case WriteTo(e, _) => e < |exprs|
    case ResizeLeaf(e, _) => e < |exprs| && exprs[e].Leaf?
    case PrepareAll(vars) => VarsOk(exprs, vars)
    case ComputeAll(vars) => VarsOk(exprs, vars)
    case ReadVar(v) => VarOk(exprs, v, |exprs|)
  }

  // --- The plain meaning of a run ---

  ghost function AddPlain(p: Plain, e: Expr, x: Value, unwritten: bool): Plain
  {
    p.(exprs := p.exprs + [e],
       content := p.content + [x],
       unwritten := p.unwritten + [unwritten],
       home := p.home + [None])
  }

  /** Everything that depends on the leaf loses its cache. */
  ghost function ResizePlain(p: Plain, l: nat, x: Value): Plain
    requires PlainOk(p) && l < |p.exprs|
  {
    p.(content := p.content[l := x],
       unwritten := p.unwritten[l := true],
       home := seq(|p.home|, e requires 0 <= e < |p.home| =>
         if e != l && DependsOn(p.exprs, e, l) then None else p.home[e]))
  }

  /** Computing and reading do no more than preparing. */
  ghost function Advance(sem: Semantics, p: Plain, step: Step): (r: Plain)
    requires PlainOk(p)
    ensures PlainOk(r)
  {
    if !Legal(p.exprs, step) then p
    else match step
      case MakeLeaf(isInput, x) =>
        GraphGrows(p.exprs, Leaf(isInput));
        AddPlain(p, Leaf(isInput), x, isInput)
      case MakeOp(op, inputs, outputs) =>
        GraphGrows(p.exprs, Op(op, inputs, outputs));
        AddPlain(p, Op(op, inputs, outputs), sem.blank, false)
      case WriteTo(e, x) =>
        if p.exprs[e].Leaf? then p.(content := p.content[e := x], unwritten := p.unwritten[e := false]) else p
      case ResizeLeaf(e, x) => ResizePlain(p, e, x)
      case PrepareAll(vars) => Prepared(p, Uncached(p, vars))
      case ComputeAll(vars) => Prepared(p, Uncached(p, vars))
      case ReadVar(v) => Prepared(p, Uncached(p, [v]))
  }

  ghost function After(sem: Semantics, steps: seq<Step>): (p: Plain)
    ensures PlainOk(p)
  {
    if steps == [] then Plain([], [], [], [], [])
    else Advance(sem, After(sem, steps[..|steps| - 1]), steps[|steps| - 1])
  }

  lemma AfterStep(sem: Semantics, steps: seq<Step>, n: nat)
    requires n < |steps|
    ensures After(sem, steps[..n + 1]) == Advance(sem, After(sem, steps[..n]), steps[n])
  {
    assert steps[..n + 1][..n] == steps[..n];
  }

  /** A read succeeds exactly when nothing that it waits for is unwritten, returns the plain evaluation, and never
      touches an unwritten leaf. */
  ghost predicate ResultOk(sem: Semantics, p: Plain, step: Step, r: Option<Value>)
    requires PlainOk(p)
  {
    step.ReadVar? && Legal(p.exprs, step) ==>
      && (r.Some? <==> Answers(p, step.v.expr))
      && (r.Some? ==> r.value == Eval(sem, p.exprs, p.content, step.v) && AllWritten(p.exprs, p.unwritten, step.v.expr))
  }

  // --- Preparing one expression at a time ---

  predicate SingleStep(step: Step)
  {
    match step
    case PrepareAll(vars) => |vars| <= 1
    case ComputeAll(vars) => |vars| <= 1
    case _ => true
  }

  predicate Single(steps: seq<Step>)
  {
    forall i :: 0 <= i < |steps| ==> SingleStep(steps[i])
  }

  /** `l` is an INPUT leaf that `e` depends on. */
  ghost predicate LeafBelow(exprs: seq<Expr>, e: nat, l: nat)
    requires GraphOk(exprs)
  {
    l < |exprs| && exprs[l] == Leaf(true) && DependsOn(exprs, e, l)
  }

  /** The cache of `e`, if it has one, waits exactly for the INPUT leaves below `e`. */
  ghost predicate OwnWaits(p: Plain, e: nat)
    requires PlainOk(p) && e < |p.exprs|
  {
    p.home[e].Some? ==>
      && p.exprs[e].Op? && p.home[e].value < |p.waits|
      && forall l: nat :: l in p.waits[p.home[e].value] <==> LeafBelow(p.exprs, e, l)
  }

  ghost predicate AllOwnWaits(p: Plain)
    requires PlainOk(p)
  {
    forall e :: 0 <= e < |p.exprs| ==> OwnWaits(p, e)
  }

  lemma {:induction false} AwaitsBelow(p: Plain, e: nat, l: nat)
    requires PlainOk(p) && AllOwnWaits(p) && e < |p.exprs|
    ensures Awaits(p, e, l) <==> LeafBelow(p.exprs, e, l)
    decreases e
  {
    assert OwnWaits(p, e);
    match p.exprs[e]
    case Leaf(_) =>
      if LeafBelow(p.exprs, e, l) {
        LeafDepends(p.exprs, e, l);
      }
    case Op(_, inputs, _) =>
      if p.home[e].None? {
        assert ExprOk(p.exprs, e);
        forall i | 0 <= i < |inputs|
          ensures Awaits(p, inputs[i].expr, l) <==> LeafBelow(p.exprs, inputs[i].expr, l)
        {
          AwaitsBelow(p, inputs[i].expr, l);
        }
        if LeafBelow(p.exprs, e, l) {
          assert e != l && UsesDependent(p.exprs, e, l);
          var i :| 0 <= i < |inputs| && DependsOn(p.exprs, inputs[i].expr, l);
          assert Awaits(p, inputs[i].expr, l);
        }
        if Awaits(p, e, l) {
          var i :| 0 <= i < |inputs| && Awaits(p, inputs[i].expr, l);
          assert UsesDependent(p.exprs, e, l);
        }
      }
  }

  lemma BelowExtend(exprs: seq<Expr>, x: Expr, e: nat, l: nat)
    requires GraphOk(exprs) && GraphOk(exprs + [x]) && e < |exprs|
    ensures LeafBelow(exprs, e, l) <==> LeafBelow(exprs + [x], e, l)
  {
    DependsExtend(exprs, exprs + [x], e, l);
    if DependsOn(exprs, e, l) {
      DependsDown(exprs, e, l);
    }
  }

  lemma AddKeepsOwn(p: Plain, x: Expr, v: Value, unwritten: bool)
    requires PlainOk(p) && AllOwnWaits(p) && PlainOk(AddPlain(p, x, v, unwritten))
    ensures AllOwnWaits(AddPlain(p, x, v, unwritten))
  {
    var q := AddPlain(p, x, v, unwritten);
    forall e: nat | e < |q.exprs|
      ensures OwnWaits(q, e)
    {
      if e < |p.exprs| {
        assert OwnWaits(p, e);
        forall l: nat
          ensures LeafBelow(p.exprs, e, l) <==> LeafBelow(q.exprs, e, l)
        {
          BelowExtend(p.exprs, x, e, l);
        }
      }
    }
  }

  lemma PrepareKeepsOwn(p: Plain, vars: seq<Var>)
    requires PlainOk(p) && AllOwnWaits(p) && |vars| <= 1
    ensures AllOwnWaits(Prepared(p, Uncached(p, vars)))
  {
    var roots := Uncached(p, vars);
    if roots != {} {
      UncachedFew(p, vars);
      var r, q := vars[0].expr, Prepared(p, roots);
      forall e: nat | e < |q.exprs|
        ensures OwnWaits(q, e)
      {
        assert OwnWaits(p, e);
        if e == r {
          RootOwnWaits(p, r);
        }
      }
    }
  }

  lemma RootOwnWaits(p: Plain, r: nat)
    requires PlainOk(p) && AllOwnWaits(p) && r < |p.exprs| && p.exprs[r].Op? && p.home[r].None?
    ensures OwnWaits(Prepared(p, {r}), r)
  {
    forall l: nat
      ensures Awaited(p, {r}, l) <==> LeafBelow(p.exprs, r, l)
    {
      AwaitsBelow(p, r, l);
      assert r in {r};
    }
  }

  lemma StepKeepsOwn(sem: Semantics, p: Plain, step: Step)
    requires PlainOk(p) && AllOwnWaits(p) && SingleStep(step)
    ensures AllOwnWaits(Advance(sem, p, step))
  {
    var q := Advance(sem, p, step);
    if Legal(p.exprs, step) {
      match step
      case MakeLeaf(isInput, x) => AddKeepsOwn(p, Leaf(isInput), x, isInput);
      case MakeOp(op, inputs, outputs) => AddKeepsOwn(p, Op(op, inputs, outputs), sem.blank, false);
      case WriteTo(_, _) =>
        assert forall e :: 0 <= e < |p.exprs| ==> OwnWaits(p, e) ==> OwnWaits(q, e);
      case ResizeLeaf(_, _) =>
        assert forall e :: 0 <= e < |p.exprs| ==> OwnWaits(p, e) ==> OwnWaits(q, e);
      case PrepareAll(vars) => PrepareKeepsOwn(p, vars);
      case ComputeAll(vars) => PrepareKeepsOwn(p, vars);
      case ReadVar(v) => PrepareKeepsOwn(p, [v]);
    }
  }

  lemma {:induction false} SingleOwnWaits(sem: Semantics, steps: seq<Step>)
    requires Single(steps)
    ensures AllOwnWaits(After(sem, steps))
    decreases |steps|
  {
    if steps != [] {
      SingleOwnWaits(sem, steps[..|steps| - 1]);
      StepKeepsOwn(sem, After(sem, steps[..|steps| - 1]), steps[|steps| - 1]);
    }
  }

  /** In such a run a read fails exactly when an INPUT leaf below the variable is unwritten. */
  lemma SingleReads(sem: Semantics, steps: seq<Step>, e: nat)
    requires Single(steps) && e < |After(sem, steps).exprs|
    ensures var p := After(sem, steps); Answers(p, e) <==> AllWritten(p.exprs, p.unwritten, e)
  {
    var p := After(sem, steps);
    SingleOwnWaits(sem, steps);
    forall l: nat
      ensures Awaits(p, e, l) <==> LeafBelow(p.exprs, e, l)
    {
      AwaitsBelow(p, e, l);
    }
    if !AllWritten(p.exprs, p.unwritten, e) {
      var l: nat :| l < |p.exprs| && LeafBelow(p.exprs, e, l) && p.unwritten[l];
      assert Awaits(p, e, l);
    }
  }

  // --- Runs ---

  lemma ReshapedView(s: State, l: nat, x: Value, gone: set<nat>)
    requires Structure(s) && l < |s.exprs| && AllForget(s, gone, l)
    ensures View(Reshaped(s, l, x, gone)) == ResizePlain(View(s), l, x)
  {
    var a, b := View(Reshaped(s, l, x, gone)), ResizePlain(View(s), l, x);
    forall e: nat | e < |s.exprs|
      ensures a.home[e] == b.home[e]
    {
      assert InfoOk(s, e);
    }
    assert a.home == b.home;
  }

  /** One step of a caller. */
  method Perform(engine: Engine, step: Step) returns (r: Option<Value>)
    requires engine.Valid()
    modifies engine
    ensures engine.Valid() && ResultOk(engine.sem, old(View(engine.Now())), step, r)
    ensures View(engine.Now()) == Advance(engine.sem, old(View(engine.Now())), step)
    ensures SingleStep(step) && old(Tidy(engine.Now())) ==> Tidy(engine.Now())
  {
    ghost var s := engine.Now();
    r := None;
    if !Legal(engine.exprs, step) {
      return;
    }
    match step
    case MakeLeaf(isInput, x) =>
      var _ := engine.CreateLeaf(isInput, x);
    case MakeOp(op, inputs, outputs) =>
      var _ := engine.CreateOp(op, inputs, outputs);
    case WriteTo(e, x) =>
      var _, _ := engine.Write(e, x);
    case ResizeLeaf(e, x) =>
      ghost var gone := engine.Reshape(e, x);
      ReshapedView(s, e, x, gone);
    case PrepareAll(vars) =>
      ghost var _, _ := engine.Prepare(vars);
    case ComputeAll(vars) =>
      ghost var _, _ := engine.ComputeVars(vars);
    case ReadVar(v) =>
      ghost var before, ran;
      r, before, ran := engine.Read(v);
  }

  /** The first `n` results are right. */
  ghost predicate AllOk(sem: Semantics, steps: seq<Step>, results: seq<Option<Value>>, n: nat)
  {
    n <= |steps| && n <= |results| && forall k :: 0 <= k < n ==>
      ResultOk(sem, After(sem, steps[..k]), steps[k], results[k])
  }

  lemma OneMoreOk(sem: Semantics, steps: seq<Step>, results: seq<Option<Value>>, n: nat, r: Option<Value>)
    requires AllOk(sem, steps, results, n) && n == |results| < |steps|
    requires ResultOk(sem, After(sem, steps[..n]), steps[n], r)
    ensures AllOk(sem, steps, results + [r], n + 1)
  {
  }

  /** The engine was in state `s` after the first `i` steps. */
  ghost predicate StateOk(sem: Semantics, steps: seq<Step>, i: nat, s: State)
    requires i <= |steps|
  {
    && Inv(sem, s) && View(s) == After(sem, steps[..i])
    && (Single(steps) ==> SingleRoots(s) && DirtyClosed(s))
  }

  ghost predicate TraceOk(sem: Semantics, steps: seq<Step>, trace: seq<State>, n: nat)
  {
    n <= |steps| && |trace| == n + 1 && forall i :: 0 <= i <= n ==> StateOk(sem, steps, i, trace[i])
  }

  /** Every run, from an empty engine, agrees with plain evaluation at every read, and a read fails exactly when it
      waits for an unwritten leaf. While expressions are prepared one at a time, dirty caches have no clean
      consumers. */
  method RunScript(sem: Semantics, steps: seq<Step>)
    returns (engine: Engine, results: seq<Option<Value>>, ghost trace: seq<State>)
    ensures fresh(engine) && engine.sem == sem && engine.Valid()
    ensures |results| == |steps|
    ensures forall i :: 0 <= i < |steps| ==> ResultOk(sem, After(sem, steps[..i]), steps[i], results[i])
    ensures TraceOk(sem, steps, trace, |steps|) && engine.Now() == trace[|steps|]
  {
    engine := new Engine(sem);
    results, trace := [], [engine.Now()];
    assert steps[..0] == [];
    for i := 0 to |steps|
      invariant engine.Valid() && engine.sem == sem && fresh(engine)
      invariant View(engine.Now()) == After(sem, steps[..i]) && (Single(steps) ==> Tidy(engine.Now()))
      invariant |results| == i && AllOk(sem, steps, results, i)
      invariant TraceOk(sem, steps, trace, i) && engine.Now() == trace[i]
    {
      var r := Perform(engine, steps[i]);
      AfterStep(sem, steps, i);
      OneMoreOk(sem, steps, results, i, r);
      results, trace := results + [r], trace + [engine.Now()];
    }
  }
}
