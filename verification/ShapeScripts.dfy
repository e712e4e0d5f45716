/** Whole runs of shape inference: with resizes of leaves, and of ops that compute the new shape from clean
    inputs, cached answers are those of plain inference; any other resize of an op, which the code lets
    through, breaks that. */
module ShapeScripts {
  import opened Wrappers
  import opened ExprGraph
  import opened Links
  import opened ShapeInference
  import opened ShapeWalk
  import opened ShapeEngine

  datatype Step =
    | MakeLeaf(isInput: bool, dims: Shape)
    | MakeOp(op: nat, inputs: seq<Var>, outputs: nat)
    | ResizeVar(e: nat, dims: Shape)
    | AskInfo(e: nat)

  datatype Plain = Plain(exprs: seq<Expr>, leaf: seq<Shape>)

  /** The step only mentions what exists; others are ignored. */
  predicate Legal(exprs: seq<Expr>, step: Step)
  {
    match step
    case MakeLeaf(_, _) => true
    case MakeOp(_, inputs, _) => forall i :: 0 <= i < |inputs| ==> VarOk(exprs, inputs[i], |exprs|)
    case ResizeVar(e, _) => e < |exprs| && Outputs(exprs[e]) > 0
    case AskInfo(e) => e < |exprs|
  }

  ghost function Advance(rules: Rules, p: Plain, step: Step): Plain
    requires |p.leaf| == |p.exprs|
  {
    if !Legal(p.exprs, step) then p
    else match step
      case MakeLeaf(isInput, dims) => Plain(p.exprs + [Leaf(isInput)], p.leaf + [dims])
      case MakeOp(op, inputs, outputs) => Plain(p.exprs + [Op(op, inputs, outputs)], p.leaf + [rules.unknown])
      case ResizeVar(e, dims) => if p.exprs[e].Leaf? then p.(leaf := p.leaf[e := dims]) else p
      case AskInfo(_) => p
  }

  ghost function After(rules: Rules, steps: seq<Step>): (p: Plain)
    ensures |p.leaf| == |p.exprs|
  {
    if steps == [] then Plain([], []) else Advance(rules, After(rules, steps[..|steps| - 1]), steps[|steps| - 1])
  }

  /** An answer is exactly what plain inference gives now. */
  ghost predicate ResultOk(rules: Rules, p: Plain, step: Step, r: Option<seq<Shape>>)
  {
    && GraphOk(p.exprs) && |p.leaf| == |p.exprs|
    && (step.AskInfo? && Legal(p.exprs, step) ==> r == Infer(rules, p.exprs, p.leaf, step.e))
  }

  /** One step of a caller. An op is resized only when it computes the new shape from clean inputs. */
  method Perform(engine: ShapeEngine, step: Step, ghost p: Plain) returns (r: Option<seq<Shape>>)
    requires engine.Valid() && p == Plain(engine.exprs, engine.leaf) && |p.leaf| == |p.exprs|
    modifies engine
    ensures engine.Valid() && ResultOk(engine.rules, p, step, r)
    ensures Plain(engine.exprs, engine.leaf) == Advance(engine.rules, p, step)
  {
    r := None;
    assert Sized(engine.Now());
    if !Legal(engine.exprs, step) {
      return;
    }
    match step
    case MakeLeaf(isInput, dims) =>
      var _ := engine.CreateLeaf(isInput, dims);
    case MakeOp(op, inputs, outputs) =>
      var _ := engine.CreateOp(op, inputs, outputs);
    case ResizeVar(e, dims) =>
      if engine.exprs[e].Leaf? || Solved(engine.rules, Resize(engine.Now(), e, dims), e) {
        engine.ResizeVar(e, dims);
      }
    case AskInfo(e) =>
      var ok := engine.RequireInfo(e);
      if ok {
        r := Some(engine.info[e]);
      }
  }

  /** The first `n` results are right. */
  ghost predicate AllOk(rules: Rules, steps: seq<Step>, results: seq<Option<seq<Shape>>>, n: nat)
  {
    n <= |steps| && n <= |results| && forall k :: 0 <= k < n ==>
      ResultOk(rules, After(rules, steps[..k]), steps[k], results[k])
  }

  lemma OneMoreOk(rules: Rules, steps: seq<Step>, results: seq<Option<seq<Shape>>>, n: nat, r: Option<seq<Shape>>)
    requires AllOk(rules, steps, results, n) && n == |results| < |steps|
    requires ResultOk(rules, After(rules, steps[..n]), steps[n], r)
    ensures AllOk(rules, steps, results + [r], n + 1)
  {
  }

  lemma AfterStep(rules: Rules, steps: seq<Step>, n: nat)
    requires n < |steps|
    ensures After(rules, steps[..n + 1]) == Advance(rules, After(rules, steps[..n]), steps[n])
  {
    assert steps[..n + 1][..n] == steps[..n];
  }

  /** Every run, from an empty engine, agrees with plain inference at every question. */
  method RunShapes(rules: Rules, steps: seq<Step>) returns (results: seq<Option<seq<Shape>>>)
    ensures |results| == |steps|
    ensures forall i :: 0 <= i < |steps| ==> ResultOk(rules, After(rules, steps[..i]), steps[i], results[i])
  {
    var engine := new ShapeEngine(rules);
    results := [];
    for i := 0 to |steps|
      invariant engine.Valid() && engine.rules == rules && fresh(engine)
      invariant Plain(engine.exprs, engine.leaf) == After(rules, steps[..i])
      invariant |results| == i && AllOk(rules, steps, results, i)
    {
      var r := Perform(engine, steps[i], After(rules, steps[..i]));
      AfterStep(rules, steps, i);
      OneMoreOk(rules, steps, results, i, r);
      results := results + [r];
    }
  }

  // --- Resizing an op ---

  /** A leaf of shape `a` and an op on it whose rule always gives `b`, both solved. */
  ghost function Solvable(rules: Rules, a: Shape, b: Shape): State
  {
    State([Leaf(true), Op(0, [Var(0, 0)], 1)], [[1], []], [a, rules.unknown], [[a], [b]], [false, false], [true, true])
  }

  lemma SolvableInv(rules: Rules, a: Shape, b: Shape)
    requires rules.infer(0, [a], 1) == Some([b])
    ensures Inv(rules, Solvable(rules, a, b))
  {
    var s := Solvable(rules, a, b);
    assert GraphOk(s.exprs);
    forall x: nat, y: nat | y < |s.to|
      ensures LinkOk(s.exprs, s.to, x, y)
    {
      if x == 1 {
        assert UsesDirectly(InputsOf(s.exprs[1]), y) <==> InputsOf(s.exprs[1])[0].expr == y;
      }
    }
    assert Stored(rules, s, s.exprs[1].inputs, 1) == [a];
    assert ExprInv(rules, s, 0);
    assert ExprInv(rules, s, 1);
  }

  /** Resizing the op's output to another shape leaves it clean with a shape that inference does not give. */
  lemma OpResizeBreaks(rules: Rules, a: Shape, b: Shape, c: Shape)
    requires rules.infer(0, [a], 1) == Some([b]) && b != c
    ensures var s := Solvable(rules, a, b);
            && Inv(rules, s) && Resizable(s, 1) && Walked(Resize(s, 1, c), Resize(s, 1, c), 1)
            && ConsumersFresh(Resize(s, 1, c), 1)
            && !Inv(rules, Resize(s, 1, c)) && !Resize(s, 1, c).dirty[1] && Resize(s, 1, c).info[1] == [c]
            && Infer(rules, s.exprs, s.leaf, 1) == Some([b])
  {
    var s := Solvable(rules, a, b);
    SolvableInv(rules, a, b);
    CleanIsInferred(rules, s, 1);
    var s' := Resize(s, 1, c);
    ResizeSized(s, 1, c);
    assert Stored(rules, s', s'.exprs[1].inputs, 1) == [a];
    assert s'.info[1] == [c] && [b][0] != [c][0];
    assert !Solved(rules, s', 1);
    ResizeKeepsIff(rules, s, 1, c, s');
  }
}
