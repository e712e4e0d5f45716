/** Shape information with cached results: what `Expr::requireInfo`, `Expr::setInfoDirty` and
    `Variable::resize` keep, against plain recursive inference. */
module ShapeInference {
  import opened Wrappers
  import opened ExprGraph
  import opened Links

  type Shape(==, !new)

  /** The shapes an op gives to its outputs, or an error. */
  datatype Rules = Rules(unknown: Shape, infer: (nat, seq<Shape>, nat) -> Option<seq<Shape>>)

  function Computed(rules: Rules, op: nat, inputs: seq<Shape>, n: nat): (r: Option<seq<Shape>>)
    ensures r.Some? ==> |r.value| == n
  {
    var r := rules.infer(op, inputs, n);
    if r.Some? && |r.value| == n then r else None
  }

  // --- Plain inference ---

  ghost function Infer(rules: Rules, exprs: seq<Expr>, leaf: seq<Shape>, e: nat): (r: Option<seq<Shape>>)
    requires GraphOk(exprs) && |leaf| == |exprs| && e < |exprs|
    ensures r.Some? ==> |r.value| == Outputs(exprs[e])
    decreases e, 1, 0
  {
    match exprs[e]
    case Leaf(_) => Some([leaf[e]])
    case Op(op, inputs, n) =>
      var shapes := InferInputs(rules, exprs, leaf, e, |inputs|);
      if shapes.None? then None else Computed(rules, op, shapes.value, n)
  }

  ghost function InferInputs(rules: Rules, exprs: seq<Expr>, leaf: seq<Shape>, e: nat, n: nat): (r: Option<seq<Shape>>)
    requires GraphOk(exprs) && |leaf| == |exprs| && e < |exprs| && n <= |InputsOf(exprs[e])|
    ensures r.Some? ==> |r.value| == n
    decreases e, 0, n
  {
    if n == 0 then Some([])
    else
      assert ExprOk(exprs, e);
      var before := InferInputs(rules, exprs, leaf, e, n - 1);
      var v := InputsOf(exprs[e])[n - 1];
      assert VarOk(exprs, v, e);
      var shapes := Infer(rules, exprs, leaf, v.expr);
      if before.None? || shapes.None? then None else Some(before.value + [shapes.value[v.index]])
  }

  // --- The state ---

  /** `leaf` are the shapes of the leaves, `info` the stored shapes, `dirty` is `mInfoDirty`, `valid` is `mValid`. */
  datatype State = State(
    exprs: seq<Expr>,
    to: seq<seq<nat>>,
    leaf: seq<Shape>,
    info: seq<seq<Shape>>,
    dirty: seq<bool>,
    valid: seq<bool>)

  ghost predicate Sized(s: State)
  {
    && |s.leaf| == |s.info| == |s.dirty| == |s.valid| == |s.exprs|
    && GraphOk(s.exprs) && LinksOk(s.exprs, s.to)
    && forall e :: 0 <= e < |s.exprs| ==> |s.info[e]| == Outputs(s.exprs[e])
  }

  predicate InputsClean(s: State, e: nat)
    requires Sized(s) && e < |s.exprs|
  {
    forall k :: 0 <= k < |InputsOf(s.exprs[e])| ==>
      VarOk(s.exprs, InputsOf(s.exprs[e])[k], e) && !s.dirty[InputsOf(s.exprs[e])[k].expr]
  }

  function ShapeOf(rules: Rules, s: State, v: Var): Shape
  {
    if v.expr < |s.info| && v.index < |s.info[v.expr]| then s.info[v.expr][v.index] else rules.unknown
  }

  /** The stored shapes of the first `n` inputs. */
  function Stored(rules: Rules, s: State, inputs: seq<Var>, n: nat): (r: seq<Shape>)
    requires n <= |inputs|
    ensures |r| == n && forall k :: 0 <= k < n ==> r[k] == ShapeOf(rules, s, inputs[k])
  {
    seq(n, k requires 0 <= k < n => ShapeOf(rules, s, inputs[k]))
  }

  predicate Solved(rules: Rules, s: State, e: nat)
    requires Sized(s) && e < |s.exprs|
  {
    match s.exprs[e]
    case Leaf(_) => s.info[e] == [s.leaf[e]]
    case Op(op, inputs, n) =>
      InputsClean(s, e) && Computed(rules, op, Stored(rules, s, inputs, |inputs|), n) == Some(s.info[e])
  }

  /** An op whose inputs are clean and whose own rule fails. */
  ghost predicate Fails(rules: Rules, s: State, e: nat)
    requires Sized(s) && e < |s.exprs| && s.exprs[e].Op?
  {
    InputsClean(s, e) &&
    Computed(rules, s.exprs[e].op, Stored(rules, s, s.exprs[e].inputs, |s.exprs[e].inputs|), s.exprs[e].outputs).None?
  }

  ghost predicate HasInvalidInput(s: State, e: nat)
    requires Sized(s) && e < |s.exprs|
  {
    exists k :: 0 <= k < |InputsOf(s.exprs[e])| && VarOk(s.exprs, InputsOf(s.exprs[e])[k], e)
                && !s.valid[InputsOf(s.exprs[e])[k].expr]
  }

  /** Clean expressions are solved from clean inputs, and invalid ones have a reason. */
  ghost predicate ExprInv(rules: Rules, s: State, e: nat)
    requires Sized(s) && e < |s.exprs|
  {
    && (s.exprs[e].Leaf? ==> !s.dirty[e])
    && (!s.dirty[e] ==> s.valid[e] && Solved(rules, s, e))
    && (!s.valid[e] ==> s.exprs[e].Op? && (Fails(rules, s, e) || HasInvalidInput(s, e)))
  }

  ghost predicate Inv(rules: Rules, s: State)
  {
    Sized(s) && forall e :: 0 <= e < |s.exprs| ==> ExprInv(rules, s, e)
  }

  // --- What the flags mean ---

  /** A clean expression stores what plain inference gives. */
  lemma {:induction false} CleanIsInferred(rules: Rules, s: State, e: nat)
    requires Inv(rules, s) && e < |s.exprs| && !s.dirty[e]
    ensures Infer(rules, s.exprs, s.leaf, e) == Some(s.info[e])
    decreases e, 1, 0
  {
    assert ExprInv(rules, s, e);
    if s.exprs[e].Op? {
      StoredIsInferred(rules, s, e, |s.exprs[e].inputs|);
    }
  }

  lemma {:induction false} StoredIsInferred(rules: Rules, s: State, e: nat, n: nat)
    requires Inv(rules, s) && e < |s.exprs| && n <= |InputsOf(s.exprs[e])| && InputsClean(s, e)
    ensures InferInputs(rules, s.exprs, s.leaf, e, n) == Some(Stored(rules, s, InputsOf(s.exprs[e]), n))
    decreases e, 0, n
  {
    if n > 0 {
      var v := InputsOf(s.exprs[e])[n - 1];
      assert VarOk(s.exprs, v, e) && !s.dirty[v.expr];
      StoredIsInferred(rules, s, e, n - 1);
      CleanIsInferred(rules, s, v.expr);
      assert Stored(rules, s, InputsOf(s.exprs[e]), n) ==
               Stored(rules, s, InputsOf(s.exprs[e]), n - 1) + [ShapeOf(rules, s, v)];
    }
  }

  /** Plain inference fails as soon as one input does. */
  lemma {:induction false} InputFails(rules: Rules, exprs: seq<Expr>, leaf: seq<Shape>, e: nat, n: nat, k: nat)
    requires GraphOk(exprs) && |leaf| == |exprs| && e < |exprs| && k < n <= |InputsOf(exprs[e])|
    requires VarOk(exprs, InputsOf(exprs[e])[k], e) && Infer(rules, exprs, leaf, InputsOf(exprs[e])[k].expr).None?
    ensures InferInputs(rules, exprs, leaf, e, n).None?
    decreases n
  {
    if k < n - 1 {
      InputFails(rules, exprs, leaf, e, n - 1, k);
    }
  }

  /** Inference fails for an invalid expression. */
  lemma {:induction false} InvalidFails(rules: Rules, s: State, e: nat)
    requires Inv(rules, s) && e < |s.exprs| && !s.valid[e]
    ensures Infer(rules, s.exprs, s.leaf, e).None?
    decreases e
  {
    assert ExprInv(rules, s, e);
    if Fails(rules, s, e) {
      StoredIsInferred(rules, s, e, |s.exprs[e].inputs|);
    } else {
      var k :| 0 <= k < |InputsOf(s.exprs[e])| && VarOk(s.exprs, InputsOf(s.exprs[e])[k], e)
               && !s.valid[InputsOf(s.exprs[e])[k].expr];
      InvalidFails(rules, s, InputsOf(s.exprs[e])[k].expr);
      InputFails(rules, s.exprs, s.leaf, e, |InputsOf(s.exprs[e])|, k);
    }
  }

  // --- Adding an expression ---

  function Added(s: State, e: Expr, to': seq<seq<nat>>, leaf: Shape, info: seq<Shape>): State
  {
    State(s.exprs + [e], to' + [[]], s.leaf + [leaf], s.info + [info], s.dirty + [e.Op?], s.valid + [true])
  }

  lemma AddKeeps(rules: Rules, s: State, e: Expr, to': seq<seq<nat>>, leaf: Shape, info: seq<Shape>)
    requires Inv(rules, s) && Fits(s.exprs, e) && Linked(s.to, to', InputsOf(e), |s.exprs|)
    requires |info| == Outputs(e) && (e.Leaf? ==> info == [leaf])
    ensures Inv(rules, Added(s, e, to', leaf, info))
  {
    var s' := Added(s, e, to', leaf, info);
    GraphGrows(s.exprs, e);
    LinksGrow(s.exprs, s.to, e, to');
    forall x: nat | x < |s'.exprs|
      ensures ExprInv(rules, s', x)
    {
      if x < |s.exprs| {
        assert ExprInv(rules, s, x);
        assert ExprOk(s.exprs, x);
        Unmoved(rules, s, s', x);
      }
    }
  }

  /** `x` and its inputs look the same in both states. */
  ghost predicate SameAt(s: State, s': State, x: nat)
    requires Sized(s) && Sized(s') && x < |s.exprs|
  {
    && x < |s'.exprs| && s'.exprs[x] == s.exprs[x] && s'.leaf[x] == s.leaf[x] && s'.info[x] == s.info[x]
    && s'.dirty[x] == s.dirty[x] && s'.valid[x] == s.valid[x]
  }

  lemma Unmoved(rules: Rules, s: State, s': State, x: nat)
    requires Sized(s) && Sized(s') && x < |s.exprs| && ExprInv(rules, s, x) && SameAt(s, s', x)
    requires forall k :: 0 <= k < |InputsOf(s.exprs[x])| ==>
               VarOk(s.exprs, InputsOf(s.exprs[x])[k], x) && SameAt(s, s', InputsOf(s.exprs[x])[k].expr)
    ensures ExprInv(rules, s', x)
  {
    var inputs := InputsOf(s.exprs[x]);
    forall k | 0 <= k < |inputs|
      ensures VarOk(s'.exprs, inputs[k], x) && SameAt(s, s', inputs[k].expr)
    {
    }
    assert InputsClean(s, x) ==>
             InputsClean(s', x) && Stored(rules, s', inputs, |inputs|) == Stored(rules, s, inputs, |inputs|);
    if HasInvalidInput(s, x) {
      var k :| 0 <= k < |inputs| && VarOk(s.exprs, inputs[k], x) && !s.valid[inputs[k].expr];
      assert !s'.valid[inputs[k].expr];
    }
  }
}
