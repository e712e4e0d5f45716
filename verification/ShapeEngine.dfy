/** `Expr::requireInfo` and `Variable::resize` as they update the flags and stored shapes, and whole runs of
    them against plain inference. */
module ShapeEngine {
  import opened Wrappers
  import opened ExprGraph
  import opened Links
  import opened ShapeInference
  import opened ShapeWalk

  // --- Storing results ---

  lemma SolveKeeps(rules: Rules, s: State, e: nat, shapes: seq<Shape>)
    requires Inv(rules, s) && e < |s.exprs| && Fresh(s, e) && s.exprs[e].Op? && InputsClean(s, e)
    requires var x := s.exprs[e];
             Computed(rules, x.op, Stored(rules, s, x.inputs, |x.inputs|), x.outputs) == Some(shapes)
    ensures Inv(rules, s.(info := s.info[e := shapes], dirty := s.dirty[e := false]))
  {
    var s' := s.(info := s.info[e := shapes], dirty := s.dirty[e := false]);
    forall x: nat | x < |s.exprs|
      ensures ExprInv(rules, s', x)
    {
      assert ExprInv(rules, s, x);
      assert ExprOk(s.exprs, x);
      InputsStay(rules, s, s', e, x);
    }
  }

  /** Clean inputs are not `e`, so that they and their shapes stay. */
  lemma InputsStay(rules: Rules, s: State, s': State, e: nat, x: nat)
    requires Sized(s) && Sized(s') && s'.exprs == s.exprs && x < |s.exprs| && e < |s.exprs| && s.dirty[e]
    requires forall y: nat :: y < |s.exprs| && y != e ==> s'.dirty[y] == s.dirty[y] && s'.info[y] == s.info[y]
    ensures InputsClean(s, x) ==> InputsClean(s', x)
    ensures InputsClean(s, x) ==> Stored(rules, s', InputsOf(s.exprs[x]), |InputsOf(s.exprs[x])|) ==
                                  Stored(rules, s, InputsOf(s.exprs[x]), |InputsOf(s.exprs[x])|)
  {
    var inputs := InputsOf(s.exprs[x]);
    if InputsClean(s, x) {
      forall k | 0 <= k < |inputs|
        ensures VarOk(s'.exprs, inputs[k], x) && !s'.dirty[inputs[k].expr]
        ensures ShapeOf(rules, s', inputs[k]) == ShapeOf(rules, s, inputs[k])
      {
        assert VarOk(s.exprs, inputs[k], x) && !s.dirty[inputs[k].expr];
      }
    }
  }

  lemma FailKeeps(rules: Rules, s: State, e: nat)
    requires Inv(rules, s) && e < |s.exprs| && Fresh(s, e) && s.exprs[e].Op?
    requires Fails(rules, s, e) || HasInvalidInput(s, e)
    ensures Inv(rules, s.(valid := s.valid[e := false]))
  {
    var s' := s.(valid := s.valid[e := false]);
    forall x: nat | x < |s.exprs|
      ensures ExprInv(rules, s', x)
    {
      assert ExprInv(rules, s, x);
      assert ExprOk(s.exprs, x);
      var inputs := InputsOf(s.exprs[x]);
      InputsStay(rules, s, s', e, x);
      if HasInvalidInput(s, x) {
        var k :| 0 <= k < |inputs| && VarOk(s.exprs, inputs[k], x) && !s.valid[inputs[k].expr];
        assert !s'.valid[inputs[k].expr];
      }
    }
  }

  /** Only expressions up to `e` that were dirty and valid have changed. */
  ghost predicate Progress(s: State, s': State, e: nat)
  {
    && s'.exprs == s.exprs && s'.to == s.to && s'.leaf == s.leaf
    && |s'.info| == |s.info| && |s'.dirty| == |s.dirty| && |s'.valid| == |s.valid|
    && forall x: nat :: x < |s.exprs| && x < |s.info| && x < |s.dirty| && x < |s.valid| && (x > e || !Fresh(s, x)) ==>
         Untouched(s, s', x)
  }

  ghost predicate Untouched(s: State, s': State, x: nat)
    requires x < |s.info| == |s'.info| && x < |s.dirty| == |s'.dirty| && x < |s.valid| == |s'.valid|
  {
    s'.info[x] == s.info[x] && Kept(s, s', x)
  }

  lemma ProgressTrans(a: State, b: State, c: State, y: nat, e: nat)
    requires Sized(a) && Sized(b) && Progress(a, b, e) && Progress(b, c, y) && y <= e
    ensures Progress(a, c, e)
  {
    forall x: nat | x < |a.exprs| && (x > e || !Fresh(a, x))
      ensures Untouched(a, c, x)
    {
      assert Untouched(a, b, x);
      assert Untouched(b, c, x);
    }
  }

  class ShapeEngine {
    const rules: Rules
    var exprs: seq<Expr>
    var to: seq<seq<nat>>
    var leaf: seq<Shape>
    var info: seq<seq<Shape>>
    var dirty: seq<bool>
    var valid: seq<bool>

    function Now(): State
      reads this
    {
      State(exprs, to, leaf, info, dirty, valid)
    }

    ghost predicate Valid()
      reads this
    {
      Inv(rules, Now())
    }

    constructor (rules: Rules)
      ensures Valid() && this.rules == rules && Now() == State([], [], [], [], [], [])
    {
      this.rules := rules;
      exprs, to, leaf, info, dirty, valid := [], [], [], [], [], [];
    }

    method CreateLeaf(isInput: bool, dims: Shape) returns (e: nat)
      requires Valid()
      modifies this
      ensures Valid() && e == |old(exprs)| && exprs == old(exprs) + [Leaf(isInput)] && leaf == old(leaf) + [dims]
    {
      ghost var s := Now();
      e := |exprs|;
      AddKeeps(rules, s, Leaf(isInput), to, dims, [dims]);
      exprs, to, leaf, info := exprs + [Leaf(isInput)], to + [[]], leaf + [dims], info + [[dims]];
      dirty, valid := dirty + [false], valid + [true];
    }

    method CreateOp(op: nat, inputs: seq<Var>, outputs: nat) returns (e: nat)
      requires Valid() && forall i :: 0 <= i < |inputs| ==> VarOk(exprs, inputs[i], |exprs|)
      modifies this
      ensures Valid() && e == |old(exprs)| && exprs == old(exprs) + [Op(op, inputs, outputs)]
      ensures leaf == old(leaf) + [rules.unknown]
    {
      ghost var s := Now();
      e := |exprs|;
      var links := AddLinks(to, inputs, e);
      var blank := seq(outputs, i requires 0 <= i < outputs => rules.unknown);
      AddKeeps(rules, s, Op(op, inputs, outputs), links, rules.unknown, blank);
      exprs, to, leaf, info := exprs + [Op(op, inputs, outputs)], links + [[]], leaf + [rules.unknown], info + [blank];
      dirty, valid := dirty + [true], valid + [true];
    }

    /** The rule of `e` applied to the stored shapes of its inputs. */
    method ComputeInfo(e: nat) returns (r: bool)
      requires Valid() && e < |exprs| && exprs[e].Op? && Fresh(Now(), e) && InputsClean(Now(), e)
      modifies this`info, this`dirty, this`valid
      ensures Valid() && Progress(old(Now()), Now(), e)
      ensures if r then !dirty[e] else !valid[e]
    {
      ghost var s := Now();
      var inputs := exprs[e].inputs;
      var shapes := Computed(rules, exprs[e].op, Stored(rules, Now(), inputs, |inputs|), exprs[e].outputs);
      if shapes.Some? {
        SolveKeeps(rules, s, e, shapes.value);
        info, dirty := info[e := shapes.value], dirty[e := false];
        return true;
      }
      FailKeeps(rules, s, e);
      valid := valid[e := false];
      return false;
    }

    /** The recursive part of `requireInfo`, on an expression that is dirty and valid. */
    method RequireInputs(e: nat) returns (r: bool)
      requires Valid() && e < |exprs| && exprs[e].Op? && Fresh(Now(), e)
      modifies this`info, this`dirty, this`valid
      ensures Valid() && Progress(old(Now()), Now(), e)
      ensures if r then Fresh(Now(), e) && InputsClean(Now(), e) else !valid[e]
      decreases e, 0
    {
      ghost var s := Now();
      var inputs := exprs[e].inputs;
      assert ExprOk(exprs, e);
      for k := 0 to |inputs|
        invariant Valid() && Progress(s, Now(), e) && Fresh(Now(), e)
        invariant exprs == s.exprs && ExprOk(exprs, e)
        invariant forall j :: 0 <= j < k ==> VarOk(exprs, inputs[j], e) && !dirty[inputs[j].expr]
      {
        ghost var before := Now();
        assert VarOk(exprs, inputs[k], e);
        var ok := RequireInfo(inputs[k].expr);
        ProgressTrans(s, before, Now(), inputs[k].expr, e);
        assert Untouched(before, Now(), e);
        if !ok {
          assert InputsOf(exprs[e])[k] == inputs[k] && VarOk(exprs, inputs[k], e) && !valid[inputs[k].expr];
          assert HasInvalidInput(Now(), e);
          ghost var now := Now();
          FailKeeps(rules, now, e);
          valid := valid[e := false];
          ProgressTrans(s, now, Now(), e, e);
          return false;
        }
        forall j | 0 <= j < k
          ensures !dirty[inputs[j].expr]
        {
          assert Untouched(before, Now(), inputs[j].expr);
        }
      }
      return true;
    }

    /** `Expr::requireInfo`: succeeds exactly when plain inference does, and then stores its result. */
    method RequireInfo(e: nat) returns (r: bool)
      requires Valid() && e < |exprs|
      modifies this`info, this`dirty, this`valid
      ensures Valid() && Progress(old(Now()), Now(), e)
      ensures if r then !dirty[e] else !valid[e]
      ensures r <==> Infer(rules, exprs, leaf, e).Some?
      ensures r ==> Infer(rules, exprs, leaf, e) == Some(info[e])
      decreases e, 1
    {
      ghost var s := Now();
      if !dirty[e] {
        CleanIsInferred(rules, s, e);
        return true;
      }
      if !valid[e] {
        InvalidFails(rules, s, e);
        return false;
      }
      assert ExprInv(rules, s, e);
      r := RequireInputs(e);
      if r {
        ghost var before := Now();
        r := ComputeInfo(e);
        ProgressTrans(s, before, Now(), e, e);
      }
      if r {
        CleanIsInferred(rules, Now(), e);
      } else {
        InvalidFails(rules, Now(), e);
      }
    }

    // --- Resizing ---

    /** `Expr::setInfoDirty`. */
    method SetInfoDirty(x: nat) returns (again: bool)
      requires x < |dirty| && x < |valid|
      modifies this`dirty, this`valid
      ensures again == !old(Fresh(Now(), x)) && Now() == SetDirty(old(Now()), x)
    {
      if dirty[x] && valid[x] {
        return false;
      }
      dirty, valid := dirty[x := true], valid[x := true];
      return true;
    }

    /** A consumer `x` of `e` is offered to `setInfoDirty` at each position where it uses `e`, until that
        asks to go on. */
    method Offer(e: nat, x: nat) returns (again: bool)
      requires x < |exprs| && x < |dirty| && x < |valid| && UsesDirectly(InputsOf(exprs[x]), e)
      modifies this`dirty, this`valid
      ensures again == !old(Fresh(Now(), x)) && Now() == SetDirty(old(Now()), x)
    {
      ghost var s := Now();
      again := false;
      var inputs := InputsOf(exprs[x]);
      for i := 0 to |inputs|
        invariant Now() == if UsesDirectly(inputs[..i], e) then SetDirty(s, x) else s
        invariant again == (UsesDirectly(inputs[..i], e) && !Fresh(s, x))
      {
        UsesStep(inputs, i, e);
        if inputs[i].expr == e && !again {
          again := SetInfoDirty(x);
        }
      }
      assert inputs[..|inputs|] == inputs;
    }

    /** `Expr::visitOutputs` with `setInfoDirty`. */
    method VisitOutputs(e: nat)
      requires Sized(Now()) && e < |exprs|
      modifies this`dirty, this`valid
      ensures Sized(Now()) && Walked(old(Now()), Now(), e) && ConsumersFresh(Now(), e)
      decreases |exprs| - e
    {
      ghost var s := Now();
      for k := 0 to |to[e]|
        invariant Sized(Now()) && Walked(s, Now(), e)
        invariant forall j :: 0 <= j < k ==> Fresh(Now(), to[e][j])
      {
        var x := to[e][k];
        ghost var before := Now();
        ConsumerIsAbove(exprs, to, e, x);
        var recurse := Offer(e, x);
        ghost var marked := Now();
        if recurse {
          VisitOutputs(x);
          WalkedThrough(s, before, Now(), e, x);
          StillFresh(before, Now(), to[e][..k], x);
        } else {
          assert Now() == before;
        }
      }
    }

    /** `Variable::resize`. The test for "not from input" never stops an op, because every op that is not a
        constant has the type INPUT. */
    method ResizeVar(e: nat, dims: Shape)
      requires Valid() && Resizable(Now(), e)
      modifies this`leaf, this`info, this`dirty, this`valid
      ensures Sized(Now())
      ensures old(info)[e][0] == dims ==> Now() == old(Now())
      ensures old(info)[e][0] != dims ==>
                Walked(Resize(old(Now()), e, dims), Now(), e) && ConsumersFresh(Now(), e)
      ensures old(info)[e][0] != dims ==>
                (Valid() <==> exprs[e].Leaf? || Solved(rules, Resize(old(Now()), e, dims), e))
      ensures exprs[e].Leaf? ==> Valid() && leaf == old(leaf)[e := dims]
      ensures exprs[e].Leaf? && old(info)[e][0] != dims ==> forall x: nat :: x < |exprs| ==>
                (dirty[x] <==> old(dirty)[x] || (x != e && DependsOn(exprs, x, e)))
    {
      ghost var s := Now();
      assert ExprInv(rules, s, e);
      if info[e][0] == dims {
        return;
      }
      ResizeSized(s, e, dims);
      if exprs[e].Leaf? {
        leaf := leaf[e := dims];
      }
      info, dirty, valid := info[e := info[e][0 := dims]], dirty[e := false], valid[e := true];
      VisitOutputs(e);
      ResizeKeepsIff(rules, s, e, dims, Now());
      if exprs[e].Leaf? {
        PrunedIsFull(rules, s, e, dims, Now());
      }
    }
  }

  lemma StillFresh(s: State, s': State, list: seq<nat>, x: nat)
    requires Sized(s) && x < |s.exprs| && Marked(SetDirty(s, x), s', x) && Sized(SetDirty(s, x))
    requires forall j :: 0 <= j < |list| ==> Fresh(s, list[j]) && list[j] < |s.exprs|
    ensures forall j :: 0 <= j < |list| ==> Fresh(s', list[j])
    ensures Fresh(s', x)
  {
    forall j | 0 <= j < |list|
      ensures Fresh(s', list[j])
    {
      FreshStays(SetDirty(s, x), s', x, list[j]);
    }
    FreshStays(SetDirty(s, x), s', x, x);
  }
}
