/** The expression graph of the lazy engine and its meaning: plain recursive evaluation on the
    current contents of the leaves. */
module ExprGraph {

  /** Tensor contents: nothing is known about them. */
  type Value(==, !new)

  /** An output of an expression. */
  datatype Var = Var(expr: nat, index: nat)

  /** Leaves have no op: an INPUT can be written, a CONSTANT holds its content from the start. */
  datatype Expr =
    | Leaf(isInput: bool)
    | Op(op: nat, inputs: seq<Var>, outputs: nat)

  datatype Semantics = Semantics(blank: Value, apply: (nat, seq<Value>, nat) -> Value)

  function Outputs(e: Expr): nat
  {
    match e case Leaf(_) => 1 case Op(_, _, n) => n
  }

  function InputsOf(e: Expr): seq<Var>
  {
    if e.Op? then e.inputs else []
  }

  predicate VarOk(exprs: seq<Expr>, v: Var, bound: nat)
  {
    v.expr < bound && v.expr < |exprs| && v.index < Outputs(exprs[v.expr])
  }

  predicate ExprOk(exprs: seq<Expr>, e: nat)
    requires e < |exprs|
  {
    exprs[e].Op? ==> forall i :: 0 <= i < |exprs[e].inputs| ==> VarOk(exprs, exprs[e].inputs[i], e)
  }

  /** An expression only uses variables that existed when it was created. */
  predicate GraphOk(exprs: seq<Expr>)
  {
    forall e :: 0 <= e < |exprs| ==> ExprOk(exprs, e)
  }

  /** Plain recursive evaluation. */
  ghost function Eval(sem: Semantics, exprs: seq<Expr>, content: seq<Value>, v: Var): Value
    requires GraphOk(exprs) && |content| == |exprs| && v.expr < |exprs|
    decreases v.expr, 1, 0
  {
    match exprs[v.expr]
    case Leaf(_) => content[v.expr]
    case Op(op, inputs, _) =>
      assert ExprOk(exprs, v.expr);
      sem.apply(op, InputValues(sem, exprs, content, v.expr, |inputs|), v.index)
  }

  /** The values of the first `n` inputs of `e`. */
  ghost function InputValues(sem: Semantics, exprs: seq<Expr>, content: seq<Value>, e: nat, n: nat): (r: seq<Value>)
    requires GraphOk(exprs) && |content| == |exprs| && e < |exprs| && exprs[e].Op? && n <= |exprs[e].inputs|
    ensures |r| == n
    ensures forall k :: 0 <= k < n ==>
              VarOk(exprs, exprs[e].inputs[k], e) && r[k] == Eval(sem, exprs, content, exprs[e].inputs[k])
    decreases e, 0, n
  {
    if n == 0 then []
    else
      assert ExprOk(exprs, e);
      InputValues(sem, exprs, content, e, n - 1) + [Eval(sem, exprs, content, exprs[e].inputs[n - 1])]
  }

  /** `e` is `l` or uses it, directly or through other expressions. */
  ghost predicate DependsOn(exprs: seq<Expr>, e: nat, l: nat)
    requires GraphOk(exprs)
    decreases e
  {
    e < |exprs| && (e == l || UsesDependent(exprs, e, l))
  }

  ghost predicate UsesDependent(exprs: seq<Expr>, e: nat, l: nat)
    requires GraphOk(exprs) && e < |exprs|
    decreases e, 0
  {
    && exprs[e].Op?
    && exists i :: 0 <= i < |exprs[e].inputs| && ExprOk(exprs, e) && DependsOn(exprs, exprs[e].inputs[i].expr, l)
  }

  lemma {:induction false} DependsDown(exprs: seq<Expr>, e: nat, l: nat)
    requires GraphOk(exprs) && DependsOn(exprs, e, l)
    ensures l <= e
    decreases e
  {
    if e != l {
      assert ExprOk(exprs, e);
      var i :| 0 <= i < |exprs[e].inputs| && DependsOn(exprs, exprs[e].inputs[i].expr, l);
      DependsDown(exprs, exprs[e].inputs[i].expr, l);
    }
  }

  lemma {:induction false} DependsTrans(exprs: seq<Expr>, a: nat, b: nat, c: nat)
    requires GraphOk(exprs) && DependsOn(exprs, a, b) && DependsOn(exprs, b, c)
    ensures DependsOn(exprs, a, c)
    decreases a
  {
    if a != b {
      assert ExprOk(exprs, a);
      var i :| 0 <= i < |exprs[a].inputs| && DependsOn(exprs, exprs[a].inputs[i].expr, b);
      DependsTrans(exprs, exprs[a].inputs[i].expr, b, c);
      assert UsesDependent(exprs, a, c);
    }
  }

  lemma DependsOnInput(exprs: seq<Expr>, e: nat, i: nat)
    requires GraphOk(exprs) && e < |exprs| && exprs[e].Op? && i < |exprs[e].inputs|
    ensures DependsOn(exprs, e, exprs[e].inputs[i].expr)
  {
    assert ExprOk(exprs, e);
    var l := exprs[e].inputs[i].expr;
    assert DependsOn(exprs, l, l);
    assert UsesDependent(exprs, e, l);
  }

  lemma LeafDepends(exprs: seq<Expr>, e: nat, l: nat)
    requires GraphOk(exprs) && DependsOn(exprs, e, l) && exprs[e].Leaf?
    ensures e == l
  {
  }

  lemma InputIndependent(exprs: seq<Expr>, e: nat, l: nat, i: nat)
    requires GraphOk(exprs) && e < |exprs| && exprs[e].Op? && i < |exprs[e].inputs| && !DependsOn(exprs, e, l)
    ensures ExprOk(exprs, e) && !DependsOn(exprs, exprs[e].inputs[i].expr, l)
  {
  }

  /** Evaluation looks only at the expressions and leaf contents below a variable. */
  lemma {:induction false} EvalExtend(
    sem: Semantics, exprs: seq<Expr>, exprs': seq<Expr>, content: seq<Value>, content': seq<Value>, v: Var)
    requires GraphOk(exprs) && GraphOk(exprs') && |content| == |exprs| && |content'| == |exprs'|
    requires exprs <= exprs' && content <= content' && v.expr < |exprs|
    ensures Eval(sem, exprs, content, v) == Eval(sem, exprs', content', v)
    decreases v.expr
  {
    if exprs[v.expr].Op? {
      assert ExprOk(exprs, v.expr);
      var a, b :=
        InputValues(sem, exprs, content, v.expr, |exprs[v.expr].inputs|),
        InputValues(sem, exprs', content', v.expr, |exprs[v.expr].inputs|);
      forall k | 0 <= k < |a|
        ensures a[k] == b[k]
      {
        EvalExtend(sem, exprs, exprs', content, content', exprs[v.expr].inputs[k]);
      }
      assert a == b;
    }
  }

  /** Writing a leaf changes only what depends on it. */
  lemma {:induction false} EvalUnaffected(sem: Semantics, exprs: seq<Expr>, content: seq<Value>, l: nat, x: Value,
                                          v: Var)
    requires GraphOk(exprs) && |content| == |exprs| && v.expr < |exprs| && l < |exprs|
    requires !DependsOn(exprs, v.expr, l)
    ensures Eval(sem, exprs, content[l := x], v) == Eval(sem, exprs, content, v)
    decreases v.expr
  {
    if exprs[v.expr].Op? {
      assert ExprOk(exprs, v.expr);
      var a, b :=
        InputValues(sem, exprs, content, v.expr, |exprs[v.expr].inputs|),
        InputValues(sem, exprs, content[l := x], v.expr, |exprs[v.expr].inputs|);
      forall k | 0 <= k < |a|
        ensures a[k] == b[k]
      {
        InputIndependent(exprs, v.expr, l, k);
        EvalUnaffected(sem, exprs, content, l, x, exprs[v.expr].inputs[k]);
      }
      assert a == b;
    }
  }

  lemma {:induction false} DependsExtend(exprs: seq<Expr>, exprs': seq<Expr>, e: nat, l: nat)
    requires GraphOk(exprs) && GraphOk(exprs') && exprs <= exprs' && e < |exprs|
    ensures DependsOn(exprs, e, l) <==> DependsOn(exprs', e, l)
    decreases e
  {
    if e != l && exprs[e].Op? {
      assert ExprOk(exprs, e) && ExprOk(exprs', e);
      forall i | 0 <= i < |exprs[e].inputs|
        ensures DependsOn(exprs, exprs[e].inputs[i].expr, l) <==> DependsOn(exprs', exprs[e].inputs[i].expr, l)
      {
        DependsExtend(exprs, exprs', exprs[e].inputs[i].expr, l);
      }
      if UsesDependent(exprs, e, l) {
        var i :| 0 <= i < |exprs[e].inputs| && DependsOn(exprs, exprs[e].inputs[i].expr, l);
        assert DependsOn(exprs', exprs'[e].inputs[i].expr, l);
      }
      if UsesDependent(exprs', e, l) {
        var i :| 0 <= i < |exprs'[e].inputs| && DependsOn(exprs', exprs'[e].inputs[i].expr, l);
        assert DependsOn(exprs, exprs[e].inputs[i].expr, l);
      }
    }
  }

  /** Every INPUT leaf below `e` has been written. */
  ghost predicate AllWritten(exprs: seq<Expr>, unwritten: seq<bool>, e: nat)
    requires GraphOk(exprs) && |unwritten| == |exprs|
  {
    forall l: nat :: l < |exprs| && exprs[l] == Leaf(true) && DependsOn(exprs, e, l) ==> !unwritten[l]
  }
}
