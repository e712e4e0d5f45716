/** The consumer lists that every expression keeps, and `Expr::_addLinkForInputs`. */
module Links {
  import opened ExprGraph

  ghost predicate UsesDirectly(inputs: seq<Var>, y: nat)
  {
    exists i :: 0 <= i < |inputs| && inputs[i].expr == y
  }

  /** `x` is listed as a consumer of `y` exactly when it uses it. */
  ghost predicate LinkOk(exprs: seq<Expr>, to: seq<seq<nat>>, x: nat, y: nat)
    requires y < |to|
  {
    x in to[y] <==> x < |exprs| && UsesDirectly(InputsOf(exprs[x]), y)
  }

  ghost predicate LinksOk(exprs: seq<Expr>, to: seq<seq<nat>>)
  {
    |to| == |exprs| && forall x: nat, y: nat :: y < |to| ==> LinkOk(exprs, to, x, y)
  }

  /** Consumers come later and depend on what they consume. */
  lemma ConsumerIsAbove(exprs: seq<Expr>, to: seq<seq<nat>>, e: nat, x: nat)
    requires GraphOk(exprs) && LinksOk(exprs, to) && e < |exprs| && x in to[e]
    ensures e < x < |exprs| && exprs[x].Op? && UsesDirectly(exprs[x].inputs, e) && DependsOn(exprs, x, e)
  {
    assert LinkOk(exprs, to, x, e);
    var i :| 0 <= i < |InputsOf(exprs[x])| && InputsOf(exprs[x])[i].expr == e;
    assert ExprOk(exprs, x) && VarOk(exprs, exprs[x].inputs[i], x);
    DependsOnInput(exprs, x, i);
  }

  lemma InputIsLinked(exprs: seq<Expr>, to: seq<seq<nat>>, e: nat, i: nat)
    requires GraphOk(exprs) && LinksOk(exprs, to) && e < |exprs| && i < |InputsOf(exprs[e])|
    ensures InputsOf(exprs[e])[i].expr < e && e in to[InputsOf(exprs[e])[i].expr]
  {
    assert ExprOk(exprs, e) && VarOk(exprs, InputsOf(exprs[e])[i], e);
    assert LinkOk(exprs, to, e, InputsOf(exprs[e])[i].expr);
  }

  // --- Adding an expression ---

  /** `n` has been added to the consumers of each of `inputs`. */
  ghost predicate Linked(to: seq<seq<nat>>, to': seq<seq<nat>>, inputs: seq<Var>, n: nat)
  {
    && |to'| == |to|
    && forall x: nat, y: nat :: y < |to| ==> (x in to'[y] <==> x in to[y] || (x == n && UsesDirectly(inputs, y)))
  }

  lemma UsesStep(inputs: seq<Var>, i: nat, e: nat)
    requires i < |inputs|
    ensures UsesDirectly(inputs[..i + 1], e) <==> UsesDirectly(inputs[..i], e) || inputs[i].expr == e
  {
    if UsesDirectly(inputs[..i], e) {
      var k :| 0 <= k < i && inputs[..i][k].expr == e;
      assert inputs[..i + 1][k].expr == e;
    }
    if inputs[i].expr == e {
      assert inputs[..i + 1][i].expr == e;
    }
    if UsesDirectly(inputs[..i + 1], e) {
      var k :| 0 <= k < i + 1 && inputs[..i + 1][k].expr == e;
      assert k < i ==> inputs[..i][k].expr == e;
    }
  }

  lemma LinkOne(to0: seq<seq<nat>>, to: seq<seq<nat>>, inputs: seq<Var>, i: nat, n: nat)
    requires i < |inputs| && Linked(to0, to, inputs[..i], n) && inputs[i].expr < |to|
    ensures Linked(to0, to[inputs[i].expr := to[inputs[i].expr] + [n]], inputs[..i + 1], n)
  {
    var y0 := inputs[i].expr;
    var to' := to[y0 := to[y0] + [n]];
    forall x: nat, y: nat | y < |to0|
      ensures x in to'[y] <==> x in to0[y] || (x == n && UsesDirectly(inputs[..i + 1], y))
    {
      assert x in to[y] <==> x in to0[y] || (x == n && UsesDirectly(inputs[..i], y));
      UsesStep(inputs, i, y);
    }
  }

  method AddLinks(to: seq<seq<nat>>, inputs: seq<Var>, n: nat) returns (to': seq<seq<nat>>)
    requires forall i :: 0 <= i < |inputs| ==> inputs[i].expr < |to|
    ensures Linked(to, to', inputs, n)
  {
    to' := to;
    for i := 0 to |inputs|
      invariant Linked(to, to', inputs[..i], n)
    {
      var y := inputs[i].expr;
      LinkOne(to, to', inputs, i, n);
      to' := to'[y := to'[y] + [n]];
    }
    assert inputs[..|inputs|] == inputs;
  }

  /** The inputs of `e` exist. */
  ghost predicate Fits(exprs: seq<Expr>, e: Expr)
  {
    forall i :: 0 <= i < |InputsOf(e)| ==> VarOk(exprs, InputsOf(e)[i], |exprs|)
  }

  lemma GraphGrows(exprs: seq<Expr>, e: Expr)
    requires GraphOk(exprs) && Fits(exprs, e)
    ensures GraphOk(exprs + [e])
  {
    var exprs' := exprs + [e];
    forall k: nat | k < |exprs'|
      ensures ExprOk(exprs', k)
    {
      if k < |exprs| {
        assert ExprOk(exprs, k);
      } else {
        assert exprs'[k] == e;
        assert e.Op? ==> e.inputs == InputsOf(e);
      }
    }
  }

  lemma NewestUnused(exprs: seq<Expr>, x: nat)
    requires GraphOk(exprs) && x < |exprs|
    ensures !UsesDirectly(InputsOf(exprs[x]), |exprs| - 1)
  {
    assert ExprOk(exprs, x);
  }

  /** The lists stay right when an expression is added. */
  lemma LinksGrow(exprs: seq<Expr>, to: seq<seq<nat>>, e: Expr, to': seq<seq<nat>>)
    requires GraphOk(exprs) && LinksOk(exprs, to) && Fits(exprs, e) && Linked(to, to', InputsOf(e), |exprs|)
    ensures LinksOk(exprs + [e], to' + [[]])
  {
    var n, all, links := |exprs|, exprs + [e], to' + [[]];
    GraphGrows(exprs, e);
    forall x: nat, y: nat | y < |links|
      ensures LinkOk(all, links, x, y)
    {
      if y < n {
        assert links[y] == to'[y];
        assert x in to'[y] <==> x in to[y] || (x == n && UsesDirectly(InputsOf(e), y));
        assert LinkOk(exprs, to, x, y);
        assert x < n ==> all[x] == exprs[x];
      } else if x < |all| {
        NewestUnused(all, x);
      }
    }
  }
}
