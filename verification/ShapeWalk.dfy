/** The invalidation walk behind `Variable::resize`: it stops at expressions that are dirty and valid
    already, and still has the effect of marking all consumers. */
module ShapeWalk {
  import opened ExprGraph
  import opened Links
  import opened ShapeInference

  /** Dirty and valid: where the walk stops. */
  ghost predicate Fresh(s: State, x: nat)
  {
    x < |s.dirty| && x < |s.valid| && s.dirty[x] && s.valid[x]
  }

  ghost predicate Kept(s: State, s': State, x: nat)
    requires x < |s.dirty| == |s'.dirty| && x < |s.valid| == |s'.valid|
  {
    s'.dirty[x] == s.dirty[x] && s'.valid[x] == s.valid[x]
  }

  /** Only flags differ, and whatever changed is now dirty, valid and above `e`. */
  ghost predicate Marked(s: State, s': State, e: nat)
    requires Sized(s)
  {
    && s'.exprs == s.exprs && s'.to == s.to && s'.leaf == s.leaf && s'.info == s.info
    && |s'.dirty| == |s.dirty| && |s'.valid| == |s.valid|
    && forall x: nat :: x < |s.exprs| ==> Kept(s, s', x) || (Fresh(s', x) && e < x && DependsOn(s.exprs, x, e))
  }

  ghost predicate ConsumersFresh(s: State, e: nat)
    requires e < |s.to|
  {
    forall k :: 0 <= k < |s.to[e]| ==> Fresh(s, s.to[e][k])
  }

  /** The consumers of whatever has been marked are marked too. */
  ghost predicate Spread(s: State, s': State)
  {
    forall x: nat :: x < |s'.to| && !Fresh(s, x) && Fresh(s', x) ==> ConsumersFresh(s', x)
  }

  /** The walk from `e` has led from `s` to `s'`. */
  ghost predicate Walked(s: State, s': State, e: nat)
    requires Sized(s)
  {
    Marked(s, s', e) && Spread(s, s')
  }

  function SetDirty(s: State, x: nat): State
    requires x < |s.dirty| && x < |s.valid|
  {
    s.(dirty := s.dirty[x := true], valid := s.valid[x := true])
  }

  lemma FreshStays(s: State, s': State, e: nat, x: nat)
    requires Sized(s) && Marked(s, s', e) && x < |s.exprs| && Fresh(s, x)
    ensures Fresh(s', x)
  {
    assert Kept(s, s', x) || Fresh(s', x);
  }

  lemma ConsumersStay(s: State, s': State, e: nat, x: nat)
    requires Sized(s) && Marked(s, s', e) && x < |s.exprs| && ConsumersFresh(s, x)
    ensures ConsumersFresh(s', x)
  {
    forall k | 0 <= k < |s'.to[x]|
      ensures Fresh(s', s'.to[x][k])
    {
      ConsumerIsAbove(s.exprs, s.to, x, s.to[x][k]);
      FreshStays(s, s', e, s.to[x][k]);
    }
  }

  lemma MarkedThrough(s0: State, s1: State, s2: State, e: nat, x: nat)
    requires Sized(s0) && Marked(s0, s1, e) && e < x < |s0.exprs| && DependsOn(s0.exprs, x, e)
    requires Sized(s1) && Marked(SetDirty(s1, x), s2, x)
    ensures Marked(s0, s2, e)
  {
    forall y: nat | y < |s0.exprs|
      ensures Kept(s0, s2, y) || (Fresh(s2, y) && e < y && DependsOn(s0.exprs, y, e))
    {
      assert Kept(s0, s1, y) || (Fresh(s1, y) && e < y && DependsOn(s0.exprs, y, e));
      var m := SetDirty(s1, x);
      assert Kept(m, s2, y) || (Fresh(s2, y) && x < y && DependsOn(s0.exprs, y, x));
      if !Kept(m, s2, y) {
        DependsTrans(s0.exprs, y, x, e);
      }
    }
  }

  /** A consumer `x` of `e` was marked and the walk went on from there. */
  lemma WalkedThrough(s0: State, s1: State, s2: State, e: nat, x: nat)
    requires Sized(s0) && Walked(s0, s1, e) && e < x < |s0.exprs| && DependsOn(s0.exprs, x, e)
    requires Sized(s1) && Walked(SetDirty(s1, x), s2, x) && ConsumersFresh(s2, x)
    ensures Walked(s0, s2, e)
  {
    var m := SetDirty(s1, x);
    MarkedThrough(s0, s1, s2, e, x);
    forall y: nat | y < |s2.to| && !Fresh(s0, y) && Fresh(s2, y)
      ensures ConsumersFresh(s2, y)
    {
      if y != x {
        if Fresh(s1, y) {
          assert ConsumersFresh(s1, y);
          ConsumersMarked(s1, x, y);
          ConsumersStay(m, s2, x, y);
        } else {
          assert !Fresh(m, y);
        }
      }
    }
  }

  lemma ConsumersMarked(s: State, x: nat, y: nat)
    requires Sized(s) && x < |s.exprs| && y < |s.exprs| && ConsumersFresh(s, y)
    ensures ConsumersFresh(SetDirty(s, x), y)
  {
    var m := SetDirty(s, x);
    forall k | 0 <= k < |m.to[y]|
      ensures Fresh(m, m.to[y][k])
    {
      assert Fresh(s, s.to[y][k]);
    }
  }

  lemma WalkedSized(s: State, s': State, e: nat)
    requires Sized(s) && Marked(s, s', e)
    ensures Sized(s')
  {
  }

  // --- The effect of a resize ---

  /** The first part of `Variable::resize`. */
  function Resize(s: State, e: nat, dims: Shape): State
    requires e < |s.exprs| == |s.leaf| == |s.info| == |s.dirty| == |s.valid| && |s.info[e]| > 0
  {
    s.(leaf := if s.exprs[e].Leaf? then s.leaf[e := dims] else s.leaf,
       info := s.info[e := s.info[e][0 := dims]],
       dirty := s.dirty[e := false],
       valid := s.valid[e := true])
  }

  ghost predicate Resizable(s: State, e: nat)
  {
    Sized(s) && e < |s.exprs| && |s.info[e]| > 0
  }

  lemma ResizeSized(s: State, e: nat, dims: Shape)
    requires Resizable(s, e)
    ensures Sized(Resize(s, e, dims))
  {
  }

  /** An input of an expression that the walk has left alone is left alone too, and is not `e`. */
  lemma InputLeftAlone(s: State, e: nat, dims: Shape, s': State, x: nat, k: nat)
    requires Resizable(s, e) && Sized(Resize(s, e, dims)) && Walked(Resize(s, e, dims), s', e) && ConsumersFresh(s', e)
    requires x < |s.exprs| && !Fresh(s', x) && k < |InputsOf(s.exprs[x])|
    requires VarOk(s.exprs, InputsOf(s.exprs[x])[k], x)
    requires var y := InputsOf(s.exprs[x])[k].expr; !s.dirty[y] || !s.valid[y]
    ensures var y := InputsOf(s.exprs[x])[k].expr; y != e && Kept(s, s', y) && s'.info[y] == s.info[y]
  {
    var y := InputsOf(s.exprs[x])[k].expr;
    var s1 := Resize(s, e, dims);
    InputIsLinked(s.exprs, s.to, x, k);
    var j :| 0 <= j < |s.to[y]| && s.to[y][j] == x;
    assert Fresh(s', s'.to[y][j]) <==> Fresh(s', x);
    assert !ConsumersFresh(s', y);
    assert y != e;
    assert !Fresh(s1, y);
    assert Kept(s1, s', y);
  }

  lemma OthersKept(rules: Rules, s: State, e: nat, dims: Shape, s': State, x: nat)
    requires Inv(rules, s) && Resizable(s, e) && Sized(Resize(s, e, dims))
    requires Walked(Resize(s, e, dims), s', e) && ConsumersFresh(s', e) && Sized(s')
    requires x < |s.exprs| && x != e
    ensures ExprInv(rules, s', x)
  {
    var s1 := Resize(s, e, dims);
    assert ExprInv(rules, s, x);
    assert Kept(s1, s', x) || (Fresh(s', x) && DependsOn(s.exprs, x, e));
    if !Fresh(s', x) {
      var inputs := InputsOf(s.exprs[x]);
      assert ExprOk(s.exprs, x);
      forall k | 0 <= k < |inputs| && (!s.dirty[inputs[k].expr] || !s.valid[inputs[k].expr])
        ensures inputs[k].expr != e && Kept(s, s', inputs[k].expr) && s'.info[inputs[k].expr] == s.info[inputs[k].expr]
      {
        InputLeftAlone(s, e, dims, s', x, k);
      }
      if InputsClean(s, x) {
        StillClean(rules, s, s', x, e);
      }
      if HasInvalidInput(s, x) {
        var k :| 0 <= k < |inputs| && VarOk(s.exprs, inputs[k], x) && !s.valid[inputs[k].expr];
        assert !s'.valid[inputs[k].expr];
      }
    } else if s.exprs[x].Leaf? {
      NoInputs(s.exprs, x, e);
    }
  }

  lemma NoInputs(exprs: seq<Expr>, x: nat, e: nat)
    requires GraphOk(exprs) && x < |exprs| && exprs[x].Leaf? && x != e
    ensures !DependsOn(exprs, x, e)
  {
  }

  lemma StillClean(rules: Rules, s: State, s': State, x: nat, e: nat)
    requires Sized(s) && Sized(s') && s'.exprs == s.exprs && x < |s.exprs| && InputsClean(s, x)
    requires forall k :: 0 <= k < |InputsOf(s.exprs[x])| && !s.dirty[InputsOf(s.exprs[x])[k].expr] ==>
               Kept(s, s', InputsOf(s.exprs[x])[k].expr)
               && s'.info[InputsOf(s.exprs[x])[k].expr] == s.info[InputsOf(s.exprs[x])[k].expr]
    ensures InputsClean(s', x)
    ensures Stored(rules, s', InputsOf(s.exprs[x]), |InputsOf(s.exprs[x])|) ==
            Stored(rules, s, InputsOf(s.exprs[x]), |InputsOf(s.exprs[x])|)
  {
    var inputs := InputsOf(s.exprs[x]);
    forall k | 0 <= k < |inputs|
      ensures VarOk(s'.exprs, inputs[k], x) && !s'.dirty[inputs[k].expr]
      ensures ShapeOf(rules, s', inputs[k]) == ShapeOf(rules, s, inputs[k])
    {
      assert VarOk(s.exprs, inputs[k], x) && !s.dirty[inputs[k].expr];
    }
  }

  /** A resize keeps the invariant exactly when `e` is a leaf, or an op that computes the new shape from
      clean inputs. */
  lemma ResizeKeepsIff(rules: Rules, s: State, e: nat, dims: Shape, s': State)
    requires Inv(rules, s) && Resizable(s, e) && Sized(Resize(s, e, dims))
    requires Walked(Resize(s, e, dims), s', e) && ConsumersFresh(s', e)
    ensures Inv(rules, s') <==> s.exprs[e].Leaf? || Solved(rules, Resize(s, e, dims), e)
  {
    var s1 := Resize(s, e, dims);
    WalkedSized(s1, s', e);
    forall x: nat | x < |s.exprs| && x != e
      ensures ExprInv(rules, s', x)
    {
      OthersKept(rules, s, e, dims, s', x);
    }
    assert Kept(s1, s', e);
    SolvedBelow(rules, s1, s', e);
    if s.exprs[e].Leaf? {
      assert ExprInv(rules, s, e);
      assert s.info[e] == [s.leaf[e]];
      assert s1.info[e] == [dims];
    }
    assert ExprInv(rules, s', e) <==> Solved(rules, s', e);
  }

  /** What lies below `e` is not touched by the walk. */
  lemma SolvedBelow(rules: Rules, s1: State, s': State, e: nat)
    requires Sized(s1) && Sized(s') && e < |s1.exprs| && Marked(s1, s', e)
    ensures Solved(rules, s', e) <==> Solved(rules, s1, e)
  {
    var inputs := InputsOf(s1.exprs[e]);
    assert ExprOk(s1.exprs, e);
    forall k | 0 <= k < |inputs|
      ensures s'.dirty[inputs[k].expr] == s1.dirty[inputs[k].expr]
      ensures ShapeOf(rules, s', inputs[k]) == ShapeOf(rules, s1, inputs[k])
    {
      assert VarOk(s1.exprs, inputs[k], e);
      assert Kept(s1, s', inputs[k].expr);
    }
    assert InputsClean(s', e) <==> InputsClean(s1, e);
    assert Stored(rules, s', inputs, |inputs|) == Stored(rules, s1, inputs, |inputs|);
  }

  // --- Pruned equals full ---

  /** Clean expressions do not depend on one whose consumers are all dirty. */
  lemma {:induction false} DependentsDirty(rules: Rules, s: State, e: nat, x: nat)
    requires Inv(rules, s) && e < |s.exprs| && ConsumersFresh(s, e)
    requires x < |s.exprs| && x != e && DependsOn(s.exprs, x, e)
    ensures s.dirty[x]
    decreases x
  {
    if !s.dirty[x] {
      assert ExprInv(rules, s, x);
      assert ExprOk(s.exprs, x);
      var k :| 0 <= k < |s.exprs[x].inputs| && DependsOn(s.exprs, s.exprs[x].inputs[k].expr, e);
      var y := s.exprs[x].inputs[k].expr;
      InputIsLinked(s.exprs, s.to, x, k);
      if y != e {
        DependentsDirty(rules, s, e, y);
      }
    }
  }

  /** After resizing a leaf, exactly its consumers have become dirty, however early the walk stopped. */
  lemma PrunedIsFull(rules: Rules, s: State, e: nat, dims: Shape, s': State)
    requires Inv(rules, s) && Resizable(s, e) && s.exprs[e].Leaf? && Sized(Resize(s, e, dims))
    requires Walked(Resize(s, e, dims), s', e) && ConsumersFresh(s', e)
    ensures Inv(rules, s')
    ensures forall x: nat :: x < |s.exprs| ==>
              (s'.dirty[x] <==> s.dirty[x] || (x != e && DependsOn(s.exprs, x, e)))
  {
    ResizeKeepsIff(rules, s, e, dims, s');
    var s1 := Resize(s, e, dims);
    assert ExprInv(rules, s, e);
    forall x: nat | x < |s.exprs|
      ensures s'.dirty[x] <==> s.dirty[x] || (x != e && DependsOn(s.exprs, x, e))
    {
      assert Kept(s1, s', x) || (Fresh(s', x) && e < x && DependsOn(s.exprs, x, e));
      if x != e && DependsOn(s.exprs, x, e) {
        DependentsDirty(rules, s', e, x);
      }
    }
  }
}
