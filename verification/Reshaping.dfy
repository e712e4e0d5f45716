/** What happens to shapes: `Expr::requireInfo` makes them known, and the resize of a leaf forgets the shapes and
    the caches of everything that depends on it. */
module Reshaping {
  import opened Wrappers
  import opened ExprGraph
  import opened Caches

  // --- Requiring shapes ---

  /** `e` and everything that it depends on has its shape. */
  ghost predicate Informed(s: State, s': State, e: nat)
    requires Sized(s)
  {
    && s' == s.(infoDirty := s'.infoDirty) && |s'.infoDirty| == |s.infoDirty|
    && forall x: nat :: x < |s.exprs| ==> s'.infoDirty[x] == (s.infoDirty[x] && !DependsOn(s.exprs, e, x))
  }

  lemma InformedInputs(s: State, s': State, e: nat, x: nat)
    requires Structure(s) && Informed(s, s', e) && Sized(s') && x < |s.exprs|
    ensures InfoOk(s', x)
  {
    assert InfoOk(s, x);
    assert ExprOk(s.exprs, x);
    forall i | 0 <= i < |InputsOf(s.exprs[x])| && !s'.infoDirty[x]
      ensures InfoClean(s', InputsOf(s.exprs[x])[i].expr)
    {
      var y := InputsOf(s.exprs[x])[i].expr;
      assert !s.infoDirty[x] ==> InfoClean(s, y);
      if DependsOn(s.exprs, e, x) {
        DependsOnInput(s.exprs, x, i);
        DependsTrans(s.exprs, e, x, y);
      }
    }
  }

  lemma InformKeeps(sem: Semantics, s: State, s': State, e: nat)
    requires Inv(sem, s) && Informed(s, s', e)
    ensures Inv(sem, s')
  {
    forall c | 0 <= c < |s.caches|
      ensures SameCache(s.caches[c], s'.caches[c])
    {
      assert CacheOk(s, c);
    }
    forall x: nat | x < |s'.exprs|
      ensures InfoOk(s', x)
    {
      InformedInputs(s, s', e, x);
    }
    LayoutKeeps(s, s');
    forall c: nat | c < |s'.caches| && !s'.caches[c].contentDirty
      ensures Right(sem, s', c)
    {
      assert Right(sem, s, c);
      RightStays(sem, s, s', c, s.caches[c].tensors, |s.caches[c].pipeline|);
    }
  }

  /** What has its shape has all its inputs' shapes. */
  lemma {:induction false} CleanBelow(s: State, e: nat, x: nat)
    requires Structure(s) && InfoClean(s, e) && DependsOn(s.exprs, e, x)
    ensures InfoClean(s, x)
    decreases e
  {
    if x != e {
      assert InfoOk(s, e) && ExprOk(s.exprs, e);
      var i :| 0 <= i < |s.exprs[e].inputs| && DependsOn(s.exprs, s.exprs[e].inputs[i].expr, x);
      assert InfoClean(s, InputsOf(s.exprs[e])[i].expr);
      CleanBelow(s, s.exprs[e].inputs[i].expr, x);
    }
  }

  lemma AlreadyInformed(s: State, e: nat)
    requires Structure(s) && InfoClean(s, e)
    ensures Informed(s, s, e)
  {
    forall x: nat | x < |s.exprs|
      ensures s.infoDirty[x] == (s.infoDirty[x] && !DependsOn(s.exprs, e, x))
    {
      if DependsOn(s.exprs, e, x) {
        CleanBelow(s, e, x);
      }
    }
  }

  /** One of the first `n` inputs of `e` depends on `x`. */
  ghost predicate UsedBy(exprs: seq<Expr>, e: nat, n: nat, x: nat)
    requires GraphOk(exprs) && e < |exprs| && n <= |InputsOf(exprs[e])|
  {
    exists k :: 0 <= k < n && DependsOn(exprs, InputsOf(exprs[e])[k].expr, x)
  }

  /** The first `n` inputs of `e` have their shapes. */
  ghost predicate InformedUpTo(s: State, s': State, e: nat, n: nat)
    requires Sized(s) && e < |s.exprs| && n <= |InputsOf(s.exprs[e])|
  {
    && s' == s.(infoDirty := s'.infoDirty) && |s'.infoDirty| == |s.infoDirty|
    && forall x: nat :: x < |s.exprs| ==> s'.infoDirty[x] == (s.infoDirty[x] && !UsedBy(s.exprs, e, n, x))
  }

  lemma InformOneMore(s: State, s1: State, s2: State, e: nat, n: nat)
    requires Sized(s) && e < |s.exprs| && n < |InputsOf(s.exprs[e])| && InformedUpTo(s, s1, e, n)
    requires Sized(s1) && Informed(s1, s2, InputsOf(s.exprs[e])[n].expr)
    ensures InformedUpTo(s, s2, e, n + 1)
  {
    forall x: nat | x < |s.exprs|
      ensures UsedBy(s.exprs, e, n + 1, x) <==>
              UsedBy(s.exprs, e, n, x) || DependsOn(s.exprs, InputsOf(s.exprs[e])[n].expr, x)
    {
    }
  }

  /** After its inputs, `e` itself. */
  lemma InformLast(s: State, s1: State, e: nat)
    requires Structure(s) && e < |s.exprs| && s.exprs[e].Op? && InformedUpTo(s, s1, e, |s.exprs[e].inputs|)
    ensures Informed(s, s1.(infoDirty := s1.infoDirty[e := false]), e)
  {
    assert ExprOk(s.exprs, e);
    forall x: nat | x < |s.exprs|
      ensures DependsOn(s.exprs, e, x) <==> x == e || UsedBy(s.exprs, e, |s.exprs[e].inputs|, x)
    {
      if UsedBy(s.exprs, e, |s.exprs[e].inputs|, x) {
        assert UsesDependent(s.exprs, e, x);
      }
    }
  }

  // --- Resizing a leaf ---

  /** Everything in `gone` has forgotten its shape and left its cache. */
  function Forgotten(s: State, gone: set<nat>): (r: State)
    ensures r.exprs == s.exprs && r.content == s.content && r.unwritten == s.unwritten
    ensures r.offset == s.offset && r.to == s.to && r.caches == s.caches
    ensures |r.infoDirty| == |s.infoDirty| && |r.home| == |s.home|
    ensures forall e :: 0 <= e < |r.infoDirty| ==> r.infoDirty[e] == (s.infoDirty[e] || e in gone)
    ensures forall e :: 0 <= e < |r.home| ==> r.home[e] == if e in gone then None else s.home[e]
  {
    s.(infoDirty := seq(|s.infoDirty|, e requires 0 <= e < |s.infoDirty| => s.infoDirty[e] || e in gone),
       home := seq(|s.home|, e requires 0 <= e < |s.home| => if e in gone then None else s.home[e]))
  }

  /** The leaf has new memory, with whatever happens to be there, and counts as unwritten. */
  function Reshaped(s: State, l: nat, x: Value, gone: set<nat>): State
    requires l < |s.content| && l < |s.unwritten|
  {
    Forgotten(s.(content := s.content[l := x], unwritten := s.unwritten[l := true]), gone)
  }

  /** The consumers of `l`, direct or not, and what had no shape before. */
  ghost predicate AllForget(s: State, gone: set<nat>, l: nat)
    requires Sized(s)
  {
    forall e: nat :: e < |s.exprs| ==> (e in gone <==> s.infoDirty[e] || (e != l && DependsOn(s.exprs, e, l)))
  }

  /** What still lives in a cache does not depend on the resized leaf, nor does anything that it needs. */
  lemma StillRooted(s: State, l: nat, x: Value, gone: set<nat>, c: nat, e: nat)
    requires Structure(s) && l < |s.exprs| && s.exprs[l].Leaf? && AllForget(s, gone, l)
    requires Sized(Reshaped(s, l, x, gone)) && Rooted(Reshaped(s, l, x, gone), c, e)
    ensures Rooted(s, c, e) && !DependsOn(s.exprs, e, l)
  {
    var s' := Reshaped(s, l, x, gone);
    var r :| 0 <= r < |s.exprs| && s'.home[r] == Some(c) && DependsOn(s.exprs, r, e);
    assert s.home[r] == Some(c) && r !in gone;
    assert HomeOk(s, r);
    if DependsOn(s.exprs, e, l) {
      DependsTrans(s.exprs, r, e, l);
    }
  }

  /** A variable that does not depend on the leaf is still found in the same place. */
  lemma ReshapedRef(s: State, l: nat, x: Value, gone: set<nat>, cin: seq<nat>, inside: set<nat>, pipe: seq<Entry>,
                    j: nat, ref: Ref, v: Var)
    requires Structure(s) && l < |s.exprs| && AllForget(s, gone, l) && Sized(Reshaped(s, l, x, gone))
    requires RefOk(s, cin, inside, pipe, j, ref, v) && !DependsOn(s.exprs, v.expr, l)
    ensures RefOk(Reshaped(s, l, x, gone), cin, inside, pipe, j, ref, v)
  {
    assert InfoOk(s, v.expr);
  }

  lemma ReshapedCache(s: State, l: nat, x: Value, gone: set<nat>, c: nat)
    requires Structure(s) && l < |s.exprs| && s.exprs[l].Leaf? && AllForget(s, gone, l)
    requires Sized(Reshaped(s, l, x, gone)) && c < |s.caches|
    ensures CacheOk(Reshaped(s, l, x, gone), c)
  {
    var s', a := Reshaped(s, l, x, gone), s.caches[c];
    assert CacheOk(s, c);
    forall j: nat | j < |a.pipeline|
      ensures LiveEntryOk(s', c, j)
    {
      var e := a.pipeline[j];
      assert LiveEntryOk(s, c, j);
      if Rooted(s', c, e.expr) {
        StillRooted(s, l, x, gone, c, e.expr);
        forall i | 0 <= i < |e.inputs|
          ensures RefOk(s', a.inputs, a.inside, a.pipeline, j, e.inputs[i], s'.exprs[e.expr].inputs[i])
        {
          assert RefOk(s, a.inputs, a.inside, a.pipeline, j, e.inputs[i], s.exprs[e.expr].inputs[i]);
          InputIndependent(s.exprs, e.expr, l, i);
          ReshapedRef(s, l, x, gone, a.inputs, a.inside, a.pipeline, j, e.inputs[i], s.exprs[e.expr].inputs[i]);
        }
      }
    }
  }

  lemma ReshapedHome(s: State, l: nat, x: Value, gone: set<nat>, e: nat)
    requires Structure(s) && l < |s.exprs| && s.exprs[l].Leaf? && AllForget(s, gone, l)
    requires Sized(Reshaped(s, l, x, gone)) && e < |s.exprs|
    ensures HomeOk(Reshaped(s, l, x, gone), e) && InfoOk(Reshaped(s, l, x, gone), e)
  {
    var s' := Reshaped(s, l, x, gone);
    assert HomeOk(s, e) && InfoOk(s, e);
    if s'.home[e].Some? {
      var j: nat :| HomeEntry(s, e, s.home[e].value, j);
      assert HomeEntry(s', e, s.home[e].value, j);
    }
    if s.exprs[e].Leaf? && e != l {
      assert !DependsOn(s.exprs, e, l);
    }
    forall i | 0 <= i < |InputsOf(s.exprs[e])| && !s'.infoDirty[e]
      ensures InfoClean(s', InputsOf(s.exprs[e])[i].expr)
    {
      assert e != l && InfoClean(s, InputsOf(s.exprs[e])[i].expr);
      InputIndependent(s.exprs, e, l, i);
    }
  }

  /** A resize keeps every cache right for those that still live in it. */
  lemma ReshapeKeeps(sem: Semantics, s: State, l: nat, x: Value, gone: set<nat>)
    requires Inv(sem, s) && l < |s.exprs| && s.exprs[l].Leaf? && AllForget(s, gone, l)
    ensures Inv(sem, Reshaped(s, l, x, gone))
  {
    var s' := Reshaped(s, l, x, gone);
    assert Sized(s');
    forall c: nat | c < |s.caches|
      ensures CacheOk(s', c) && (!s.caches[c].contentDirty ==> Right(sem, s', c))
    {
      ReshapedCache(s, l, x, gone, c);
      if !s.caches[c].contentDirty {
        ReshapedRight(sem, s, l, x, gone, c);
      }
    }
    forall e: nat | e < |s.exprs|
      ensures HomeOk(s', e) && InfoOk(s', e)
    {
      ReshapedHome(s, l, x, gone, e);
    }
  }

  lemma ReshapedRight(sem: Semantics, s: State, l: nat, x: Value, gone: set<nat>, c: nat)
    requires Inv(sem, s) && l < |s.exprs| && s.exprs[l].Leaf? && AllForget(s, gone, l)
    requires Sized(Reshaped(s, l, x, gone)) && c < |s.caches| && !s.caches[c].contentDirty
    ensures Right(sem, Reshaped(s, l, x, gone), c)
  {
    var s', a := Reshaped(s, l, x, gone), s.caches[c];
    assert Right(sem, s, c);
    forall j: nat | j < |a.pipeline|
      ensures LiveRight(sem, s', c, a.tensors, j)
    {
      assert LiveRight(sem, s, c, a.tensors, j);
      if Rooted(s', c, a.pipeline[j].expr) {
        StillRooted(s, l, x, gone, c, a.pipeline[j].expr);
        EntryUnaffected(sem, s, l, x, a.pipeline[j], a.tensors);
      }
    }
  }
}
