/** Adding an expression or a cache keeps the invariants of the lazy engine. */
module Growth {
  import opened Wrappers
  import opened ExprGraph
  import opened Links
  import opened Caches
  import opened Pipelines
  import opened Waits

  // --- A new expression ---

  /** `s'` is `s` with `e` added as the newest expression. */
  ghost predicate Added(s: State, s': State, e: Expr)
    requires Sized(s)
  {
    && s'.exprs == s.exprs + [e]
    && |s'.content| == |s'.unwritten| == |s'.exprs| && s.content <= s'.content && s'.infoDirty == s.infoDirty + [e.Op?]
    && s'.home == s.home + [None] && s'.offset == s.offset + [0]
    && |s'.to| == |s.to| + 1 && Linked(s.to, s'.to[..|s.to|], InputsOf(e), |s.exprs|) && s'.to[|s.to|] == []
    && s'.caches == s.caches
  }

  lemma AddedCache(s: State, s': State, e: Expr, c: nat)
    requires Structure(s) && Added(s, s', e) && Sized(s') && c < |s.caches|
    ensures CacheOk(s', c)
  {
    var x := s.caches[c];
    assert CacheOk(s, c);
    forall j: nat | j < |x.pipeline|
      ensures LiveEntryOk(s', c, j)
    {
      assert LiveEntryOk(s, c, j);
      if Rooted(s', c, x.pipeline[j].expr) {
        AddedRooted(s, s', e, c, x.pipeline[j].expr);
        AddedEntry(s, s', e, x, j);
      }
    }
  }

  lemma AddedRooted(s: State, s': State, e: Expr, c: nat, x: nat)
    requires Sized(s) && Added(s, s', e) && Sized(s') && Rooted(s', c, x)
    ensures Rooted(s, c, x)
  {
    var r: nat :| r < |s'.exprs| && s'.home[r] == Some(c) && DependsOn(s'.exprs, r, x);
    assert r < |s.exprs| && s.home[r] == Some(c);
    DependsExtend(s.exprs, s'.exprs, r, x);
  }

  lemma AddedEntry(s: State, s': State, e: Expr, x: Cache, j: nat)
    requires Sized(s) && Added(s, s', e) && Sized(s')
    requires j < |x.pipeline| && EntryOk(s, x.inputs, x.inside, x.pipeline, j)
    ensures EntryOk(s', x.inputs, x.inside, x.pipeline, j)
  {
    var a := x.pipeline[j];
    forall i | 0 <= i < |a.inputs|
      ensures RefOk(s', x.inputs, x.inside, x.pipeline, j, a.inputs[i], s'.exprs[a.expr].inputs[i])
    {
      assert RefOk(s, x.inputs, x.inside, x.pipeline, j, a.inputs[i], s.exprs[a.expr].inputs[i]);
    }
  }

  lemma AddedHome(s: State, s': State, e: Expr, x: nat)
    requires Structure(s) && Added(s, s', e) && Sized(s') && x < |s.exprs|
    ensures HomeOk(s', x) && InfoOk(s', x)
  {
    assert HomeOk(s, x) && InfoOk(s, x);
    if s.home[x].Some? {
      var j: nat :| HomeEntry(s, x, s.home[x].value, j);
      assert HomeEntry(s', x, s.home[x].value, j);
    }
    forall i | 0 <= i < |InputsOf(s'.exprs[x])| && !s'.infoDirty[x]
      ensures InfoClean(s', InputsOf(s'.exprs[x])[i].expr)
    {
      assert InfoClean(s, InputsOf(s.exprs[x])[i].expr);
    }
  }

  lemma AddedStructure(s: State, s': State, e: Expr)
    requires Structure(s) && Fits(s.exprs, e) && Added(s, s', e)
    ensures Structure(s')
  {
    GraphGrows(s.exprs, e);
    forall c: nat | c < |s'.caches|
      ensures CacheOk(s', c)
    {
      AddedCache(s, s', e, c);
    }
    forall x: nat | x < |s'.exprs|
      ensures HomeOk(s', x) && InfoOk(s', x)
    {
      if x < |s.exprs| {
        AddedHome(s, s', e, x);
      }
    }
    assert s'.to == s'.to[..|s.to|] + [[]];
    LinksGrow(s.exprs, s.to, e, s'.to[..|s.to|]);
  }

  lemma AddKeeps(sem: Semantics, s: State, s': State, e: Expr)
    requires Inv(sem, s) && Fits(s.exprs, e) && Added(s, s', e)
    ensures Inv(sem, s')
  {
    AddedStructure(s, s', e);
    forall c: nat | c < |s'.caches| && !s'.caches[c].contentDirty
      ensures Right(sem, s', c)
    {
      assert Right(sem, s, c);
      forall j: nat | j < |s.caches[c].pipeline| && Rooted(s', c, s.caches[c].pipeline[j].expr)
        ensures Rooted(s, c, s.caches[c].pipeline[j].expr)
      {
        AddedRooted(s, s', e, c, s.caches[c].pipeline[j].expr);
      }
      StillRight(sem, s, s', c);
    }
  }

  /** A cache that is right stays right when expressions are added. */
  lemma StillRight(sem: Semantics, s: State, s': State, c: nat)
    requires Sized(s) && Sized(s') && s.exprs <= s'.exprs && s.content <= s'.content
    requires c < |s.caches| && c < |s'.caches| && s'.caches[c] == s.caches[c] && Right(sem, s, c)
    requires forall j :: 0 <= j < |s.caches[c].pipeline| && Rooted(s', c, s.caches[c].pipeline[j].expr) ==>
               Rooted(s, c, s.caches[c].pipeline[j].expr)
    ensures Right(sem, s', c)
  {
    var x := s.caches[c];
    forall j: nat | j < |x.pipeline|
      ensures LiveRight(sem, s', c, x.tensors, j)
    {
      assert LiveRight(sem, s, c, x.tensors, j);
      if Rooted(s', c, x.pipeline[j].expr) {
        EntryExtend(sem, s, s', x.pipeline[j], x.tensors);
      }
    }
  }

  lemma EntryExtend(sem: Semantics, s: State, s': State, e: Entry, tensors: seq<Value>)
    requires Sized(s) && Sized(s') && s.exprs <= s'.exprs && s.content <= s'.content && EntryRight(sem, s, e, tensors)
    ensures EntryRight(sem, s', e, tensors)
  {
    forall k: nat | k < e.outputs
      ensures tensors[e.offset + k] == Eval(sem, s'.exprs, s'.content, Var(e.expr, k))
    {
      EvalExtend(sem, s.exprs, s'.exprs, s.content, s'.content, Var(e.expr, k));
    }
  }

  // --- A new cache ---

  function NewCache(sem: Semantics, p: Plan): Cache
  {
    Cache(p.cin, p.inside, p.pipe, seq(p.total, i requires 0 <= i < p.total => sem.blank), true, true)
  }

  /** The cache of a finished plan is appended and becomes the home of the plan's roots. */
  function Cached(sem: Semantics, s: State, p: Plan): State
  {
    s.(home := seq(|s.home|, e requires 0 <= e < |s.home| => if e in p.dst then Some(|s.caches|) else s.home[e]),
       offset := seq(|s.offset|, e requires 0 <= e < |s.offset| => if e in p.dst then p.dst[e] else s.offset[e]),
       caches := s.caches + [NewCache(sem, p)])
  }

  /** The plan is finished: all its roots are scheduled, and their shapes are known. */
  ghost predicate Finished(s: State, roots: set<nat>, p: Plan)
    requires Sized(s)
  {
    PlanOk(s, roots, p) && p.stack == [] && forall r :: r in roots ==> InfoClean(s, r)
  }

  lemma DstPending(s: State, roots: set<nat>, p: Plan, e: nat)
    requires Sized(s) && Finished(s, roots, p) && e in p.dst
    ensures Pending(s, roots, e)
  {
    assert Placed(p.pipe, e, p.dst[e]);
  }

  /** Entries only refer to homes that the new cache leaves alone. */
  lemma CachedEntry(sem: Semantics, s: State, roots: set<nat>, p: Plan, cin: seq<nat>, inside: set<nat>,
                    pipe: seq<Entry>, j: nat)
    requires Sized(s) && Finished(s, roots, p) && j < |pipe| && EntryOk(s, cin, inside, pipe, j)
    ensures EntryOk(Cached(sem, s, p), cin, inside, pipe, j)
  {
    var s' := Cached(sem, s, p);
    var e := pipe[j];
    forall i | 0 <= i < |e.inputs|
      ensures RefOk(s', cin, inside, pipe, j, e.inputs[i], s'.exprs[e.expr].inputs[i])
    {
      var v := s.exprs[e.expr].inputs[i];
      assert RefOk(s, cin, inside, pipe, j, e.inputs[i], v);
      if v.expr in p.dst {
        DstPending(s, roots, p, v.expr);
      }
    }
  }

  lemma CachedOld(sem: Semantics, s: State, roots: set<nat>, p: Plan, c: nat)
    requires Structure(s) && Finished(s, roots, p) && c < |s.caches|
    ensures CacheOk(Cached(sem, s, p), c)
  {
    var s', x := Cached(sem, s, p), s.caches[c];
    assert CacheOk(s, c) && s'.caches[c] == x;
    forall j: nat | j < |x.pipeline|
      ensures LiveEntryOk(s', c, j)
    {
      assert LiveEntryOk(s, c, j);
      if Rooted(s', c, x.pipeline[j].expr) {
        CachedRooted(sem, s, p, c, x.pipeline[j].expr);
        CachedEntry(sem, s, roots, p, x.inputs, x.inside, x.pipeline, j);
      }
    }
  }

  /** What is in an older cache was there before. */
  lemma CachedRooted(sem: Semantics, s: State, p: Plan, c: nat, x: nat)
    requires Sized(s) && c < |s.caches| && Rooted(Cached(sem, s, p), c, x)
    ensures Rooted(s, c, x)
  {
    var r: nat :| r < |s.exprs| && Cached(sem, s, p).home[r] == Some(c) && DependsOn(s.exprs, r, x);
    assert s.home[r] == Some(c);
  }

  lemma CachedNew(sem: Semantics, s: State, roots: set<nat>, p: Plan)
    requires Structure(s) && Finished(s, roots, p)
    ensures CacheOk(Cached(sem, s, p), |s.caches|)
  {
    var s', c := Cached(sem, s, p), |s.caches|;
    var x := s'.caches[c];
    assert x == NewCache(sem, p);
    forall j: nat | j < |x.pipeline|
      ensures LiveEntryOk(s', c, j)
    {
      CachedEntry(sem, s, roots, p, p.cin, p.inside, p.pipe, j);
    }
  }

  lemma CachedHome(sem: Semantics, s: State, roots: set<nat>, p: Plan, e: nat)
    requires Structure(s) && Finished(s, roots, p) && e < |s.exprs|
    ensures HomeOk(Cached(sem, s, p), e) && InfoOk(Cached(sem, s, p), e)
  {
    var s' := Cached(sem, s, p);
    assert HomeOk(s, e) && InfoOk(s, e);
    forall i | 0 <= i < |InputsOf(s.exprs[e])| && !s.infoDirty[e]
      ensures InfoClean(s', InputsOf(s.exprs[e])[i].expr)
    {
      assert InfoClean(s, InputsOf(s.exprs[e])[i].expr);
    }
    if e in p.dst {
      assert InfoClean(s, e);
      DstPending(s, roots, p, e);
      var j: nat :| j < |p.pipe| && p.pipe[j].expr == e && p.pipe[j].offset == p.dst[e];
      assert s'.caches[|s.caches|] == NewCache(sem, p);
      assert HomeEntry(s', e, |s.caches|, j);
    } else if s.home[e].Some? {
      var j: nat :| HomeEntry(s, e, s.home[e].value, j);
      assert HomeEntry(s', e, s.home[e].value, j);
    }
  }

  lemma CachedCaches(sem: Semantics, s: State, roots: set<nat>, p: Plan)
    requires Structure(s) && Finished(s, roots, p)
    ensures forall c :: 0 <= c <= |s.caches| ==> CacheOk(Cached(sem, s, p), c)
  {
    forall c: nat | c <= |s.caches|
      ensures CacheOk(Cached(sem, s, p), c)
    {
      if c < |s.caches| {
        CachedOld(sem, s, roots, p, c);
      } else {
        CachedNew(sem, s, roots, p);
      }
    }
  }

  lemma CachedStructure(sem: Semantics, s: State, roots: set<nat>, p: Plan)
    requires Structure(s) && Finished(s, roots, p)
    ensures Structure(Cached(sem, s, p))
  {
    CachedCaches(sem, s, roots, p);
    forall e: nat | e < |s.exprs|
      ensures HomeOk(Cached(sem, s, p), e) && InfoOk(Cached(sem, s, p), e)
    {
      CachedHome(sem, s, roots, p, e);
    }
  }

  /** A new cache is dirty, and the others stay as right as they were. */
  lemma CacheKeeps(sem: Semantics, s: State, roots: set<nat>, p: Plan)
    requires Inv(sem, s) && Finished(s, roots, p)
    ensures Inv(sem, Cached(sem, s, p))
    ensures forall r :: r in roots ==> r < |s.exprs| && Cached(sem, s, p).home[r] == Some(|s.caches|)
  {
    var s' := Cached(sem, s, p);
    CachedStructure(sem, s, roots, p);
    forall c: nat | c < |s'.caches| && !s'.caches[c].contentDirty
      ensures Right(sem, s', c)
    {
      assert c < |s.caches|;
      forall j: nat | j < |s.caches[c].pipeline| && Rooted(s', c, s.caches[c].pipeline[j].expr)
        ensures Rooted(s, c, s.caches[c].pipeline[j].expr)
      {
        CachedRooted(sem, s, p, c, s.caches[c].pipeline[j].expr);
      }
      StillRight(sem, s, s', c);
    }
    forall r | r in roots
      ensures r < |s.exprs| && s'.home[r] == Some(|s.caches|)
    {
      DstPending(s, roots, p, r);
    }
  }

  /** The new cache waits for what its roots waited for. */
  lemma CachedWaits(sem: Semantics, s: State, roots: set<nat>, p: Plan)
    requires Structure(s) && Homed(s) && Finished(s, roots, p)
    ensures AllWaits(Cached(sem, s, p).caches) == AllWaits(s.caches) + [iset l: nat | Awaited(View(s), roots, l)]
  {
    var cs, n := Cached(sem, s, p).caches, |s.caches|;
    assert cs[n] == NewCache(sem, p);
    WaitsGrow(s.caches, cs);
    assert AllWaits(cs)[..n] == AllWaits(s.caches);
    forall l: nat
      ensures WaitsFor(cs, n, l) <==> Awaited(View(s), roots, l)
    {
      WaitsNewest(s.caches, NewCache(sem, p), l);
      PipelineWaits(s, roots, p, l);
    }
    assert AllWaits(cs)[n] == iset l: nat | Awaited(View(s), roots, l);
    assert AllWaits(cs) == AllWaits(cs)[..n] + [AllWaits(cs)[n]];
  }

  /** What `_makeCache` does for the given ops: nothing when there are none. */
  ghost predicate Made(sem: Semantics, s: State, s': State, roots: set<nat>, p: Plan)
    requires Sized(s)
  {
    if roots == {} then s' == s else Finished(s, roots, p) && s' == Cached(sem, s, p)
  }

  lemma HomesExist(s: State)
    requires Structure(s)
    ensures Homed(s)
  {
    forall e | 0 <= e < |s.exprs| && s.home[e].Some?
      ensures s.home[e].value < |s.caches| && s.exprs[e].Op?
    {
      assert HomeOk(s, e);
    }
  }

  lemma DstAreRoots(s: State, roots: set<nat>, p: Plan)
    requires Sized(s) && Finished(s, roots, p)
    ensures forall e: nat :: e in p.dst <==> e in roots
  {
  }

  /** The caller sees that the roots share a new cache, and what it waits for. */
  lemma MadeIsPrepared(sem: Semantics, s: State, s': State, roots: set<nat>, p: Plan)
    requires Inv(sem, s) && Made(sem, s, s', roots, p)
    ensures Inv(sem, s') && View(s') == Prepared(View(s), roots)
  {
    if roots != {} {
      HomesExist(s);
      CacheKeeps(sem, s, roots, p);
      CachedWaits(sem, s, roots, p);
      DstAreRoots(s, roots, p);
      assert View(s').home == Prepared(View(s), roots).home;
    }
  }
}
