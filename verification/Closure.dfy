/** When a dirty cache makes its consumers dirty. The value invariant of the engine does not need it:
    `Caches.Coherent` holds in every run, also where the closure fails. */
module Closure {
  import opened Wrappers
  import opened ExprGraph
  import opened Caches
  import opened Reshaping
  import opened Pipelines
  import opened Growth
  import opened ComputeWalk

  /** Some expression lives in the cache. */
  ghost predicate Alive(s: State, c: nat)
  {
    exists e :: 0 <= e < |s.home| && s.home[e] == Some(c)
  }

  /** A dirty cache has no clean consumer that anything lives in. */
  ghost predicate DirtyClosed(s: State)
  {
    forall c :: 0 <= c < |s.caches| && Alive(s, c) ==> InputsClosed(s.caches, c)
  }

  ghost predicate InputsClosed(cs: seq<Cache>, c: nat)
    requires c < |cs|
  {
    forall k :: 0 <= k < |cs[c].inputs| ==> PairClosed(cs, c, cs[c].inputs[k])
  }

  ghost predicate PairClosed(cs: seq<Cache>, c: nat, d: nat)
    requires c < |cs|
  {
    d < |cs| && (cs[d].contentDirty ==> cs[c].contentDirty)
  }

  // --- Computing and making caches keep the closure ---

  lemma ComputeKeepsClosed(s: State, s': State, ran: seq<nat>)
    requires SameShape(s, s') && RunLog(s.caches, s'.caches, ran) && DirtyClosed(s)
    ensures DirtyClosed(s')
  {
    var cs0, cs := s.caches, s'.caches;
    forall c: nat, k: nat | c < |cs| && Alive(s', c) && k < |cs[c].inputs|
      ensures PairClosed(cs, c, cs[c].inputs[k])
    {
      assert SameCache(cs0[c], cs[c]) && Alive(s, c);
      var d := cs0[c].inputs[k];
      assert InputsClosed(cs0, c) && PairClosed(cs0, c, d);
      if c in ran {
        var i: nat :| i < |ran| && ran[i] == c;
        assert InputsDone(cs0, ran, i);
        assert d in ran[..i] || Clean(cs0, d);
        assert d in ran[..i] ==> d in ran;
      }
    }
  }

  lemma NewCacheKeepsClosed(sem: Semantics, s: State, roots: set<nat>, p: Plan)
    requires Structure(s) && Finished(s, roots, p) && DirtyClosed(s)
    ensures DirtyClosed(Cached(sem, s, p))
  {
    var s', n := Cached(sem, s, p), |s.caches|;
    var cs := s'.caches;
    forall c: nat, k: nat | c < |cs| && Alive(s', c) && k < |cs[c].inputs|
      ensures PairClosed(cs, c, cs[c].inputs[k])
    {
      if c < n {
        var e :| 0 <= e < |s'.home| && s'.home[e] == Some(c);
        assert s.home[e] == Some(c) && Alive(s, c);
        assert cs[c] == s.caches[c] && InputsClosed(s.caches, c);
        assert PairClosed(s.caches, c, s.caches[c].inputs[k]);
      } else {
        assert cs[c] == NewCache(sem, p);
        assert p.cin[k] < n;
      }
    }
  }

  // --- Writing keeps it exactly when consumers depend on the leaf too ---

  /** Every clean cache that reads a cache depending on `l` depends on `l` itself. */
  ghost predicate Inherited(s: State, l: nat)
    requires Sized(s)
  {
    forall c, k :: 0 <= c < |s.caches| && 0 <= k < |s.caches[c].inputs| && Alive(s, c) && !s.caches[c].contentDirty ==>
      (Rooted(s, s.caches[c].inputs[k], l) ==> Rooted(s, c, l))
  }

  lemma MarkedWhenRooted(s: State, l: nat, dirty: set<nat>, c: nat)
    requires Structure(s) && l < |s.exprs| && s.exprs[l].Leaf? && AllConsumers(s, dirty, l)
    requires forall e :: e in dirty ==> e < |s.exprs|
    ensures LivesIn(s, dirty, c) <==> Rooted(s, c, l)
  {
    if LivesIn(s, dirty, c) {
      var e :| e in dirty && e < |s.home| && s.home[e] == Some(c);
      assert DependsOn(s.exprs, e, l);
    }
    if Rooted(s, c, l) {
      var r: nat :| r < |s.exprs| && s.home[r] == Some(c) && DependsOn(s.exprs, r, l);
      assert HomeOk(s, r);
      assert r in dirty;
    }
  }

  lemma WriteKeepsClosedIff(s: State, l: nat, x: Value, dirty: set<nat>)
    requires Structure(s) && l < |s.exprs| && s.exprs[l].Leaf? && AllConsumers(s, dirty, l)
    requires forall e :: e in dirty ==> e < |s.exprs|
    requires DirtyClosed(s)
    ensures DirtyClosed(Written(s, l, x, dirty)) <==> Inherited(s, l)
  {
    var s' := Written(s, l, x, dirty);
    var cs := s'.caches;
    forall c: nat, k: nat | c < |cs| && Alive(s, c) && k < |cs[c].inputs|
      ensures cs[c].inputs == s.caches[c].inputs
      ensures PairClosed(cs, c, cs[c].inputs[k]) <==>
              (!s.caches[c].contentDirty && Rooted(s, s.caches[c].inputs[k], l) ==> Rooted(s, c, l))
    {
      assert InputsClosed(s.caches, c);
      assert PairClosed(s.caches, c, s.caches[c].inputs[k]);
      MarkedWhenRooted(s, l, dirty, c);
      MarkedWhenRooted(s, l, dirty, s.caches[c].inputs[k]);
    }
    forall c: nat
      ensures Alive(s', c) <==> Alive(s, c)
    {
    }
    if DirtyClosed(s') {
      forall c: nat, k: nat | c < |cs| && k < |s.caches[c].inputs| && Alive(s, c) && !s.caches[c].contentDirty
                              && Rooted(s, s.caches[c].inputs[k], l)
        ensures Rooted(s, c, l)
      {
        assert InputsClosed(cs, c) && PairClosed(cs, c, cs[c].inputs[k]);
      }
    }
  }

  // --- Runs that prepare one expression at a time ---

  /** No two expressions share a cache. */
  ghost predicate SingleRoots(s: State)
  {
    forall e, f :: 0 <= e < |s.home| && 0 <= f < |s.home| && s.home[e].Some? && s.home[e] == s.home[f] ==> e == f
  }

  /** `r` depends on something that lives in cache `d`. */
  ghost predicate ReadsFrom(s: State, r: nat, d: nat)
    requires Sized(s)
  {
    exists x :: 0 <= x < |s.exprs| && s.home[x] == Some(d) && DependsOn(s.exprs, r, x)
  }

  /** Whatever lives in a cache needs everything that the cache reads. */
  ghost predicate ReadsLive(s: State)
    requires Sized(s)
  {
    forall r :: 0 <= r < |s.exprs| && s.home[r].Some? && s.home[r].value < |s.caches| ==> ReadsAll(s, r)
  }

  ghost predicate ReadsAll(s: State, r: nat)
    requires Sized(s) && r < |s.exprs| && s.home[r].Some? && s.home[r].value < |s.caches|
  {
    forall k :: 0 <= k < |s.caches[s.home[r].value].inputs| ==> ReadsFrom(s, r, s.caches[s.home[r].value].inputs[k])
  }

  /** What such runs keep. */
  ghost predicate Tidy(s: State)
    requires Sized(s)
  {
    SingleRoots(s) && ReadsLive(s) && DirtyClosed(s)
  }

  lemma SingleRootsInherit(s: State, l: nat)
    requires Structure(s) && SingleRoots(s) && ReadsLive(s)
    ensures Inherited(s, l)
  {
    forall c: nat, k: nat | c < |s.caches| && k < |s.caches[c].inputs| && Alive(s, c)
                            && Rooted(s, s.caches[c].inputs[k], l)
      ensures Rooted(s, c, l)
    {
      var d := s.caches[c].inputs[k];
      var r :| 0 <= r < |s.home| && s.home[r] == Some(c);
      assert ReadsAll(s, r) && ReadsFrom(s, r, d);
      var x: nat :| x < |s.exprs| && s.home[x] == Some(d) && DependsOn(s.exprs, r, x);
      var y: nat :| y < |s.exprs| && s.home[y] == Some(d) && DependsOn(s.exprs, y, l);
      assert x == y;
      DependsTrans(s.exprs, r, x, l);
    }
  }

  /** Writing and computing leave everything where it lives. */
  lemma LayoutKeepsReads(s: State, s': State)
    requires Sized(s) && Sized(s') && SameLayout(s, s')
    ensures SingleRoots(s) ==> SingleRoots(s')
    ensures ReadsLive(s) ==> ReadsLive(s')
  {
    if ReadsLive(s) {
      forall r: nat, k: nat | r < |s.exprs| && s'.home[r].Some? && s'.home[r].value < |s'.caches|
                              && k < |s'.caches[s'.home[r].value].inputs|
        ensures ReadsFrom(s', r, s'.caches[s'.home[r].value].inputs[k])
      {
        var c := s.home[r].value;
        assert SameCache(s.caches[c], s'.caches[c]);
        assert ReadsAll(s, r) && ReadsFrom(s, r, s.caches[c].inputs[k]);
        var x: nat :| x < |s.exprs| && s.home[x] == Some(s.caches[c].inputs[k]) && DependsOn(s.exprs, r, x);
        assert s'.home[x] == s.home[x];
      }
    }
  }

  lemma WriteKeepsTidy(s: State, l: nat, x: Value, dirty: set<nat>)
    requires Structure(s) && l < |s.exprs| && s.exprs[l].Leaf? && AllConsumers(s, dirty, l) && Tidy(s)
    requires forall e :: e in dirty ==> e < |s.exprs|
    ensures Tidy(Written(s, l, x, dirty))
  {
    var s' := Written(s, l, x, dirty);
    forall c | 0 <= c < |s.caches|
      ensures SameCache(s.caches[c], s'.caches[c])
    {
      assert CacheOk(s, c);
    }
    LayoutKeepsReads(s, s');
    SingleRootsInherit(s, l);
    WriteKeepsClosedIff(s, l, x, dirty);
  }

  lemma ComputeKeepsTidy(s: State, s': State, ran: seq<nat>)
    requires Structure(s) && Structure(s') && SameShape(s, s') && RunLog(s.caches, s'.caches, ran) && Tidy(s)
    ensures Tidy(s')
  {
    LayoutKeepsReads(s, s');
    ComputeKeepsClosed(s, s', ran);
  }

  lemma InformKeepsTidy(s: State, s': State)
    requires Sized(s) && Sized(s') && s' == s.(infoDirty := s'.infoDirty) && Tidy(s)
    ensures Tidy(s')
  {
    forall c | 0 <= c < |s.caches| && Alive(s', c)
      ensures InputsClosed(s'.caches, c)
    {
      assert Alive(s, c);
    }
    forall r | 0 <= r < |s.exprs| && s'.home[r].Some? && s'.home[r].value < |s'.caches|
      ensures ReadsAll(s', r)
    {
      assert ReadsAll(s, r);
      forall k | 0 <= k < |s.caches[s.home[r].value].inputs|
        ensures ReadsFrom(s', r, s.caches[s.home[r].value].inputs[k])
      {
        assert ReadsFrom(s, r, s.caches[s.home[r].value].inputs[k]);
      }
    }
  }

  lemma AddKeepsTidy(s: State, s': State, e: Expr)
    requires Structure(s) && Sized(s') && Added(s, s', e) && Tidy(s)
    ensures Tidy(s')
  {
    forall c: nat | c < |s.caches| && Alive(s', c)
      ensures InputsClosed(s'.caches, c)
    {
      var x :| 0 <= x < |s'.home| && s'.home[x] == Some(c);
      assert s.home[x] == Some(c) && Alive(s, c);
    }
    forall r: nat, k: nat | r < |s'.exprs| && s'.home[r].Some? && s'.home[r].value < |s.caches|
                            && k < |s.caches[s'.home[r].value].inputs|
      ensures ReadsFrom(s', r, s.caches[s'.home[r].value].inputs[k])
    {
      assert r < |s.exprs| && s.home[r] == s'.home[r];
      var d := s.caches[s.home[r].value].inputs[k];
      assert ReadsAll(s, r) && ReadsFrom(s, r, d);
      var x: nat :| x < |s.exprs| && s.home[x] == Some(d) && DependsOn(s.exprs, r, x);
      DependsExtend(s.exprs, s'.exprs, r, x);
      assert s'.home[x] == Some(d);
    }
  }

  /** A cache made for one expression. */
  lemma CacheKeepsTidy(sem: Semantics, s: State, r: nat, p: Plan)
    requires Structure(s) && Finished(s, {r}, p) && r < |s.exprs| && Tidy(s)
    ensures Tidy(Cached(sem, s, p))
  {
    var s' := Cached(sem, s, p);
    NewCacheKeepsClosed(sem, s, {r}, p);
    forall e: nat | e in p.dst
      ensures e == r && s.home[e].None?
    {
      DstPending(s, {r}, p, e);
    }
    forall e: nat | e < |s.exprs| && s.home[e].Some?
      ensures s.home[e].value < |s.caches|
    {
      assert HomeOk(s, e);
    }
    assert SingleRoots(s');
    forall e: nat | e < |s.exprs| && s'.home[e].Some? && s'.home[e].value < |s'.caches|
      ensures ReadsAll(s', e)
    {
      CachedReads(sem, s, r, p, e);
    }
  }

  lemma CachedReads(sem: Semantics, s: State, r: nat, p: Plan, e: nat)
    requires Structure(s) && Finished(s, {r}, p) && r < |s.exprs| && ReadsLive(s) && e < |s.exprs|
    requires (e in p.dst ==> e == r) && (forall x :: x in p.dst ==> x < |s.exprs| && s.home[x].None?)
    requires s.home[e].Some? ==> s.home[e].value < |s.caches|
    requires Cached(sem, s, p).home[e].Some? && Cached(sem, s, p).home[e].value < |Cached(sem, s, p).caches|
    ensures ReadsAll(Cached(sem, s, p), e)
  {
    var s' := Cached(sem, s, p);
    var c := s'.home[e].value;
    forall k: nat | k < |s'.caches[c].inputs|
      ensures ReadsFrom(s', e, s'.caches[c].inputs[k])
    {
      var d := s'.caches[c].inputs[k];
      if e in p.dst {
        assert s'.caches[c] == NewCache(sem, p) && HomeNeeded(s, {r}, p.cin[k]);
        var x :| 0 <= x < |s.exprs| && s.home[x] == Some(d) && Needed(s, {r}, x);
        WithinDepends(s, r, x);
        assert s'.home[x] == Some(d);
      } else {
        assert s'.caches[c] == s.caches[c] && ReadsAll(s, e) && ReadsFrom(s, e, d);
        var x: nat :| x < |s.exprs| && s.home[x] == Some(d) && DependsOn(s.exprs, e, x);
        assert s'.home[x] == Some(d);
      }
    }
  }

  /** Whoever depends on an expression that loses its cache loses its own. */
  lemma ReshapeKeepsTidy(s: State, l: nat, x: Value, gone: set<nat>)
    requires Structure(s) && l < |s.exprs| && s.exprs[l].Leaf? && AllForget(s, gone, l) && Tidy(s)
    ensures Sized(Reshaped(s, l, x, gone)) && Tidy(Reshaped(s, l, x, gone))
  {
    var s' := Reshaped(s, l, x, gone);
    forall c: nat | c < |s.caches| && Alive(s', c)
      ensures InputsClosed(s'.caches, c)
    {
      var e :| 0 <= e < |s'.home| && s'.home[e] == Some(c);
      assert s.home[e] == Some(c) && Alive(s, c);
    }
    forall r: nat, k: nat | r < |s.exprs| && s'.home[r].Some? && s'.home[r].value < |s.caches|
                            && k < |s.caches[s'.home[r].value].inputs|
      ensures ReadsFrom(s', r, s.caches[s'.home[r].value].inputs[k])
    {
      ReshapedReads(s, l, x, gone, r, k);
    }
  }

  lemma ReshapedReads(s: State, l: nat, x: Value, gone: set<nat>, r: nat, k: nat)
    requires Structure(s) && l < |s.exprs| && s.exprs[l].Leaf? && AllForget(s, gone, l) && ReadsLive(s)
    requires Sized(Reshaped(s, l, x, gone)) && r < |s.exprs| && r !in gone
    requires s.home[r].Some? && s.home[r].value < |s.caches| && k < |s.caches[s.home[r].value].inputs|
    ensures ReadsFrom(Reshaped(s, l, x, gone), r, s.caches[s.home[r].value].inputs[k])
  {
    var d := s.caches[s.home[r].value].inputs[k];
    assert HomeOk(s, r);
    assert ReadsAll(s, r) && ReadsFrom(s, r, d);
    var y: nat :| y < |s.exprs| && s.home[y] == Some(d) && DependsOn(s.exprs, r, y);
    assert InfoOk(s, y);
    if DependsOn(s.exprs, y, l) {
      DependsTrans(s.exprs, r, y, l);
    }
    assert Reshaped(s, l, x, gone).home[y] == Some(d);
  }

  // --- What a cache reads ---

  lemma HomedRef(s: State, cin: seq<nat>, inside: set<nat>, pipe: seq<Entry>, j: nat, ref: Ref, v: Var)
    requires Homed(s) && RefOk(s, cin, inside, pipe, j, ref, v) && s.home[v.expr].Some?
    requires forall k :: 0 <= k < |pipe| ==> pipe[k].expr < |s.exprs| && s.home[pipe[k].expr].None?
    ensures s.home[v.expr].value in cin
  {
  }

  lemma ScheduledHomeless(s: State, roots: set<nat>, p: Plan)
    requires Sized(s) && Finished(s, roots, p)
    ensures forall k :: 0 <= k < |p.pipe| ==> p.pipe[k].expr < |s.exprs| && s.home[p.pipe[k].expr].None?
  {
    forall k | 0 <= k < |p.pipe|
      ensures p.pipe[k].expr < |s.exprs| && s.home[p.pipe[k].expr].None?
    {
      assert Pending(s, roots, p.pipe[k].expr);
    }
  }

  /** A cache reads the cache of every input of its root. */
  lemma InputIsRead(s: State, roots: set<nat>, p: Plan, r: nat, i: nat)
    requires Homed(s) && Finished(s, roots, p) && r in roots && r < |s.exprs| && s.exprs[r].Op?
    requires i < |s.exprs[r].inputs| && s.exprs[r].inputs[i].expr < |s.exprs| && s.home[s.exprs[r].inputs[i].expr].Some?
    ensures s.home[s.exprs[r].inputs[i].expr].value in p.cin
  {
    var j := RootPlaced(Wanted(s, roots), roots, p, r);
    ScheduledHomeless(s, roots, p);
    assert EntryOk(s, p.cin, p.inside, p.pipe, j);
    HomedRef(s, p.cin, p.inside, p.pipe, j, p.pipe[j].inputs[i], s.exprs[r].inputs[i]);
  }
}
