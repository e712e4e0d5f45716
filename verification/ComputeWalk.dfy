/** The state of the walks in `ComputeCache::resize` and `ComputeCache::compute`, turn by turn. */
module ComputeWalk {
  import opened Sequences
  import opened ExprGraph
  import opened Caches
  import opened CacheWalk
  import opened CacheReach

  // --- Resizing ---

  function Blanks(sem: Semantics, n: nat): seq<Value>
  {
    seq(n, i requires 0 <= i < n => sem.blank)
  }

  /** What `resizeImpl` does: the tensors get new memory and have to be computed again. */
  function ResizeImpl(sem: Semantics, x: Cache): Cache
  {
    x.(shapeDirty := false, contentDirty := true, tensors := Blanks(sem, |x.tensors|))
  }

  /** The caches in `done` have been resized; nothing else has changed. */
  ghost predicate Resized(sem: Semantics, cs: seq<Cache>, cs': seq<Cache>, done: seq<nat>)
  {
    && |cs'| == |cs|
    && forall c :: 0 <= c < |cs| ==> cs'[c] == if c in done then ResizeImpl(sem, cs[c]) else cs[c]
  }

  ghost predicate ResizeWalk(sem: Semantics, cs0: seq<Cache>, cs: seq<Cache>, c0: nat, stack: seq<nat>,
                             visited: set<nat>, expanded: set<nat>, done: seq<nat>)
  {
    var on := ShapeDirty(cs0);
    && Acyclic(cs0) && Resized(sem, cs0, cs, done) && InOrder(cs0, on, done)
    && (forall i :: 0 <= i < |done| ==> Through(cs0, on, c0, done[i]))
    && Below(stack, |cs0|) && AllAsked(cs0, on, c0, stack) && Covered(cs0, stack, visited, expanded)
    && (forall x :: x in visited ==> x in done || x !in on)
    && (c0 in stack || c0 in visited)
  }

  lemma ResizeStart(sem: Semantics, cs: seq<Cache>, c0: nat)
    requires Acyclic(cs) && c0 < |cs|
    ensures ResizeWalk(sem, cs, cs, c0, [c0], {}, {}, [])
  {
    assert [c0][0] == c0;
  }

  /** Nothing to do for the top of the stack. */
  lemma ResizeSkip(sem: Semantics, cs0: seq<Cache>, cs: seq<Cache>, c0: nat, stack: seq<nat>, visited: set<nat>,
                   expanded: set<nat>, done: seq<nat>)
    requires ResizeWalk(sem, cs0, cs, c0, stack, visited, expanded, done) && stack != []
    requires !cs[stack[|stack| - 1]].shapeDirty
    ensures ResizeWalk(sem, cs0, cs, c0, stack[..|stack| - 1], visited + {stack[|stack| - 1]}, expanded, done)
  {
    CoveredPop(cs0, stack, visited, expanded);
  }

  /** The top of the stack is resized after all its inputs. */
  lemma ResizePop(sem: Semantics, cs0: seq<Cache>, cs: seq<Cache>, c0: nat, stack: seq<nat>, visited: set<nat>,
                  expanded: set<nat>, done: seq<nat>)
    requires ResizeWalk(sem, cs0, cs, c0, stack, visited, expanded, done) && stack != []
    requires cs[stack[|stack| - 1]].shapeDirty && AllVisited(cs[stack[|stack| - 1]].inputs, visited)
    ensures var c := stack[|stack| - 1];
            ResizeWalk(sem, cs0, cs[c := ResizeImpl(sem, cs[c])], c0, stack[..|stack| - 1], visited + {c}, expanded,
                       done + [c])
  {
    var on, c := ShapeDirty(cs0), stack[|stack| - 1];
    CoveredPop(cs0, stack, visited, expanded);
    assert c !in done && cs[c] == cs0[c];
    assert Asked(cs0, on, c0, c);
    AskedThrough(cs0, on, c0, c);
    forall k | 0 <= k < |cs0[c].inputs|
      ensures cs0[c].inputs[k] in done || cs0[c].inputs[k] !in on
    {
      assert cs[c].inputs[k] in visited;
    }
    OneMoreDone(cs0, on, done, c);
    assert forall d :: d in done + [c] <==> d in done || d == c;
  }

  lemma ResizePush(sem: Semantics, cs0: seq<Cache>, cs: seq<Cache>, c0: nat, stack: seq<nat>, visited: set<nat>,
                   expanded: set<nat>, done: seq<nat>)
    requires ResizeWalk(sem, cs0, cs, c0, stack, visited, expanded, done) && stack != []
    requires cs[stack[|stack| - 1]].shapeDirty && !AllVisited(cs[stack[|stack| - 1]].inputs, visited)
    ensures var c := stack[|stack| - 1];
            && c !in expanded
            && ResizeWalk(sem, cs0, cs, c0, stack + cs[c].inputs, visited, expanded + {c}, done)
  {
    var c := stack[|stack| - 1];
    assert c !in done && cs[c] == cs0[c];
    if c in expanded {
      ExpandOnce(cs0, stack, visited, expanded);
    } else {
      CoveredPush(cs0, stack, visited, expanded);
      AskInputs(cs0, ShapeDirty(cs0), c0, stack, c);
    }
  }

  /** When the stack is empty, what had to be resized has been. */
  lemma ResizeEnd(sem: Semantics, cs0: seq<Cache>, cs: seq<Cache>, c0: nat, visited: set<nat>, expanded: set<nat>,
                  done: seq<nat>)
    requires ResizeWalk(sem, cs0, cs, c0, [], visited, expanded, done)
    ensures Exactly(cs0, ShapeDirty(cs0), c0, done)
  {
    DoneExactly(cs0, ShapeDirty(cs0), c0, done);
  }

  /** Resizing changes no content flag, because a shape-dirty cache is content-dirty already. */
  lemma ResizeKeeps(sem: Semantics, s: State, cs': seq<Cache>, done: seq<nat>)
    requires Inv(sem, s) && Resized(sem, s.caches, cs', done)
    requires forall i :: 0 <= i < |done| ==> done[i] in ShapeDirty(s.caches)
    ensures Inv(sem, s.(caches := cs')) && SameShape(s, s.(caches := cs'))
    ensures forall c :: 0 <= c < |cs'| ==> cs'[c].contentDirty == s.caches[c].contentDirty
  {
    var s' := s.(caches := cs');
    forall c | 0 <= c < |cs'|
      ensures SameCache(s.caches[c], cs'[c]) && cs'[c].contentDirty == s.caches[c].contentDirty
    {
      assert CacheOk(s, c);
    }
    SameShapeKeeps(s, s');
    forall c: nat | c < |cs'| && !cs'[c].contentDirty
      ensures Right(sem, s', c)
    {
      assert Right(sem, s, c) && cs'[c] == s.caches[c];
      RightStays(sem, s, s', c, cs'[c].tensors, |cs'[c].pipeline|);
    }
  }

  // --- Computing ---

  ghost predicate Clean(cs: seq<Cache>, c: nat)
  {
    c < |cs| && !cs[c].contentDirty
  }

  /** `ran` lists the sessions run since `cs0`: each was dirty, none is there twice, and the inputs of each
      were clean from the start or ran before it. */
  ghost predicate RunLog(cs0: seq<Cache>, cs: seq<Cache>, ran: seq<nat>)
  {
    && |cs| == |cs0|
    && (forall i, j :: 0 <= i < j < |ran| ==> ran[i] != ran[j])
    && (forall i :: 0 <= i < |ran| ==> ran[i] < |cs0| && cs0[ran[i]].contentDirty && InputsDone(cs0, ran, i))
    && (forall c :: 0 <= c < |cs| ==> (cs[c].contentDirty <==> cs0[c].contentDirty && c !in ran))
  }

  ghost predicate InputsDone(cs0: seq<Cache>, ran: seq<nat>, i: nat)
    requires i < |ran| && ran[i] < |cs0|
  {
    forall k :: 0 <= k < |cs0[ran[i]].inputs| ==>
      cs0[ran[i]].inputs[k] in ran[..i] || Clean(cs0, cs0[ran[i]].inputs[k])
  }

  ghost predicate SameInputs(cs0: seq<Cache>, cs: seq<Cache>)
  {
    |cs| == |cs0| && forall c :: 0 <= c < |cs| ==> cs[c].inputs == cs0[c].inputs
  }

  /** Only what the walk for `c0` has come to was run, and only that has changed. */
  ghost predicate Confined(cs0: seq<Cache>, cs: seq<Cache>, c0: nat, ran: seq<nat>)
  {
    && |cs| == |cs0|
    && (forall i :: 0 <= i < |ran| ==> Through(cs0, ContentDirty(cs0), c0, ran[i]))
    && (forall i :: 0 <= i < |ran| ==> ran[i] < |cs| && !cs[ran[i]].shapeDirty)
    && (forall d :: 0 <= d < |cs| && !Through(cs0, ContentDirty(cs0), c0, d) ==> cs[d] == cs0[d])
  }

  ghost predicate RunWalk(
    cs0: seq<Cache>, cs: seq<Cache>, c0: nat, stack: seq<nat>, visited: set<nat>, expanded: set<nat>, ran: seq<nat>)
  {
    && Acyclic(cs0) && SameInputs(cs0, cs) && RunLog(cs0, cs, ran)
    && Confined(cs0, cs, c0, ran) && AllAsked(cs0, ContentDirty(cs0), c0, stack)
    && Below(stack, |cs0|) && Covered(cs0, stack, visited, expanded)
    && (forall x :: x in visited ==> Clean(cs, x))
    && (c0 in stack || c0 in visited)
  }

  lemma RunStart(cs: seq<Cache>, c0: nat)
    requires Acyclic(cs) && c0 < |cs|
    ensures RunWalk(cs, cs, c0, [c0], {}, {}, [])
  {
    assert [c0][0] == c0;
  }

  /** A cache that is dirty when the walk comes to it was dirty from the start, and the walk is for it. */
  lemma TopIsThrough(cs0: seq<Cache>, cs: seq<Cache>, c0: nat, stack: seq<nat>, visited: set<nat>, expanded: set<nat>,
                     ran: seq<nat>)
    requires RunWalk(cs0, cs, c0, stack, visited, expanded, ran) && stack != []
    requires cs[stack[|stack| - 1]].contentDirty
    ensures Through(cs0, ContentDirty(cs0), c0, stack[|stack| - 1])
  {
    assert Asked(cs0, ContentDirty(cs0), c0, stack[|stack| - 1]);
    AskedThrough(cs0, ContentDirty(cs0), c0, stack[|stack| - 1]);
  }

  /** What resizing on behalf of the top of the stack reaches, the walk is for too. */
  lemma ResizeConfined(cs0: seq<Cache>, cs: seq<Cache>, c0: nat, stack: seq<nat>, visited: set<nat>, expanded: set<nat>,
                       ran: seq<nat>, d: nat)
    requires RunWalk(cs0, cs, c0, stack, visited, expanded, ran) && stack != []
    requires forall c :: 0 <= c < |cs| && cs[c].shapeDirty ==> cs[c].contentDirty
    requires Through(cs, ShapeDirty(cs), stack[|stack| - 1], d)
    ensures Through(cs0, ContentDirty(cs0), c0, d)
  {
    var top := stack[|stack| - 1];
    TopIsThrough(cs0, cs, c0, stack, visited, expanded, ran);
    ThroughMore(cs, ShapeDirty(cs), cs0, ContentDirty(cs0), top, d);
    ThroughTrans(cs0, ContentDirty(cs0), c0, top, d);
  }

  /** Resizing leaves the walk where it is. */
  lemma RunResize(sem: Semantics, cs0: seq<Cache>, cs: seq<Cache>, c0: nat, stack: seq<nat>, visited: set<nat>,
                  expanded: set<nat>, ran: seq<nat>, cs': seq<Cache>, done: seq<nat>)
    requires RunWalk(cs0, cs, c0, stack, visited, expanded, ran) && SameInputs(cs, cs') && stack != []
    requires forall c :: 0 <= c < |cs| && cs[c].shapeDirty ==> cs[c].contentDirty
    requires Resized(sem, cs, cs', done) && Exactly(cs, ShapeDirty(cs), stack[|stack| - 1], done)
    requires forall c :: 0 <= c < |cs'| ==> cs'[c].contentDirty == cs[c].contentDirty
    ensures RunWalk(cs0, cs', c0, stack, visited, expanded, ran)
  {
    forall x | x in visited
      ensures Clean(cs', x)
    {
      assert Clean(cs, x);
    }
    forall d: nat | d < |cs| && !Through(cs0, ContentDirty(cs0), c0, d)
      ensures cs'[d] == cs0[d]
    {
      if d in done {
        ResizeConfined(cs0, cs, c0, stack, visited, expanded, ran, d);
      }
    }
  }

  lemma RunPop(cs0: seq<Cache>, cs: seq<Cache>, c0: nat, stack: seq<nat>, visited: set<nat>, expanded: set<nat>,
               ran: seq<nat>)
    requires RunWalk(cs0, cs, c0, stack, visited, expanded, ran) && stack != []
    requires !cs[stack[|stack| - 1]].contentDirty
    ensures RunWalk(cs0, cs, c0, stack[..|stack| - 1], visited + {stack[|stack| - 1]}, expanded, ran)
  {
    CoveredPop(cs0, stack, visited, expanded);
  }

  /** A dirty cache is expanded at most once. */
  lemma RunPush(cs0: seq<Cache>, cs: seq<Cache>, c0: nat, stack: seq<nat>, visited: set<nat>, expanded: set<nat>,
                ran: seq<nat>)
    requires RunWalk(cs0, cs, c0, stack, visited, expanded, ran) && stack != []
    requires cs[stack[|stack| - 1]].contentDirty && !AllVisited(cs[stack[|stack| - 1]].inputs, visited)
    ensures var c := stack[|stack| - 1];
            && c !in expanded
            && RunWalk(cs0, cs, c0, stack + cs[c].inputs, visited, expanded + {c}, ran)
  {
    var c := stack[|stack| - 1];
    assert c in visited ==> Clean(cs, c);
    if c in expanded {
      ExpandOnce(cs0, stack, visited, expanded);
    } else {
      CoveredPush(cs0, stack, visited, expanded);
      AskInputs(cs0, ContentDirty(cs0), c0, stack, c);
    }
  }

  /** A session runs when all its inputs are finished, and finishes its cache. */
  lemma RunDone(cs0: seq<Cache>, cs: seq<Cache>, c0: nat, stack: seq<nat>, visited: set<nat>, expanded: set<nat>,
                ran: seq<nat>, cs': seq<Cache>)
    requires RunWalk(cs0, cs, c0, stack, visited, expanded, ran) && stack != []
    requires cs[stack[|stack| - 1]].contentDirty && AllVisited(cs[stack[|stack| - 1]].inputs, visited)
    requires SameInputs(cs, cs')
    requires var c := stack[|stack| - 1];
             && (forall d :: 0 <= d < |cs'| && d != c ==> cs'[d] == cs[d])
             && !cs'[c].contentDirty && !cs'[c].shapeDirty
    ensures var c := stack[|stack| - 1];
            RunWalk(cs0, cs', c0, stack[..|stack| - 1], visited + {c}, expanded, ran + [c])
  {
    CoveredPop(cs0, stack, visited, expanded);
    var c := stack[|stack| - 1];
    LogGrows(cs0, cs, ran, c, visited, cs');
    TopIsThrough(cs0, cs, c0, stack, visited, expanded, ran);
    ConfinedMore(cs0, cs, c0, ran, cs', c);
    CleanMore(cs, cs', visited, c);
  }

  lemma ConfinedMore(cs0: seq<Cache>, cs: seq<Cache>, c0: nat, ran: seq<nat>, cs': seq<Cache>, c: nat)
    requires Confined(cs0, cs, c0, ran) && |cs'| == |cs| && c < |cs| && Through(cs0, ContentDirty(cs0), c0, c)
    requires (forall d :: 0 <= d < |cs'| && d != c ==> cs'[d] == cs[d]) && !cs'[c].shapeDirty
    ensures Confined(cs0, cs', c0, ran + [c])
  {
  }

  lemma CleanMore(cs: seq<Cache>, cs': seq<Cache>, visited: set<nat>, c: nat)
    requires (forall x :: x in visited ==> Clean(cs, x)) && |cs'| == |cs| && c < |cs| && Clean(cs', c)
    requires forall d :: 0 <= d < |cs'| && d != c ==> cs'[d] == cs[d]
    ensures forall x :: x in visited + {c} ==> Clean(cs', x)
  {
    forall x | x in visited + {c}
      ensures Clean(cs', x)
    {
      assert x != c ==> Clean(cs, x);
    }
  }

  lemma LogGrows(cs0: seq<Cache>, cs: seq<Cache>, ran: seq<nat>, c: nat, visited: set<nat>, cs': seq<Cache>)
    requires RunLog(cs0, cs, ran) && c < |cs| && cs[c].contentDirty && SameInputs(cs0, cs)
    requires AllVisited(cs[c].inputs, visited) && forall x :: x in visited ==> Clean(cs, x)
    requires |cs'| == |cs| && forall d :: 0 <= d < |cs'| ==> cs'[d].contentDirty == (d != c && cs[d].contentDirty)
    ensures RunLog(cs0, cs', ran + [c])
  {
    var ran' := ran + [c];
    forall i | 0 <= i < |ran'|
      ensures ran'[i] < |cs0| && cs0[ran'[i]].contentDirty && InputsDone(cs0, ran', i)
    {
      if i < |ran| {
        assert InputsDone(cs0, ran, i) && ran'[..i] == ran[..i];
      } else {
        assert ran'[..i] == ran;
        forall k | 0 <= k < |cs0[c].inputs|
          ensures cs0[c].inputs[k] in ran || Clean(cs0, cs0[c].inputs[k])
        {
          assert cs[c].inputs[k] in visited;
          assert Clean(cs, cs0[c].inputs[k]);
        }
      }
    }
    forall d | 0 <= d < |cs'|
      ensures cs'[d].contentDirty <==> cs0[d].contentDirty && d !in ran'
    {
      assert d in ran' <==> d in ran || d == c;
    }
  }

  /** What `compute` has done for cache `c`: exactly the dirty caches that it needs ran, each after its inputs,
      nothing else has changed, and what ran has its final shape. */
  ghost predicate Computed(cs0: seq<Cache>, cs: seq<Cache>, c: nat, ran: seq<nat>)
  {
    && RunLog(cs0, cs, ran) && Exactly(cs0, ContentDirty(cs0), c, ran)
    && (forall d :: 0 <= d < |cs| ==> if d in ran then !cs[d].shapeDirty else cs[d] == cs0[d])
  }

  lemma RunEnd(cs0: seq<Cache>, cs: seq<Cache>, c0: nat, visited: set<nat>, expanded: set<nat>, ran: seq<nat>)
    requires RunWalk(cs0, cs, c0, [], visited, expanded, ran)
    ensures Computed(cs0, cs, c0, ran) && Clean(cs, c0)
  {
    var on := ContentDirty(cs0);
    forall i | 0 <= i < |ran|
      ensures AfterInputs(cs0, on, ran, i)
    {
      assert InputsDone(cs0, ran, i);
    }
    assert Clean(cs, c0);
    DoneExactly(cs0, on, c0, ran);
  }

  // --- What a ready cache means ---

  /** The INPUT leaves below a needed entry of a cache that is not blocked have been written. */
  lemma {:induction false} ReachedWritten(s: State, c: nat, j: nat, l: nat)
    requires Structure(s) && c < |s.caches| && !Blocked(s.caches, s.unwritten, c) && j < |s.caches[c].pipeline|
    requires Rooted(s, c, s.caches[c].pipeline[j].expr)
    requires l < |s.exprs| && s.exprs[l] == Leaf(true) && DependsOn(s.exprs, s.caches[c].pipeline[j].expr, l)
    ensures !s.unwritten[l]
    decreases s.caches[c].pipeline[j].expr
  {
    var x := s.caches[c];
    assert CacheOk(s, c);
    assert LiveEntryOk(s, c, j);
    var e := x.pipeline[j].expr;
    assert ExprOk(s.exprs, e);
    var i :| 0 <= i < |s.exprs[e].inputs| && DependsOn(s.exprs, s.exprs[e].inputs[i].expr, l);
    var v := s.exprs[e].inputs[i];
    assert RefOk(s, x.inputs, x.inside, x.pipeline, j, x.pipeline[j].inputs[i], v);
    match x.pipeline[j].inputs[i]
    case LeafRef(_) =>
      LeafDepends(s.exprs, v.expr, l);
      assert !Waiting(x, s.unwritten);
    case CacheRef(d, _) =>
      var k :| 0 <= k < |x.inputs| && x.inputs[k] == d;
      assert HomeOk(s, v.expr);
      var j': nat :| HomeEntry(s, v.expr, d, j');
      RootedHome(s, d, v.expr);
      ReachedWritten(s, d, j', l);
    case Local(k, _) =>
      RootedInput(s, c, e, i);
      ReachedWritten(s, c, k, l);
  }
}
