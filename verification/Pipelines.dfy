/** `Executor::_makeCache`: an uncached part of the expression graph becomes the pipeline of a session. */
module Pipelines {
  import opened Wrappers
  import opened Sequences
  import opened ExprGraph
  import opened Caches
  import opened Waits

  /** The work in progress: the stack of expressions, the first pipeline index of every scheduled one, the
      pipeline with its number of tensors, the offset of every scheduled root, and what the session reads. */
  datatype Plan = Plan(
    stack: seq<nat>,
    visited: map<nat, nat>,
    pipe: seq<Entry>,
    total: nat,
    dst: map<nat, nat>,
    cin: seq<nat>,
    inside: set<nat>)

  // --- Invariants of the search ---

  /** An op that has no cache and that some root depends on. */
  ghost predicate Pending(s: State, roots: set<nat>, e: nat)
    requires Sized(s)
  {
    && e < |s.exprs| && s.exprs[e].Op? && s.home[e].None?
    && Needed(s, roots, e)
  }

  /** The search for `r` comes to `e`: from `r` through the inputs of ops that have no cache. */
  ghost predicate Within(s: State, r: nat, e: nat)
    requires Sized(s)
    decreases r
  {
    r < |s.exprs| && (r == e || (s.exprs[r].Op? && s.home[r].None? && InputWithin(s, r, e)))
  }

  ghost predicate InputWithin(s: State, r: nat, e: nat)
    requires Sized(s) && r < |s.exprs| && s.exprs[r].Op?
    decreases r, 0
  {
    ExprOk(s.exprs, r) && exists i :: 0 <= i < |s.exprs[r].inputs| && Within(s, s.exprs[r].inputs[i].expr, e)
  }

  lemma {:induction false} WithinDepends(s: State, r: nat, e: nat)
    requires Sized(s) && Within(s, r, e)
    ensures DependsOn(s.exprs, r, e)
    decreases r
  {
    if r != e {
      var i :| 0 <= i < |s.exprs[r].inputs| && Within(s, s.exprs[r].inputs[i].expr, e);
      WithinDepends(s, s.exprs[r].inputs[i].expr, e);
      DependsOnInput(s.exprs, r, i);
      DependsTrans(s.exprs, r, s.exprs[r].inputs[i].expr, e);
    }
  }

  lemma {:induction false} WithinInput(s: State, r: nat, e: nat, i: nat)
    requires Sized(s) && Within(s, r, e) && e < |s.exprs| && s.exprs[e].Op? && s.home[e].None?
    requires i < |s.exprs[e].inputs|
    ensures Within(s, r, s.exprs[e].inputs[i].expr)
    decreases r
  {
    if r == e {
      assert ExprOk(s.exprs, r);
      assert Within(s, s.exprs[e].inputs[i].expr, s.exprs[e].inputs[i].expr);
    } else {
      var k :| 0 <= k < |s.exprs[r].inputs| && Within(s, s.exprs[r].inputs[k].expr, e);
      WithinInput(s, s.exprs[r].inputs[k].expr, e, i);
    }
  }

  /** The search for the roots comes to `e`, and the roots wait for whatever `e` waits for. */
  ghost predicate Needed(s: State, roots: set<nat>, e: nat)
    requires Sized(s)
  {
    (exists r :: r in roots && Within(s, r, e)) && Serves(s, roots, e)
  }

  ghost predicate Serves(s: State, roots: set<nat>, e: nat)
    requires Sized(s)
  {
    forall l: nat :: Awaits(View(s), e, l) ==> Awaited(View(s), roots, l)
  }

  /** Every leaf of `inside` is an INPUT leaf that a root needs. */
  ghost predicate InsideNeeded(s: State, roots: set<nat>, inside: set<nat>)
    requires Sized(s)
  {
    forall l :: l in inside ==> l < |s.exprs| && s.exprs[l] == Leaf(true) && Needed(s, roots, l)
  }

  /** Every cache of `cin` is the home of something that a root needs. */
  ghost predicate CinNeeded(s: State, roots: set<nat>, cin: seq<nat>)
    requires Sized(s)
  {
    forall k :: 0 <= k < |cin| ==> HomeNeeded(s, roots, cin[k])
  }

  ghost predicate HomeNeeded(s: State, roots: set<nat>, c: nat)
    requires Sized(s)
  {
    exists x :: 0 <= x < |s.exprs| && s.home[x] == Some(c) && Needed(s, roots, x)
  }

  ghost predicate Placed(pipe: seq<Entry>, e: nat, offset: nat)
  {
    exists j: nat :: j < |pipe| && pipe[j].expr == e && pipe[j].offset == offset
  }

  /** The expressions that the search for `roots` may schedule. */
  ghost function Wanted(s: State, roots: set<nat>): (r: set<nat>)
    requires Sized(s)
    ensures forall e: nat :: e in r <==> Pending(s, roots, e)
  {
    set e: nat | e < |s.exprs| && Pending(s, roots, e)
  }

  /** Only wanted expressions are on the stack or scheduled, and no root is forgotten. */
  ghost predicate SearchOk(want: set<nat>, roots: set<nat>, p: Plan)
  {
    && (forall i :: 0 <= i < |p.stack| ==> p.stack[i] in want)
    && (forall j :: 0 <= j < |p.pipe| ==> p.pipe[j].expr in want)
    && (forall x :: x in p.visited ==> p.visited[x] < |p.pipe| && p.pipe[p.visited[x]].expr == x)
    && (forall r :: r in roots ==> r in p.stack || r in p.dst)
    && (forall r :: r in p.dst ==> r in roots && Placed(p.pipe, r, p.dst[r]))
  }

  ghost predicate PlanOk(s: State, roots: set<nat>, p: Plan)
    requires Sized(s)
  {
    && PipeOk(s, p.cin, p.inside, p.pipe, p.total)
    && Below(p.cin, |s.caches|) && CinNeeded(s, roots, p.cin) && InsideNeeded(s, roots, p.inside)
    && SearchOk(Wanted(s, roots), roots, p)
  }

  /** The search may schedule an op that takes `v`. */
  ghost predicate Ready(s: State, p: Plan, v: Var)
    requires Sized(s)
  {
    && v.expr < |s.exprs|
    && (s.exprs[v.expr].Leaf? && s.exprs[v.expr].isInput ==> v.expr in p.inside)
    && (s.exprs[v.expr].Op? ==>
          if s.home[v.expr].Some? then s.home[v.expr].value in p.cin else v.expr in p.visited)
  }

  /** What the search needs to know of the state. */
  ghost predicate Homed(s: State)
  {
    Sized(s) && forall e :: 0 <= e < |s.exprs| && s.home[e].Some? ==> s.home[e].value < |s.caches| && s.exprs[e].Op?
  }

  // --- Growing a pipeline ---

  lemma PipeGrows(s: State, cin: seq<nat>, inside: set<nat>, cin': seq<nat>, inside': set<nat>, pipe: seq<Entry>,
                  total: nat)
    requires Sized(s) && PipeOk(s, cin, inside, pipe, total)
    requires (forall k :: 0 <= k < |cin| ==> cin[k] in cin') && inside <= inside'
    ensures PipeOk(s, cin', inside', pipe, total)
  {
    forall j: nat | j < |pipe|
      ensures EntryOk(s, cin', inside', pipe, j)
    {
      assert EntryOk(s, cin, inside, pipe, j);
      forall i | 0 <= i < |pipe[j].inputs|
        ensures RefOk(s, cin', inside', pipe, j, pipe[j].inputs[i], s.exprs[pipe[j].expr].inputs[i])
      {
        assert RefOk(s, cin, inside, pipe, j, pipe[j].inputs[i], s.exprs[pipe[j].expr].inputs[i]);
      }
    }
  }

  lemma PipeAppend(s: State, cin: seq<nat>, inside: set<nat>, pipe: seq<Entry>, total: nat, e: Entry)
    requires Sized(s) && PipeOk(s, cin, inside, pipe, total)
    requires e.offset == total && EntryOk(s, cin, inside, pipe + [e], |pipe|)
    ensures PipeOk(s, cin, inside, pipe + [e], total + e.outputs)
  {
    var pipe' := pipe + [e];
    forall j: nat | j < |pipe'|
      ensures EntryOk(s, cin, inside, pipe', j)
    {
      if j < |pipe| {
        assert EntryOk(s, cin, inside, pipe, j);
        forall i | 0 <= i < |pipe[j].inputs|
          ensures RefOk(s, cin, inside, pipe', j, pipe[j].inputs[i], s.exprs[pipe[j].expr].inputs[i])
        {
          assert RefOk(s, cin, inside, pipe, j, pipe[j].inputs[i], s.exprs[pipe[j].expr].inputs[i]);
        }
      }
    }
  }

  // --- One step of the search ---

  method AddInput(cin: seq<nat>, c: nat) returns (r: seq<nat>)
    ensures c in r && forall k :: 0 <= k < |cin| ==> cin[k] in r
    ensures forall k :: 0 <= k < |r| ==> r[k] in cin || r[k] == c
  {
    if c in cin {
      r := cin;
    } else {
      r := cin + [c];
      assert r[|cin|] == c;
      assert forall k :: 0 <= k < |cin| ==> r[k] == cin[k];
    }
  }

  lemma NeededInput(s: State, roots: set<nat>, e: nat, i: nat)
    requires Sized(s) && Pending(s, roots, e) && i < |s.exprs[e].inputs|
    ensures Needed(s, roots, s.exprs[e].inputs[i].expr)
  {
    var r :| r in roots && Within(s, r, e);
    var x := s.exprs[e].inputs[i].expr;
    WithinInput(s, r, e, i);
    forall l: nat | Awaits(View(s), x, l)
      ensures Awaited(View(s), roots, l)
    {
      AwaitsInput(View(s), e, i, l);
    }
  }

  /** A cache met during the search is older than the one being made and is needed. */
  lemma CinGrows(s: State, roots: set<nat>, cin: seq<nat>, c: nat, r: seq<nat>)
    requires Sized(s) && Below(cin, |s.caches|) && CinNeeded(s, roots, cin)
    requires c < |s.caches| && HomeNeeded(s, roots, c) && forall k :: 0 <= k < |r| ==> r[k] in cin || r[k] == c
    ensures Below(r, |s.caches|) && CinNeeded(s, roots, r)
  {
    forall k | 0 <= k < |r|
      ensures r[k] < |s.caches| && HomeNeeded(s, roots, r[k])
    {
      if r[k] != c {
        var i :| 0 <= i < |cin| && cin[i] == r[k];
      }
    }
  }

  /** Looks for the first input of `e` that has yet to be scheduled, and notes the caches and the INPUT
      leaves met on the way. */
  method Scan(s: State, p: Plan, e: nat, ghost roots: set<nat>)
    returns (next: Option<nat>, cin: seq<nat>, inside: set<nat>)
    requires Homed(s) && Pending(s, roots, e)
    requires Below(p.cin, |s.caches|) && CinNeeded(s, roots, p.cin) && InsideNeeded(s, roots, p.inside)
    ensures (forall k :: 0 <= k < |p.cin| ==> p.cin[k] in cin) && p.inside <= inside
    ensures Below(cin, |s.caches|) && CinNeeded(s, roots, cin) && InsideNeeded(s, roots, inside)
    ensures next.Some? ==> next.value < e && next.value !in p.visited && Pending(s, roots, next.value)
    ensures next.None? ==> forall i :: 0 <= i < |s.exprs[e].inputs| ==>
                             Ready(s, p.(cin := cin, inside := inside), s.exprs[e].inputs[i])
  {
    var inputs := s.exprs[e].inputs;
    next, cin, inside := None, p.cin, p.inside;
    assert ExprOk(s.exprs, e);
    for k := 0 to |inputs|
      invariant next.None?
      invariant forall k :: 0 <= k < |p.cin| ==> p.cin[k] in cin
      invariant p.inside <= inside && InsideNeeded(s, roots, inside)
      invariant Below(cin, |s.caches|) && CinNeeded(s, roots, cin)
      invariant forall i :: 0 <= i < k ==> Ready(s, p.(cin := cin, inside := inside), inputs[i])
    {
      var x := inputs[k].expr;
      assert VarOk(s.exprs, inputs[k], e);
      ghost var before := p.(cin := cin, inside := inside);
      NeededInput(s, roots, e, k);
      if s.exprs[x].Leaf? {
        if s.exprs[x].isInput {
          inside := inside + {x};
        }
      } else if s.home[x].Some? {
        cin := AddInput(cin, s.home[x].value);
        CinGrows(s, roots, before.cin, s.home[x].value, cin);
      } else if x !in p.visited {
        next := Some(x);
        return;
      }
      assert forall i :: 0 <= i < k ==> Ready(s, before, inputs[i]);
    }
  }

  /** Where the session finds `v`. */
  function Locate(s: State, visited: map<nat, nat>, v: Var): Ref
    requires v.expr < |s.exprs| && |s.home| == |s.offset| == |s.exprs|
  {
    if s.exprs[v.expr].Leaf? then LeafRef(v.expr)
    else if s.home[v.expr].Some? then CacheRef(s.home[v.expr].value, s.offset[v.expr] + v.index)
    else if v.expr in visited then Local(visited[v.expr], v.index)
    else LeafRef(v.expr)
  }

  lemma LocateOk(s: State, want: set<nat>, roots: set<nat>, p: Plan, pipe: seq<Entry>, v: Var)
    requires Sized(s) && SearchOk(want, roots, p) && Ready(s, p, v) && p.pipe <= pipe
    ensures RefOk(s, p.cin, p.inside, pipe, |p.pipe|, Locate(s, p.visited, v), v)
  {
  }

  method LocateAll(s: State, visited: map<nat, nat>, inputs: seq<Var>) returns (refs: seq<Ref>)
    requires |s.home| == |s.offset| == |s.exprs| && forall k :: 0 <= k < |inputs| ==> inputs[k].expr < |s.exprs|
    ensures |refs| == |inputs| && forall k :: 0 <= k < |inputs| ==> refs[k] == Locate(s, visited, inputs[k])
  {
    refs := [];
    for i := 0 to |inputs|
      invariant |refs| == i
      invariant forall k :: 0 <= k < i ==> refs[k] == Locate(s, visited, inputs[k])
    {
      refs := refs + [Locate(s, visited, inputs[i])];
    }
  }

  /** Schedules `e`, whose inputs are all ready. */
  method Schedule(s: State, p: Plan, e: nat, isRoot: bool, ghost roots: set<nat>) returns (p': Plan)
    requires Homed(s) && PlanOk(s, roots, p)
    requires p.stack != [] && e == p.stack[|p.stack| - 1] && isRoot == (e in roots)
    requires forall i :: 0 <= i < |s.exprs[e].inputs| ==> Ready(s, p, s.exprs[e].inputs[i])
    ensures PlanOk(s, roots, p')
    ensures p'.stack == p.stack[..|p.stack| - 1] && p'.visited.Keys == p.visited.Keys + {e}
  {
    var refs := LocateAll(s, p.visited, s.exprs[e].inputs);
    var entry := Entry(e, s.exprs[e].op, refs, p.total, s.exprs[e].outputs);
    p' := Plan(
      p.stack[..|p.stack| - 1],
      if e in p.visited then p.visited else p.visited[e := |p.pipe|],
      p.pipe + [entry],
      p.total + s.exprs[e].outputs,
      if isRoot then p.dst[e := p.total] else p.dst,
      p.cin, p.inside);
    EntryFits(s, roots, p, entry);
    PipeAppend(s, p.cin, p.inside, p.pipe, p.total, entry);
    ScheduleSearch(Wanted(s, roots), roots, p, entry, p');
  }

  lemma EntryFits(s: State, roots: set<nat>, p: Plan, entry: Entry)
    requires Sized(s) && PlanOk(s, roots, p) && Pending(s, roots, entry.expr)
    requires entry.op == s.exprs[entry.expr].op && entry.outputs == s.exprs[entry.expr].outputs
    requires |entry.inputs| == |s.exprs[entry.expr].inputs|
    requires forall i :: 0 <= i < |entry.inputs| ==>
               && Ready(s, p, s.exprs[entry.expr].inputs[i])
               && entry.inputs[i] == Locate(s, p.visited, s.exprs[entry.expr].inputs[i])
    ensures EntryOk(s, p.cin, p.inside, p.pipe + [entry], |p.pipe|)
  {
    forall i | 0 <= i < |entry.inputs|
      ensures RefOk(s, p.cin, p.inside, p.pipe + [entry], |p.pipe|, entry.inputs[i], s.exprs[entry.expr].inputs[i])
    {
      LocateOk(s, Wanted(s, roots), roots, p, p.pipe + [entry], s.exprs[entry.expr].inputs[i]);
    }
  }

  lemma ScheduleSearch(want: set<nat>, roots: set<nat>, p: Plan, entry: Entry, p': Plan)
    requires SearchOk(want, roots, p) && p.stack != [] && entry.expr == p.stack[|p.stack| - 1]
    requires p'.stack == p.stack[..|p.stack| - 1] && p'.pipe == p.pipe + [entry]
    requires p'.visited == if entry.expr in p.visited then p.visited else p.visited[entry.expr := |p.pipe|]
    requires p'.dst == if entry.expr in roots then p.dst[entry.expr := entry.offset] else p.dst
    ensures SearchOk(want, roots, p')
  {
    forall r | r in p'.dst
      ensures r in roots && Placed(p'.pipe, r, p'.dst[r])
    {
      if r == entry.expr && entry.expr in roots {
        assert p'.pipe[|p.pipe|].expr == r;
      } else {
        assert Placed(p.pipe, r, p.dst[r]);
        var j: nat :| j < |p.pipe| && p.pipe[j].expr == r && p.pipe[j].offset == p.dst[r];
        assert p'.pipe[j] == p.pipe[j];
      }
    }
    forall r | r in roots
      ensures r in p'.stack || r in p'.dst
    {
      if r !in p'.dst {
        assert r in p.stack && r != entry.expr;
      }
    }
  }

  // --- The search ---

  function Elements(s: seq<nat>): set<nat>
  {
    set x | x in s
  }

  function CountVisited(stack: seq<nat>, visited: set<nat>): nat
  {
    if stack == [] then 0
    else CountVisited(stack[..|stack| - 1], visited) + if stack[|stack| - 1] in visited then 1 else 0
  }

  /** What one turn does to the stack and to the visited expressions. */
  ghost predicate Turn(p: Plan, p': Plan)
    requires p.stack != []
  {
    var e := p.stack[|p.stack| - 1];
    || (&& |p'.stack| == |p.stack| + 1 && p'.stack[..|p.stack|] == p.stack
        && p'.stack[|p.stack|] < e && p'.stack[|p.stack|] !in p.visited && p'.visited == p.visited)
    || (p'.stack == p.stack[..|p.stack| - 1] && p'.visited.Keys == p.visited.Keys + {e})
  }

  /** One turn of the loop: descend into an input that is not ready, or schedule the top of the stack. */
  method Step(s: State, p: Plan, roots: seq<nat>) returns (p': Plan)
    requires Homed(s) && PlanOk(s, Elements(roots), p) && p.stack != []
    ensures PlanOk(s, Elements(roots), p') && Turn(p, p') && p.stack[|p.stack| - 1] < |s.exprs|
  {
    var e := p.stack[|p.stack| - 1];
    var next, cin, inside := Scan(s, p, e, Elements(roots));
    PlanGrows(s, Elements(roots), p, cin, inside);
    p' := p.(cin := cin, inside := inside);
    if next.Some? {
      PlanPush(s, Elements(roots), p', next.value);
      p' := p'.(stack := p'.stack + [next.value]);
    } else {
      p' := Schedule(s, p', e, e in roots, Elements(roots));
    }
  }

  lemma PlanGrows(s: State, roots: set<nat>, p: Plan, cin: seq<nat>, inside: set<nat>)
    requires Sized(s) && PlanOk(s, roots, p)
    requires (forall k :: 0 <= k < |p.cin| ==> p.cin[k] in cin) && p.inside <= inside
    requires Below(cin, |s.caches|) && CinNeeded(s, roots, cin) && InsideNeeded(s, roots, inside)
    ensures PlanOk(s, roots, p.(cin := cin, inside := inside))
  {
    PipeGrows(s, p.cin, p.inside, cin, inside, p.pipe, p.total);
    SearchSame(Wanted(s, roots), roots, p, p.(cin := cin, inside := inside));
  }

  lemma SearchSame(want: set<nat>, roots: set<nat>, p: Plan, p': Plan)
    requires SearchOk(want, roots, p)
    requires p'.stack == p.stack && p'.visited == p.visited && p'.pipe == p.pipe && p'.dst == p.dst
    ensures SearchOk(want, roots, p')
  {
  }

  lemma PlanPush(s: State, roots: set<nat>, p: Plan, x: nat)
    requires Sized(s) && PlanOk(s, roots, p) && Pending(s, roots, x)
    ensures PlanOk(s, roots, p.(stack := p.stack + [x]))
  {
    SearchPush(Wanted(s, roots), roots, p, x);
  }

  lemma SearchPush(want: set<nat>, roots: set<nat>, p: Plan, x: nat)
    requires SearchOk(want, roots, p) && x in want
    ensures SearchOk(want, roots, p.(stack := p.stack + [x]))
  {
    assert forall r :: r in p.stack ==> r in p.stack + [x];
  }

  ghost function Unvisited(n: nat, p: Plan): (r: set<nat>)
  {
    set x: nat | x < n && x !in p.visited
  }

  ghost function Done(p: Plan): nat
  {
    CountVisited(p.stack, p.visited.Keys)
  }

  ghost function Top(stack: seq<nat>): nat
  {
    if stack == [] then 0 else stack[|stack| - 1] + 1
  }

  /** Pushes go down the graph, and every pop visits an expression or removes a visited one. */
  lemma TurnDecreases(n: nat, p: Plan, p': Plan)
    requires p.stack != [] && p.stack[|p.stack| - 1] < n && Turn(p, p')
    ensures || Unvisited(n, p') < Unvisited(n, p)
            || (Unvisited(n, p') == Unvisited(n, p) && Done(p') < Done(p))
            || (Unvisited(n, p') == Unvisited(n, p) && Done(p') == Done(p) && Top(p'.stack) < Top(p.stack))
  {
    var e := p.stack[|p.stack| - 1];
    if |p'.stack| == |p.stack| + 1 {
      assert p'.stack[..|p'.stack| - 1] == p.stack;
    } else if e in p.visited {
      assert p'.visited.Keys == p.visited.Keys;
      assert Unvisited(n, p') == Unvisited(n, p);
    } else {
      assert e in Unvisited(n, p) && e !in Unvisited(n, p');
    }
  }

  lemma StartOk(s: State, roots: seq<nat>)
    requires Sized(s)
    requires forall i :: 0 <= i < |roots| ==> roots[i] < |s.exprs| && s.exprs[roots[i]].Op? && s.home[roots[i]].None?
    ensures PlanOk(s, Elements(roots), Plan(roots, map[], [], 0, map[], [], {}))
  {
    forall i | 0 <= i < |roots|
      ensures Pending(s, Elements(roots), roots[i])
    {
      assert Within(s, roots[i], roots[i]);
    }
  }

  /** Every input of a pipeline entry is a leaf, a tensor of an older cache or an output of an earlier
      entry, and every root has its offset. */
  method BuildPipeline(s: State, roots: seq<nat>) returns (p: Plan)
    requires Homed(s)
    requires forall i :: 0 <= i < |roots| ==> roots[i] < |s.exprs| && s.exprs[roots[i]].Op? && s.home[roots[i]].None?
    ensures PlanOk(s, Elements(roots), p) && p.stack == []
  {
    p := Plan(roots, map[], [], 0, map[], [], {});
    StartOk(s, roots);
    while p.stack != []
      invariant PlanOk(s, Elements(roots), p)
      decreases Unvisited(|s.exprs|, p), Done(p), Top(p.stack)
    {
      ghost var before := p;
      p := Step(s, p, roots);
      TurnDecreases(|s.exprs|, before, p);
    }
  }

  // --- What the new cache waits for ---

  /** What a pipeline with these inputs waits for. */
  ghost predicate PlanWaits(s: State, cin: seq<nat>, inside: set<nat>, l: nat)
  {
    l in inside || exists k :: 0 <= k < |cin| && WaitsFor(s.caches, cin[k], l)
  }

  /** A scheduled expression waits only for what the pipeline waits for. */
  lemma {:induction false} EntryWaits(s: State, roots: set<nat>, p: Plan, j: nat, l: nat)
    requires Homed(s) && PlanOk(s, roots, p) && j < |p.pipe| && Awaits(View(s), p.pipe[j].expr, l)
    ensures PlanWaits(s, p.cin, p.inside, l)
  {
    var e := p.pipe[j].expr;
    assert Pending(s, roots, e);
    assert EntryOk(s, p.cin, p.inside, p.pipe, j);
    var i :| 0 <= i < |s.exprs[e].inputs| && Awaits(View(s), s.exprs[e].inputs[i].expr, l);
    var v := s.exprs[e].inputs[i];
    assert RefOk(s, p.cin, p.inside, p.pipe, j, p.pipe[j].inputs[i], v);
    match p.pipe[j].inputs[i]
    case LeafRef(_) =>
    case CacheRef(c, _) =>
      var k :| 0 <= k < |p.cin| && p.cin[k] == c;
    case Local(k, _) =>
      EntryWaits(s, roots, p, k, l);
  }

  lemma RootPlaced(want: set<nat>, roots: set<nat>, p: Plan, r: nat) returns (j: nat)
    requires SearchOk(want, roots, p) && p.stack == [] && r in roots
    ensures j < |p.pipe| && p.pipe[j].expr == r
  {
    assert r in p.dst && Placed(p.pipe, r, p.dst[r]);
    j :| j < |p.pipe| && p.pipe[j].expr == r;
  }

  lemma NeededHomeAwaited(s: State, roots: set<nat>, c: nat, l: nat)
    requires Homed(s) && HomeNeeded(s, roots, c) && WaitsFor(s.caches, c, l)
    ensures Awaited(View(s), roots, l)
  {
    var x :| 0 <= x < |s.exprs| && s.home[x] == Some(c) && Needed(s, roots, x);
    assert Awaits(View(s), x, l);
  }

  /** A finished pipeline waits exactly for what its roots wait for. */
  lemma PipelineWaits(s: State, roots: set<nat>, p: Plan, l: nat)
    requires Homed(s) && PlanOk(s, roots, p) && p.stack == []
    ensures PlanWaits(s, p.cin, p.inside, l) <==> Awaited(View(s), roots, l)
  {
    if Awaited(View(s), roots, l) {
      var r :| r in roots && Awaits(View(s), r, l);
      var j := RootPlaced(Wanted(s, roots), roots, p, r);
      EntryWaits(s, roots, p, j, l);
    } else if l in p.inside {
      assert Awaits(View(s), l, l);
    } else if PlanWaits(s, p.cin, p.inside, l) {
      var k :| 0 <= k < |p.cin| && WaitsFor(s.caches, p.cin[k], l);
      NeededHomeAwaited(s, roots, p.cin[k], l);
    }
  }
}
