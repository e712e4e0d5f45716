/** Two expressions that are prepared together share a cache. This module follows two such runs from an empty
    engine: after a write a dirty cache has a clean consumer, and after a resize a variable cannot be read
    although every leaf that it depends on has been written. */
module SharedCaches {
  import opened Wrappers
  import opened ExprGraph
  import opened Caches
  import opened Waits
  import opened ComputeWalk
  import opened Closure
  import opened Engine
  import opened Scripts

  /** Leaves 0 and 1, op 2 on 0, op 3 on 1 and op 4 on 3. */
  function Branches(): seq<Expr>
  {
    [Leaf(true), Leaf(true), Op(0, [Var(0, 0)], 1), Op(0, [Var(1, 0)], 1), Op(0, [Var(3, 0)], 1)]
  }

  /** Creates them, writes both leaves and prepares 2 and 3 together. */
  function Setup(a: Value, b: Value): seq<Step>
  {
    [ MakeLeaf(true, a), MakeLeaf(true, b),
      MakeOp(0, [Var(0, 0)], 1), MakeOp(0, [Var(1, 0)], 1), MakeOp(0, [Var(3, 0)], 1),
      WriteTo(0, a), WriteTo(1, b), PrepareAll([Var(2, 0), Var(3, 0)]) ]
  }

  lemma BranchesDepend()
    ensures GraphOk(Branches())
    ensures forall e: nat :: DependsOn(Branches(), e, 0) <==> e == 0 || e == 2
    ensures forall l: nat :: DependsOn(Branches(), 3, l) ==> l == 1 || l == 3
  {
    var g := Branches();
    assert GraphOk(g);
    DependsOnInput(g, 2, 0);
    assert !DependsOn(g, 1, 0);
    assert !UsesDependent(g, 3, 0);
    assert !UsesDependent(g, 4, 0);
  }

  lemma LeavesMade(sem: Semantics, a: Value, b: Value)
    ensures After(sem, Setup(a, b)[..2]) ==
            Plain([Leaf(true), Leaf(true)], [a, b], [true, true], [None, None], [])
  {
    var t := Setup(a, b);
    assert t[..0] == [];
    AfterStep(sem, t, 0);
    AfterStep(sem, t, 1);
  }

  lemma OpsMade(sem: Semantics, a: Value, b: Value)
    ensures After(sem, Setup(a, b)[..5]) ==
            Plain(Branches(), [a, b, sem.blank, sem.blank, sem.blank], [true, true, false, false, false],
                  [None, None, None, None, None], [])
  {
    var t := Setup(a, b);
    LeavesMade(sem, a, b);
    AfterStep(sem, t, 2);
    AfterStep(sem, t, 3);
    AfterStep(sem, t, 4);
    assert After(sem, t[..5]).exprs == Branches();
  }

  lemma LeavesWritten(sem: Semantics, a: Value, b: Value)
    ensures After(sem, Setup(a, b)[..7]) ==
            Plain(Branches(), [a, b, sem.blank, sem.blank, sem.blank], [false, false, false, false, false],
                  [None, None, None, None, None], [])
  {
    var t := Setup(a, b);
    OpsMade(sem, a, b);
    AfterStep(sem, t, 5);
    AfterStep(sem, t, 6);
  }

  /** What a caller knows then: 2 and 3 share a cache that waits for both leaves. */
  lemma SetupDone(sem: Semantics, a: Value, b: Value)
    ensures var p := After(sem, Setup(a, b));
            && p.exprs == Branches() && p.unwritten == [false, false, false, false, false]
            && p.home == [None, None, Some(0), Some(0), None] && |p.waits| == 1 && 0 in p.waits[0]
  {
    var t := Setup(a, b);
    var p := After(sem, t[..7]);
    LeavesWritten(sem, a, b);
    AfterStep(sem, t, 7);
    assert t[..8] == t;
    var vars := [Var(2, 0), Var(3, 0)];
    assert vars[0].expr == 2 && vars[1].expr == 3;
    assert Uncached(p, vars) == {2, 3};
    assert Awaits(p, 0, 0);
    AwaitsInput(p, 2, 0, 0);
  }

  // --- A write ---

  /** Cache 0 is shared by 2 and 3, and cache 1 of 4 was made for a read. */
  ghost predicate TwoCaches(s: State)
  {
    && Structure(s) && s.exprs == Branches() && s.home == [None, None, Some(0), Some(0), Some(1)] && |s.caches| == 2
    && Clean(s.caches, 1) && InputsClean(s, 1) && 0 in s.caches[1].inputs
  }

  lemma TwoCachesClosed(s: State)
    requires TwoCaches(s)
    ensures DirtyClosed(s)
  {
    assert CacheOk(s, 0);
    assert InputsClosed(s.caches, 0) && InputsClosed(s.caches, 1);
  }

  lemma WriteOpens(s: State, x: Value, dirty: set<nat>)
    requires TwoCaches(s) && AllConsumers(s, dirty, 0)
    ensures !DirtyClosed(Written(s, 0, x, dirty))
  {
    BranchesDepend();
    var t := Written(s, 0, x, dirty);
    var k :| 0 <= k < |s.caches[1].inputs| && s.caches[1].inputs[k] == 0;
    assert 2 in dirty && 4 !in dirty;
    assert LivesIn(s, dirty, 0) && !LivesIn(s, dirty, 1);
    assert !PairClosed(t.caches, 1, t.caches[1].inputs[k]);
    assert t.home[4] == Some(1);
    assert Alive(t, 1) && !InputsClosed(t.caches, 1);
  }

  lemma ReadMakesTwo(s: State, s': State)
    requires Structure(s) && Structure(s') && s.exprs == s'.exprs == Branches() && |s.caches| == 1 && |s'.caches| == 2
    requires s.home == [None, None, Some(0), Some(0), None] && s'.home == [None, None, Some(0), Some(0), Some(1)]
    requires NewlyRead(s, s', 4)
    ensures TwoCaches(s')
  {
    assert s.exprs[4].inputs[0].expr == 3;
  }

  /** After the setup a read of 4 cleans everything. A write to leaf 0 then makes the shared cache dirty but not the
      cache of 4, which reads it. The reader is right to stay clean: it takes only the tensor that leaf 1 feeds. */
  method BreakClosure(sem: Semantics, a: Value, b: Value, x: Value)
    returns (engine: Engine, ghost before: State, ghost dirty: set<nat>)
    ensures fresh(engine) && engine.sem == sem && engine.Valid() && Inv(sem, before)
    ensures DirtyClosed(before) && !DirtyClosed(engine.Now())
    ensures Sized(before) && before.exprs == Branches() && AllConsumers(before, dirty, 0)
    ensures engine.Now() == Written(before, 0, x, dirty)
  {
    var results;
    ghost var trace;
    engine, results, trace := RunScript(sem, Setup(a, b));
    ghost var s := engine.Now();
    SetupState(sem, a, b, s);
    var r;
    ghost var caches, ran;
    r, caches, ran := engine.Read(Var(4, 0));
    before := engine.Now();
    ReadState(s, before);
    ReadMakesTwo(s, before);
    TwoCachesClosed(before);
    var ok;
    ok, dirty := engine.Write(0, x);
    WriteOpens(before, x, dirty);
  }

  lemma SetupState(sem: Semantics, a: Value, b: Value, s: State)
    requires StateOk(sem, Setup(a, b), |Setup(a, b)|, s)
    ensures Structure(s) && s.exprs == Branches() && s.home == [None, None, Some(0), Some(0), None] && |s.caches| == 1
    ensures VarOk(s.exprs, Var(4, 0), |s.exprs|) && Answers(View(s), 4)
  {
    SetupDone(sem, a, b);
    assert Setup(a, b)[..|Setup(a, b)|] == Setup(a, b);
    assert |View(s).waits| == |s.caches|;
  }

  lemma ReadState(s: State, s': State)
    requires Structure(s) && Structure(s') && s.exprs == Branches() && |s.caches| == 1
    requires s.home == [None, None, Some(0), Some(0), None]
    requires View(s') == Prepared(View(s), Uncached(View(s), [Var(4, 0)]))
    ensures s'.exprs == Branches() && s'.home == [None, None, Some(0), Some(0), Some(1)] && |s'.caches| == 2
  {
    UncachedOne(View(s), Var(4, 0));
    assert s'.exprs == View(s').exprs && s'.home == View(s').home;
    assert |View(s').waits| == |s'.caches| && |View(s).waits| == |s.caches|;
  }

  // --- A resize ---

  lemma Resized(sem: Semantics, a: Value, b: Value, x: Value)
    ensures var p := After(sem, Setup(a, b) + [ResizeLeaf(0, x)]);
            && p.exprs == Branches() && p.unwritten == [true, false, false, false, false]
            && p.home == [None, None, None, Some(0), None] && |p.waits| == 1 && 0 in p.waits[0]
  {
    var t := Setup(a, b) + [ResizeLeaf(0, x)];
    SetupDone(sem, a, b);
    BranchesDepend();
    AfterStep(sem, t, |Setup(a, b)|);
    assert t[..|Setup(a, b)|] == Setup(a, b) && t[..|t|] == t;
  }

  lemma OnlyLeafOneBelow(p: Plain)
    requires PlainOk(p) && p.exprs == Branches() && p.unwritten == [true, false, false, false, false]
    ensures AllWritten(p.exprs, p.unwritten, 3)
  {
    BranchesDepend();
  }

  /** After the setup leaf 0 is resized. Op 3 stays in the shared cache. All leaves that it depends on have been
      written, but a read of it waits for leaf 0 and fails until that is written again. */
  lemma ResizeBlocks(sem: Semantics, a: Value, b: Value, x: Value, y: Value)
    ensures var p := After(sem, Setup(a, b) + [ResizeLeaf(0, x)]);
            && |p.home| == 5 && p.home[2] == None && p.home[3] == Some(0)
            && AllWritten(p.exprs, p.unwritten, 3) && !Answers(p, 3)
            && Answers(Advance(sem, p, WriteTo(0, y)), 3)
  {
    var p := After(sem, Setup(a, b) + [ResizeLeaf(0, x)]);
    Resized(sem, a, b, x);
    OnlyLeafOneBelow(p);
    assert Awaits(p, 3, 0);
    var q := Advance(sem, p, WriteTo(0, y));
    assert q.unwritten == [false, false, false, false, false];
  }
}
