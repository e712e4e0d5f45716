/** Every order that sorting by `topoIndex` may return is safe exactly when no fuse set has a tie. */
module TiedOrders {
  import opened Sequences
  import opened Commands
  import opened DominatorTree
  import opened FuseRegions
  import opened OpGraph
  import opened FusedKernel
  import opened KernelBuilder
  import opened Fusion
  import opened FusionTies

  // --- Orders by position ---

  /** The members of `s` from `lo` up to but not including `hi`, ascending. */
  ghost function Between(s: seq<nat>, lo: nat, hi: nat): (r: seq<nat>)
    ensures forall i :: 0 <= i < |r| ==> lo <= r[i] < hi && r[i] in s
    ensures forall x :: x in s && lo <= x < hi ==> x in r
    ensures forall i, j :: 0 <= i < j < |r| ==> r[i] < r[j]
    decreases hi
  {
    if hi <= lo then []
    else
      var r := Between(s, lo, hi - 1);
      if hi - 1 in s then r + [hi - 1] else r
  }

  lemma PositionsSorted(p: Program, s: seq<nat>, lo: nat, hi: nat)
    requires WellFormed(p) && hi <= |p.commands|
    ensures NoDup(Between(s, lo, hi)) && SortedByTopo(p, Between(s, lo, hi))
  {
    var r := Between(s, lo, hi);
    forall i, j | 0 <= i < j < |r|
      ensures TopoIndex(p, r[i]) <= TopoIndex(p, r[j])
    {
      TopoGrows(p, r[i], r[j]);
    }
  }

  /** The members up to `y`, without `x`. */
  ghost function Head(s: seq<nat>, x: nat, y: nat): (r: seq<nat>)
    requires x < y
    ensures forall i :: 0 <= i < |r| ==> r[i] <= y && r[i] != x
  {
    Between(s, 0, x) + Between(s, x + 1, y + 1)
  }

  /** Members before `x`, those between `x` and `y` with `y` last, then `x`, then the rest. */
  ghost function Moved(s: seq<nat>, x: nat, y: nat, n: nat): seq<nat>
    requires x < y
  {
    Head(s, x, y) + [x] + Between(s, y + 1, n)
  }

  /** Nothing in `b` has a smaller index than anything in `a`. */
  ghost predicate Precedes(p: Program, a: seq<nat>, b: seq<nat>)
  {
    forall i, j :: 0 <= i < |a| && 0 <= j < |b| ==> a[i] != b[j] && TopoIndex(p, a[i]) <= TopoIndex(p, b[j])
  }

  lemma SortedConcat(p: Program, a: seq<nat>, b: seq<nat>)
    requires SortedByTopo(p, a) && SortedByTopo(p, b) && NoDup(a) && NoDup(b) && Precedes(p, a, b)
    ensures SortedByTopo(p, a + b) && NoDup(a + b)
  {
  }

  lemma TopoGrows(p: Program, x: nat, y: nat)
    requires WellFormed(p) && x <= y < |p.commands|
    ensures TopoIndex(p, x) <= TopoIndex(p, y)
  {
  }

  /** Commands by position. */
  lemma PositionsPrecede(p: Program, a: seq<nat>, b: seq<nat>, h: nat)
    requires WellFormed(p)
    requires (forall i :: 0 <= i < |a| ==> a[i] < h) && (forall i :: 0 <= i < |b| ==> h <= b[i] < |p.commands|)
    ensures Precedes(p, a, b)
  {
    forall i, j | 0 <= i < |a| && 0 <= j < |b|
      ensures a[i] != b[j] && TopoIndex(p, a[i]) <= TopoIndex(p, b[j])
    {
      TopoGrows(p, a[i], b[j]);
    }
  }

  /** Commands up to one that ties with `x`. */
  lemma TiedPrecede(p: Program, a: seq<nat>, x: nat, y: nat)
    requires WellFormed(p) && x < y < |p.commands| && TopoIndex(p, x) == TopoIndex(p, y)
    requires forall i :: 0 <= i < |a| ==> a[i] <= y && a[i] != x
    ensures Precedes(p, a, [x])
  {
    forall i | 0 <= i < |a|
      ensures TopoIndex(p, a[i]) <= TopoIndex(p, x)
    {
      TopoGrows(p, a[i], y);
    }
  }

  lemma MovedMembers(s: seq<nat>, x: nat, y: nat, n: nat)
    requires x in s && x < y < n && Below(s, n)
    ensures forall z :: z in Moved(s, x, y, n) <==> z in s
  {
    var a, b, d := Between(s, 0, x), Between(s, x + 1, y + 1), Between(s, y + 1, n);
    forall z
      ensures z in Moved(s, x, y, n) <==> z in s
    {
      assert z in Moved(s, x, y, n) <==> z in a || z in b || z == x || z in d;
      BelowMember(s, n);
    }
  }

  /** The part of the moved order before `x`. */
  lemma HeadSorted(p: Program, s: seq<nat>, x: nat, y: nat)
    requires WellFormed(p) && x < y < |p.commands|
    ensures NoDup(Head(s, x, y)) && SortedByTopo(p, Head(s, x, y))
  {
    var a, b := Between(s, 0, x), Between(s, x + 1, y + 1);
    PositionsSorted(p, s, 0, x);
    PositionsSorted(p, s, x + 1, y + 1);
    PositionsPrecede(p, a, b, x + 1);
    SortedConcat(p, a, b);
  }

  /** With `x` behind them. */
  lemma HeadThenSorted(p: Program, s: seq<nat>, x: nat, y: nat)
    requires WellFormed(p) && x < y < |p.commands| && TopoIndex(p, x) == TopoIndex(p, y)
    ensures var r := Head(s, x, y) + [x];
            NoDup(r) && SortedByTopo(p, r) && forall i :: 0 <= i < |r| ==> r[i] <= y
  {
    var a := Head(s, x, y);
    HeadSorted(p, s, x, y);
    TiedPrecede(p, a, x, y);
    SortedConcat(p, a, [x]);
  }

  /** Moving a command behind a later one with the same index is another order the sort may return. */
  lemma MovedSorted(p: Program, s: seq<nat>, x: nat, y: nat)
    requires WellFormed(p) && x < y < |p.commands| && TopoIndex(p, x) == TopoIndex(p, y)
    ensures var r := Moved(s, x, y, |p.commands|); NoDup(r) && SortedByTopo(p, r)
  {
    var r, d := Head(s, x, y) + [x], Between(s, y + 1, |p.commands|);
    HeadThenSorted(p, s, x, y);
    PositionsSorted(p, s, y + 1, |p.commands|);
    PositionsPrecede(p, r, d, y + 1);
    SortedConcat(p, r, d);
  }

  lemma BelowMember(s: seq<nat>, n: nat)
    requires Below(s, n)
    ensures forall z :: z in s ==> z < n
  {
  }

  lemma MovedIsDisordered(p: Program, s: seq<nat>, x: nat, y: nat)
    requires x in s && y in s && x < y && Feeds(p, x, y)
    ensures !ProducersFirst(p, Moved(s, x, y, |p.commands|))
  {
    var a, b := Between(s, 0, x), Between(s, x + 1, y + 1);
    var r := Moved(s, x, y, |p.commands|);
    assert y in b;
    var i :| 0 <= i < |b| && b[i] == y;
    assert r[|a| + i] == y && r[|a| + |b|] == x;
  }

  // --- A rewriting for any choice of orders ---

  /** `order` is one that the sort may return for the set. */
  ghost predicate MaySort(p: Program, s: seq<nat>, order: seq<nat>)
  {
    NoDup(order) && SortedByTopo(p, order) && forall x :: x in order <==> x in s
  }

  lemma KernelExists(g: Pass, literal: Tensor -> Scalar, a: nat, order: seq<nat>) returns (kernel: Kernel)
    requires PassOk(g) && a < |g.sets| && MaySort(g.program, g.sets[a], order)
    ensures KernelOf(g.program, literal, g.sets[a], order, kernel)
  {
    var p, root := g.program, Last(g.sets[a]);
    assert FuseSetOk(g.succ, g.dom, g.legal, g.sets[a]) && root in g.sets[a];
    SetMember(g, a, root);
    var s, out := EmitAll(p, literal, order), p.commands[root].output;
    assert root in order;
    RootUnread(g, a, order);
    assert WrittenBy(p, order, out);
    InScope(p, literal, order, out);
    kernel := Kernel(s.inputs, [out], s.body, [s.vars[out]]);
    forall t: Tensor
      ensures t in kernel.outputs <==> t in s.vars && t !in s.used
    {
      InScope(p, literal, order, t);
      if t in s.vars && t !in s.used {
        var k :| 0 <= k < |order| && order[k] < |p.commands| && t == p.commands[order[k]].output;
        assert order[k] in order;
        StoredIsRoot(g, a, order, order[k]);
      }
    }
  }

  datatype Rewriting = Rewriting(orders: seq<seq<nat>>, kernels: seq<Kernel>, steps: seq<Step>)

  /** The next set handled. */
  lemma RewriteMore(g: Pass, literal: Tensor -> Scalar, m: nat, orders: seq<seq<nat>>, kernels0: seq<Kernel>,
                    steps0: seq<Step>, order: seq<nat>) returns (w: Rewriting)
    requires PassOk(g) && m < |g.sets| && MaySort(g.program, g.sets[m], order)
    requires RewrittenUpTo(g.program, literal, g.sets, m, orders, kernels0, steps0)
    ensures w.orders == orders + [order]
    ensures RewrittenUpTo(g.program, literal, g.sets, m + 1, w.orders, w.kernels, w.steps)
  {
    var s := g.sets[m];
    assert FuseSetOk(g.succ, g.dom, g.legal, s);
    var kernel := KernelExists(g, literal, m, order);
    var steps := seq(|steps0|, i requires 0 <= i < |steps0| =>
      if i in s then (if i == Last(s) then Fused(kernel) else Erased) else steps0[i]);
    SlotsFilled(s, |steps0|, kernel, steps);
    ReplacedSet(g.program, literal, g.sets, m, orders, kernels0, steps0, order, kernel, steps);
    w := Rewriting(orders + [order], kernels0 + [kernel], steps);
  }

  ghost predicate AllMaySort(g: Pass, orders: seq<seq<nat>>)
  {
    |orders| == |g.sets| &&
    forall a {:trigger MaySort(g.program, g.sets[a], orders[a])} ::
      0 <= a < |g.sets| ==> MaySort(g.program, g.sets[a], orders[a])
  }

  lemma SetMaySort(g: Pass, orders: seq<seq<nat>>, m: nat)
    requires AllMaySort(g, orders) && m < |g.sets|
    ensures MaySort(g.program, g.sets[m], orders[m])
  {
  }

  /** The first `m` sets are rewritten, each with its given order. */
  ghost predicate PartDone(g: Pass, literal: Tensor -> Scalar, orders: seq<seq<nat>>, m: nat, w: Rewriting)
  {
    && m <= |orders| && |w.orders| == m && (forall i :: 0 <= i < m ==> w.orders[i] == orders[i])
    && RewrittenUpTo(g.program, literal, g.sets, m, w.orders, w.kernels, w.steps)
  }

  lemma NothingRewritten(g: Pass, literal: Tensor -> Scalar, orders: seq<seq<nat>>) returns (w: Rewriting)
    ensures PartDone(g, literal, orders, 0, w)
  {
    var p := g.program;
    w := Rewriting([], [], seq(|p.commands|, i requires 0 <= i < |p.commands| => Plain(p.commands[i])));
  }

  lemma OneMoreRewritten(g: Pass, literal: Tensor -> Scalar, orders: seq<seq<nat>>, m: nat, w0: Rewriting)
    returns (w: Rewriting)
    requires PassOk(g) && AllMaySort(g, orders) && m < |g.sets| && PartDone(g, literal, orders, m, w0)
    ensures PartDone(g, literal, orders, m + 1, w)
  {
    SetMaySort(g, orders, m);
    w := RewriteMore(g, literal, m, w0.orders, w0.kernels, w0.steps, orders[m]);
  }

  lemma {:induction false} RewritingExists(g: Pass, literal: Tensor -> Scalar, orders: seq<seq<nat>>, m: nat)
    returns (w: Rewriting)
    requires PassOk(g) && AllMaySort(g, orders) && m <= |g.sets|
    ensures PartDone(g, literal, orders, m, w)
    decreases m
  {
    if m == 0 {
      w := NothingRewritten(g, literal, orders);
    } else {
      w := RewritingExists(g, literal, orders, m - 1);
      w := OneMoreRewritten(g, literal, orders, m - 1, w);
    }
  }

  lemma SlotsFilled(s: seq<nat>, n: nat, kernel: Kernel, steps: seq<Step>)
    requires NoDup(s) && s != [] && Below(s, n) && |steps| == n
    requires forall i :: 0 <= i < n && i in s ==> steps[i] == if i == Last(s) then Fused(kernel) else Erased
    ensures forall i :: 0 <= i < |s| ==> steps[s[i]] == if i == |s| - 1 then Fused(kernel) else Erased
  {
    forall i | 0 <= i < |s|
      ensures steps[s[i]] == if i == |s| - 1 then Fused(kernel) else Erased
    {
      assert s[i] in s && (i != |s| - 1 ==> s[i] != s[|s| - 1]);
    }
  }

  // --- Ties ---

  /** A producer and a consumer of one set tie. */
  ghost predicate Tied(p: Program, s: seq<nat>, x: nat, y: nat)
  {
    x in s && y in s && Feeds(p, x, y) && TopoIndex(p, x) == TopoIndex(p, y)
  }

  lemma NoTiesIff(p: Program, s: seq<nat>)
    requires WellFormed(p)
    ensures NoTies(p, s) <==> forall x: nat, y: nat :: !Tied(p, s, x, y)
  {
    forall x: nat, y: nat | x in s && y in s && Feeds(p, x, y)
      ensures x < y && TopoIndex(p, x) <= TopoIndex(p, y)
    {
    }
    if forall x: nat, y: nat :: !Tied(p, s, x, y) {
      forall x, y | x in s && y in s && Feeds(p, x, y)
        ensures TopoIndex(p, x) < TopoIndex(p, y)
      {
        assert !Tied(p, s, x, y);
      }
    }
  }

  /** Some order for every set, with the given one for set `a`. */
  ghost function Choice(g: Pass, a: nat, order: seq<nat>): (orders: seq<seq<nat>>)
    ensures |orders| == |g.sets|
    ensures forall b :: 0 <= b < |g.sets| ==>
              orders[b] == if b == a then order else Between(g.sets[b], 0, |g.program.commands|)
  {
    seq(|g.sets|, b requires 0 <= b < |g.sets| =>
      if b == a then order else Between(g.sets[b], 0, |g.program.commands|))
  }

  lemma ChoiceMaySort(g: Pass, a: nat, order: seq<nat>)
    requires PassOk(g) && a < |g.sets| && MaySort(g.program, g.sets[a], order)
    ensures AllMaySort(g, Choice(g, a, order))
  {
    forall b: nat | b < |g.sets|
      ensures MaySort(g.program, g.sets[b], Choice(g, a, order)[b])
    {
      assert FuseSetOk(g.succ, g.dom, g.legal, g.sets[b]);
      PositionsSorted(g.program, g.sets[b], 0, |g.program.commands|);
      BelowMember(g.sets[b], |g.program.commands|);
    }
  }

  /** An order of a tied set that the sort may return although a reader comes before its producer. */
  lemma TiedOrder(g: Pass, a: nat, x: nat, y: nat) returns (order: seq<nat>)
    requires PassOk(g) && a < |g.sets| && Tied(g.program, g.sets[a], x, y)
    ensures MaySort(g.program, g.sets[a], order) && !ProducersFirst(g.program, order)
  {
    var s, n := g.sets[a], |g.program.commands|;
    assert FuseSetOk(g.succ, g.dom, g.legal, s);
    BelowMember(s, n);
    TiedAscend(g.program, s, x, y);
    order := Moved(s, x, y, n);
    MovedSorted(g.program, s, x, y);
    MovedMembers(s, x, y, n);
    MovedIsDisordered(g.program, s, x, y);
  }

  lemma TiedAscend(p: Program, s: seq<nat>, x: nat, y: nat)
    requires WellFormed(p) && Tied(p, s, x, y)
    ensures x < y
  {
  }

  /** A rewriting that the pass may produce, with a kernel that reads before it produces. */
  lemma TieDisorders(g: Pass, literal: Tensor -> Scalar, a: nat, x: nat, y: nat)
    returns (orders: seq<seq<nat>>, kernels: seq<Kernel>, steps: seq<Step>)
    requires PassOk(g) && a < |g.sets| && Tied(g.program, g.sets[a], x, y)
    ensures Rewritten(g.program, literal, g.sets, orders, kernels, steps) && !ProducersFirst(g.program, orders[a])
  {
    var order := TiedOrder(g, a, x, y);
    var choice := Choice(g, a, order);
    ChoiceMaySort(g, a, order);
    var w := RewritingExists(g, literal, choice, |g.sets|);
    orders, kernels, steps := w.orders, w.kernels, w.steps;
    assert orders[a] == order;
  }

  /** When a producer and its consumer in one fuse set tie, some order that sorting may return makes the kernel
      load a tensor that nothing writes any more, and the rewritten list computes a wrong value. */
  lemma TieLosesTensor(g: Pass, literal: Tensor -> Scalar, mark: Scalar, plain: Scalar, a: nat, x: nat, y: nat)
    returns (orders: seq<seq<nat>>, kernels: seq<Kernel>, steps: seq<Step>)
    requires PassOk(g) && a < |g.sets| && Tied(g.program, g.sets[a], x, y)
    requires Telling(g.program, literal, mark, plain) && Nonempty(g.program)
    ensures Rewritten(g.program, literal, g.sets, orders, kernels, steps)
    ensures !Preserves(g.program, literal, Survivors(steps))
  {
    orders, kernels, steps := TieDisorders(g, literal, a, x, y);
    DisorderLoses(g, literal, orders, kernels, steps, mark, plain, a);
  }

  ghost predicate AlwaysPreserves(g: Pass, literal: Tensor -> Scalar)
    requires WellFormed(g.program)
  {
    forall orders: seq<seq<nat>>, kernels: seq<Kernel>, steps: seq<Step> ::
      Rewritten(g.program, literal, g.sets, orders, kernels, steps) ==> Preserves(g.program, literal, Survivors(steps))
  }

  /** Every order that the sort may return preserves the meaning exactly when no set has a tie. */
  lemma AlwaysPreservesIff(g: Pass, literal: Tensor -> Scalar, mark: Scalar, plain: Scalar)
    requires PassOk(g) && Telling(g.program, literal, mark, plain) && Nonempty(g.program)
    ensures AlwaysPreserves(g, literal) <==> forall a :: 0 <= a < |g.sets| ==> NoTies(g.program, g.sets[a])
  {
    if forall a :: 0 <= a < |g.sets| ==> NoTies(g.program, g.sets[a]) {
      forall orders: seq<seq<nat>>, kernels: seq<Kernel>, steps: seq<Step> |
        Rewritten(g.program, literal, g.sets, orders, kernels, steps)
        ensures Preserves(g.program, literal, Survivors(steps))
      {
        NoTiesFirst(g, literal, orders, kernels, steps);
        FusionPreservesMeaning(g, literal, orders, kernels, steps);
      }
    } else {
      var a: nat :| a < |g.sets| && !NoTies(g.program, g.sets[a]);
      NoTiesIff(g.program, g.sets[a]);
      var x: nat, y: nat :| Tied(g.program, g.sets[a], x, y);
      var orders, kernels, steps := TieLosesTensor(g, literal, mark, plain, a, x, y);
    }
  }

  // --- A program with a tie that the pass meets ---

  /** t1 := f(t0), t2 := f(t1), t3 := f(t2), t4 := f(t3, t1); the first two commands share an info. The set is
      listed as the breadth-first search leaves it, which is in order for the sort. */
  ghost function TiedProgram(): Program
  {
    Program([Command(0, true, true, [0], 1), Command(0, true, true, [1], 2),
             Command(0, true, true, [2], 3), Command(0, true, true, [3, 1], 4)],
            [1, 1, 1, 1, 1], {}, [0, 0, 1, 2])
  }

  ghost function TiedPass(): Pass
  {
    Pass(TiedProgram(), [[1, 3], [2], [3], []], [Node(3), Node(2), Node(3), Null], [true, true, true, true],
         [[1, 0, 2, 3]])
  }

  lemma TiedShapes()
    ensures forall i :: 0 <= i < 4 ==> Shaped(TiedProgram(), TiedProgram().commands[i])
  {
  }

  lemma TiedWrites()
    ensures WrittenOnce(TiedProgram())
  {
    var p := TiedProgram();
    forall i | 0 <= i < 4
      ensures p.commands[i].output == i + 1 && forall t :: t in p.commands[i].inputs ==> t <= i
    {
    }
  }

  lemma TiedProgramOk()
    ensures WellFormed(TiedProgram())
  {
    TiedShapes();
    TiedWrites();
  }

  lemma TiedEdgesOk()
    ensures EdgesOf(TiedProgram(), TiedPass().succ, 4)
  {
    var p, succ := TiedProgram(), TiedPass().succ;
    forall i, x | 0 <= i < x < 4
      ensures x in succ[i] <==> Feeds(p, i, x)
    {
      assert p.commands[x].inputs == if x == 1 then [1] else if x == 2 then [2] else [3, 1];
    }
  }

  lemma TiedTreeOk()
    ensures DomTree(TiedPass().succ, TiedPass().dom, false)
  {
    var succ, dom := TiedPass().succ, TiedPass().dom;
    assert Forward(succ) && TreeOk(dom);
    assert Chain(dom, Null) == {};
    assert Chain(dom, Node(3)) == {3};
    assert Chain(dom, Node(2)) == {2, 3};
    assert Chain(dom, Node(1)) == {1, 2, 3};
    assert Meet(dom, succ[0], 1) == {1, 2, 3};
    assert Meet(dom, succ[0], 2) == {3};
    assert Meet(dom, succ[1], 1) == {2, 3};
    assert Meet(dom, succ[2], 1) == {3};
  }

  lemma TiedSetOk()
    ensures var g := TiedPass();
            Forward(g.succ) && TreeOk(g.dom) && FuseSetsOk(g.succ, g.dom, g.legal, g.sets)
  {
    TiedTreeOk();
    var g := TiedPass();
    assert RegionLegal(g.succ, g.legal, 2, 3);
    assert RegionLegal(g.succ, g.legal, 1, 3);
    assert RegionLegal(g.succ, g.legal, 0, 3);
    assert Member(g.succ, g.dom, g.legal, 3, 3);
    assert Member(g.succ, g.dom, g.legal, 3, 2);
    assert Member(g.succ, g.dom, g.legal, 3, 1);
    assert Member(g.succ, g.dom, g.legal, 3, 0);
    assert FuseSetOk(g.succ, g.dom, g.legal, g.sets[0]);
  }

  /** The tree is the one that the sweep builds. */
  lemma TiedTreeClimbed()
    ensures var g := TiedPass();
            && Forward(g.succ) && TreeOk(g.dom)
            && forall n :: 0 <= n < |g.succ| ==> Climbed(TiedProgram().topo, g.succ, g.dom, n)
  {
    TiedTreeOk();
    var topo, succ, dom := TiedProgram().topo, TiedPass().succ, TiedPass().dom;
    assert Climb(topo, dom, Node(2), Node(3)) == Node(3);
    assert Climb(topo, dom, Node(1), Node(3)) == Node(3);
    assert FoldClimb(topo, dom, succ[0], 1) == Node(1);
    assert FoldClimb(topo, dom, succ[0], 2) == Node(3);
  }

  /** The set is the only one. */
  lemma TiedSetFound()
    ensures var g := TiedPass();
            Forward(g.succ) && TreeOk(g.dom) && AllFound(g.succ, g.dom, g.legal, g.sets)
  {
    TiedSetOk();
    var g := TiedPass();
    assert FuseSetOk(g.succ, g.dom, g.legal, g.sets[0]);
    forall x | 0 <= x < 4
      ensures Member(g.succ, g.dom, g.legal, 3, x)
    {
      assert x in g.sets[0];
    }
    assert FuseRoot(g.succ, g.dom, g.legal, 3);
    assert HasMore(g.succ, g.dom, g.legal, 3) by {
      assert Member(g.succ, g.dom, g.legal, 3, 0);
    }
    forall r: nat
      ensures EndsIn(g.sets, r) <==> r == 3
    {
      assert g.sets[0][|g.sets[0]| - 1] == 3;
    }
    assert !FuseRoot(g.succ, g.dom, g.legal, 2);
    assert !FuseRoot(g.succ, g.dom, g.legal, 1);
    assert !FuseRoot(g.succ, g.dom, g.legal, 0);
  }

  lemma TiedPassOk()
    ensures PassOk(TiedPass())
  {
    TiedProgramOk();
    TiedEdgesOk();
    TiedTreeOk();
    TiedSetOk();
    assert TiedProgram().topo[0] == TiedProgram().topo[1];
    assert !StrictTopo(TiedProgram());
  }

  lemma TiedOrderOk()
    ensures MaySort(TiedProgram(), [1, 0, 2, 3], [1, 0, 2, 3]) && !ProducersFirst(TiedProgram(), [1, 0, 2, 3])
  {
    var order := [1, 0, 2, 3];
    assert Feeds(TiedProgram(), order[1], order[0]);
  }

  /** A single set that is a disordered order of itself. */
  lemma SortedAsItIs(g: Pass, literal: Tensor -> Scalar, mark: Scalar, plain: Scalar) returns (w: Rewriting)
    requires PassOk(g) && |g.sets| == 1 && Telling(g.program, literal, mark, plain) && Nonempty(g.program)
    requires MaySort(g.program, g.sets[0], g.sets[0]) && !ProducersFirst(g.program, g.sets[0])
    ensures w.orders == g.sets && Fails(g, literal, w)
  {
    w := AsItIs(g, literal);
    DisorderLoses(g, literal, w.orders, w.kernels, w.steps, mark, plain, 0);
  }

  lemma AsItIs(g: Pass, literal: Tensor -> Scalar) returns (w: Rewriting)
    requires PassOk(g) && |g.sets| == 1 && MaySort(g.program, g.sets[0], g.sets[0])
    ensures w.orders == g.sets && Rewritten(g.program, literal, g.sets, w.orders, w.kernels, w.steps)
  {
    assert AllMaySort(g, g.sets);
    w := RewritingExists(g, literal, g.sets, 1);
    assert w.orders == g.sets;
  }

  /** The pass may produce this rewriting, and it computes something else. */
  ghost predicate Fails(g: Pass, literal: Tensor -> Scalar, w: Rewriting)
    requires WellFormed(g.program)
  {
    && Rewritten(g.program, literal, g.sets, w.orders, w.kernels, w.steps)
    && !Preserves(g.program, literal, Survivors(w.steps))
  }

  lemma TiedProgramTells(literal: Tensor -> Scalar, mark: Scalar, plain: Scalar)
    requires mark != plain
    ensures Telling(TiedProgram(), literal, mark, plain) && Nonempty(TiedProgram())
  {
  }

  /** The tree and the set are what the pass finds for this program, the set is sorted as it is, and the rewritten
      list is wrong. */
  lemma TiedProgramFails(literal: Tensor -> Scalar, mark: Scalar, plain: Scalar)
    requires mark != plain
    ensures var g := TiedPass();
            && PassOk(g) && g.program == TiedProgram() && g.sets == [[1, 0, 2, 3]]
            && AllFound(g.succ, g.dom, g.legal, g.sets)
            && forall n :: 0 <= n < |g.succ| ==> Climbed(g.program.topo, g.succ, g.dom, n)
    ensures exists w: Rewriting :: w.orders == TiedPass().sets && Fails(TiedPass(), literal, w)
  {
    TiedPassOk();
    TiedTreeClimbed();
    TiedSetFound();
    TiedOrderOk();
    TiedProgramTells(literal, mark, plain);
    var w := SortedAsItIs(TiedPass(), literal, mark, plain);
  }
}
