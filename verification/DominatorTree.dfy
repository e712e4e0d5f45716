/** The post-dominator tree of the command graph, as the fusion pass builds it in one
    backward sweep, and its meaning in terms of paths. */
module DominatorTree {

  datatype NodeRef = Null | Node(index: nat)

  /** Edges point forward: a command only feeds later ones. */
  ghost predicate Forward(succ: seq<seq<nat>>)
  {
    forall i, j :: 0 <= i < |succ| && 0 <= j < |succ[i]| ==> i < succ[i][j] < |succ|
  }

  /** Parents in the dominator tree point forward too. */
  ghost predicate TreeOk(dom: seq<NodeRef>)
  {
    forall i :: 0 <= i < |dom| && dom[i].Node? ==> i < dom[i].index < |dom|
  }

  /** A node together with its ancestors in the dominator tree. */
  ghost function Chain(dom: seq<NodeRef>, x: NodeRef): (a: set<nat>)
    requires TreeOk(dom) && (x.Node? ==> x.index < |dom|)
    ensures forall d :: d in a ==> x.Node? && x.index <= d < |dom|
    ensures x.Node? ==> x.index in a
    decreases if x.Node? then |dom| - x.index else 0, x.Node?
  {
    if x.Null? then {} else {x.index} + Chain(dom, dom[x.index])
  }

  // --- Order within a chain ---

  lemma {:induction false} ChainUp(dom: seq<NodeRef>, x: NodeRef, a: nat)
    requires TreeOk(dom) && (x.Node? ==> x.index < |dom|)
    requires a in Chain(dom, x)
    ensures Chain(dom, Node(a)) <= Chain(dom, x)
    decreases if x.Node? then |dom| - x.index else 0
  {
    if x.index != a {
      ChainUp(dom, dom[x.index], a);
    }
  }

  /** Two ancestors of one node lie on one line. */
  lemma {:induction false} ChainLinear(dom: seq<NodeRef>, x: NodeRef, a: nat, b: nat)
    requires TreeOk(dom) && (x.Node? ==> x.index < |dom|)
    requires a in Chain(dom, x) && b in Chain(dom, x) && a <= b
    ensures b in Chain(dom, Node(a))
    decreases if x.Node? then |dom| - x.index else 0
  {
    if x.index != a {
      ChainLinear(dom, dom[x.index], a, b);
    }
  }

  /** Only the entries above a node decide its chain. */
  lemma {:induction false} ChainFrame(dom: seq<NodeRef>, dom': seq<NodeRef>, x: NodeRef)
    requires TreeOk(dom) && TreeOk(dom') && |dom| == |dom'| && (x.Node? ==> x.index < |dom|)
    requires x.Node? ==> forall i :: x.index <= i < |dom| ==> dom[i] == dom'[i]
    ensures Chain(dom, x) == Chain(dom', x)
    decreases if x.Node? then |dom| - x.index else 0
  {
    if x.Node? {
      ChainFrame(dom, dom', dom[x.index]);
    }
  }

  // --- Paths and post-dominance ---

  ghost predicate Sink(succ: seq<seq<nat>>, n: nat)
  {
    n < |succ| && succ[n] == []
  }

  /** `path` runs along edges from `n` to a sink. */
  ghost predicate PathToSink(succ: seq<seq<nat>>, n: nat, path: seq<nat>)
    decreases |path|
  {
    && path != [] && path[0] == n && n < |succ|
    && if |path| == 1 then Sink(succ, n) else path[1] in succ[n] && PathToSink(succ, path[1], path[1..])
  }

  /** `d` lies on every path from `n` to a sink. */
  ghost predicate PostDominates(succ: seq<seq<nat>>, d: nat, n: nat)
  {
    forall path :: PathToSink(succ, n, path) ==> d in path
  }

  lemma {:induction false} PathExists(succ: seq<seq<nat>>, n: nat) returns (path: seq<nat>)
    requires Forward(succ) && n < |succ|
    ensures PathToSink(succ, n, path)
    ensures forall d :: d in path ==> n <= d
    decreases |succ| - n
  {
    if succ[n] == [] {
      path := [n];
    } else {
      var rest := PathExists(succ, succ[n][0]);
      path := [n] + rest;
      assert path[1..] == rest;
    }
  }

  lemma PostDominatesDown(succ: seq<seq<nat>>, d: nat, n: nat, s: nat)
    requires n < |succ| && s in succ[n] && d != n && PostDominates(succ, d, n)
    ensures PostDominates(succ, d, s)
  {
    forall path | PathToSink(succ, s, path)
      ensures d in path
    {
      var longer := [n] + path;
      assert longer[1..] == path;
      assert PathToSink(succ, n, longer);
      assert d in longer;
    }
  }

  lemma PostDominatesUp(succ: seq<seq<nat>>, d: nat, n: nat)
    requires n < |succ| && succ[n] != []
    requires forall s :: s in succ[n] ==> PostDominates(succ, d, s)
    ensures PostDominates(succ, d, n)
  {
    forall path | PathToSink(succ, n, path)
      ensures d in path
    {
      assert |path| > 1;
      assert d in path[1..];
    }
  }

  // --- What the backward sweep establishes ---

  /** The common part of the chains of the first `k` successors. */
  ghost function Meet(dom: seq<NodeRef>, succ: seq<nat>, k: nat): (m: set<nat>)
    requires TreeOk(dom) && 1 <= k <= |succ| && forall j :: 0 <= j < |succ| ==> succ[j] < |dom|
    ensures forall d :: d in m <==> forall j :: 0 <= j < k ==> d in Chain(dom, Node(succ[j]))
  {
    if k == 1 then Chain(dom, Node(succ[0])) else Meet(dom, succ, k - 1) * Chain(dom, Node(succ[k - 1]))
  }

  /** The parent of `n` is a common ancestor of all its successors; with strict topological
      indices it is the nearest one, and absent only when there is none. */
  ghost predicate ParentOk(succ: seq<seq<nat>>, dom: seq<NodeRef>, n: nat, strict: bool)
    requires Forward(succ) && TreeOk(dom) && |dom| == |succ| && n < |succ|
  {
    if succ[n] == [] then dom[n] == Null
    else
      && Chain(dom, dom[n]) <= Meet(dom, succ[n], |succ[n]|)
      && (strict ==> Chain(dom, dom[n]) == Meet(dom, succ[n], |succ[n]|))
  }

  ghost predicate DomTree(succ: seq<seq<nat>>, dom: seq<NodeRef>, strict: bool)
  {
    && Forward(succ) && TreeOk(dom) && |dom| == |succ|
    && forall n :: 0 <= n < |succ| ==> ParentOk(succ, dom, n, strict)
  }

  lemma MeetFrame(dom: seq<NodeRef>, dom': seq<NodeRef>, succ: seq<nat>, n: nat)
    requires TreeOk(dom) && TreeOk(dom') && |dom| == |dom'| && succ != []
    requires forall j :: 0 <= j < |succ| ==> n < succ[j] < |dom|
    requires forall i :: n < i < |dom| ==> dom[i] == dom'[i]
    ensures Meet(dom, succ, |succ|) == Meet(dom', succ, |succ|)
  {
    forall j | 0 <= j < |succ|
      ensures Chain(dom, Node(succ[j])) == Chain(dom', Node(succ[j]))
    {
      ChainFrame(dom, dom', Node(succ[j]));
    }
    var m, m' := Meet(dom, succ, |succ|), Meet(dom', succ, |succ|);
    assert forall d :: d in m <==> d in m';
  }

  lemma ParentFrame(succ: seq<seq<nat>>, dom: seq<NodeRef>, dom': seq<NodeRef>, n: nat, strict: bool)
    requires Forward(succ) && TreeOk(dom) && TreeOk(dom') && |dom| == |succ| == |dom'| && n < |succ|
    requires forall i :: n <= i < |dom| ==> dom[i] == dom'[i]
    requires ParentOk(succ, dom, n, strict)
    ensures ParentOk(succ, dom', n, strict)
  {
    if succ[n] != [] {
      ChainFrame(dom, dom', dom[n]);
      MeetFrame(dom, dom', succ[n], n);
    }
  }

  /** Soundness, for every graph: an ancestor lies on every path to a sink. */
  lemma {:induction false} AncestorsPostDominate(succ: seq<seq<nat>>, dom: seq<NodeRef>, strict: bool, n: nat, d: nat)
    requires DomTree(succ, dom, strict) && n < |succ|
    requires d in Chain(dom, Node(n))
    ensures PostDominates(succ, d, n)
    decreases |succ| - n
  {
    if d != n {
      assert ParentOk(succ, dom, n, strict);
      forall s | s in succ[n]
        ensures PostDominates(succ, d, s)
      {
        var j :| 0 <= j < |succ[n]| && succ[n][j] == s;
        assert d in Chain(dom, Node(succ[n][j]));
        AncestorsPostDominate(succ, dom, strict, s, d);
      }
      PostDominatesUp(succ, d, n);
    }
  }

  /** Completeness, with strict topological indices: every post-dominator is an ancestor. */
  lemma {:induction false} PostDominatorsAreAncestors(succ: seq<seq<nat>>, dom: seq<NodeRef>, n: nat, d: nat)
    requires DomTree(succ, dom, true) && n < |succ|
    requires PostDominates(succ, d, n)
    ensures d in Chain(dom, Node(n))
    decreases |succ| - n
  {
    if d != n {
      assert ParentOk(succ, dom, n, true);
      if succ[n] == [] {
        assert PathToSink(succ, n, [n]);
        assert false;
      } else {
        forall j | 0 <= j < |succ[n]|
          ensures d in Chain(dom, Node(succ[n][j]))
        {
          PostDominatesDown(succ, d, n, succ[n][j]);
          PostDominatorsAreAncestors(succ, dom, succ[n][j], d);
        }
      }
    }
  }

  /** `domainatePred` is the immediate post-dominator: null exactly when no other node
      post-dominates `n`, and otherwise the nearest of those that do. */
  lemma ImmediatePostDominator(succ: seq<seq<nat>>, dom: seq<NodeRef>, n: nat)
    requires DomTree(succ, dom, true) && n < |succ|
    ensures dom[n].Null? <==> !exists d :: d != n && PostDominates(succ, d, n)
    ensures dom[n].Node? ==>
              && dom[n].index != n && PostDominates(succ, dom[n].index, n)
              && forall d :: d != n && PostDominates(succ, d, n) ==> PostDominates(succ, d, dom[n].index)
  {
    forall d | d != n && PostDominates(succ, d, n)
      ensures dom[n].Node? && PostDominates(succ, d, dom[n].index)
    {
      PostDominatorsAreAncestors(succ, dom, n, d);
      AncestorsPostDominate(succ, dom, true, dom[n].index, d);
    }
    if dom[n].Node? {
      AncestorsPostDominate(succ, dom, true, n, dom[n].index);
    }
  }

  // --- The walk of two nodes ---

  ghost predicate RefOk(dom: seq<NodeRef>, x: NodeRef, lo: nat)
  {
    x.Node? ==> lo <= x.index < |dom|
  }

  /** Where two nodes meet that go up the tree by turns, the one with the smaller index first. */
  ghost function Climb(topo: seq<nat>, dom: seq<NodeRef>, x: NodeRef, y: NodeRef): (r: NodeRef)
    requires |topo| == |dom| && TreeOk(dom) && RefOk(dom, x, 0) && RefOk(dom, y, 0)
    ensures RefOk(dom, r, 0)
    decreases (if x.Node? then |dom| - x.index else 0) + (if y.Node? then |dom| - y.index else 0)
  {
    if x == y then x
    else if x.Null? || y.Null? then Null
    else if topo[x.index] < topo[y.index] then Climb(topo, dom, dom[x.index], y)
    else Climb(topo, dom, x, dom[y.index])
  }

  /** The first `n` nodes of the list, climbed one after the other. */
  ghost function FoldClimb(topo: seq<nat>, dom: seq<NodeRef>, list: seq<nat>, n: nat): (r: NodeRef)
    requires |topo| == |dom| && TreeOk(dom) && 1 <= n <= |list| && forall k :: 0 <= k < |list| ==> list[k] < |dom|
    ensures RefOk(dom, r, 0)
  {
    if n == 1 then Node(list[0]) else Climb(topo, dom, FoldClimb(topo, dom, list, n - 1), Node(list[n - 1]))
  }

  /** The parent of `n` is where its successors meet. */
  ghost predicate Climbed(topo: seq<nat>, succ: seq<seq<nat>>, dom: seq<NodeRef>, n: nat)
    requires |topo| == |dom| == |succ| && TreeOk(dom) && Forward(succ) && n < |succ|
  {
    dom[n] == if succ[n] == [] then Null else FoldClimb(topo, dom, succ[n], |succ[n]|)
  }

  /** Only the part of the tree above both nodes matters. */
  lemma {:induction false} ClimbFrame(
    topo: seq<nat>, dom: seq<NodeRef>, dom': seq<NodeRef>, x: NodeRef, y: NodeRef, lo: nat)
    requires |topo| == |dom| == |dom'| && TreeOk(dom) && TreeOk(dom') && RefOk(dom, x, lo) && RefOk(dom, y, lo)
    requires forall k :: lo <= k < |dom| ==> dom'[k] == dom[k]
    ensures Climb(topo, dom', x, y) == Climb(topo, dom, x, y) && RefOk(dom, Climb(topo, dom, x, y), lo)
    decreases (if x.Node? then |dom| - x.index else 0) + (if y.Node? then |dom| - y.index else 0)
  {
    if x != y && x.Node? && y.Node? {
      if topo[x.index] < topo[y.index] {
        ClimbFrame(topo, dom, dom', dom[x.index], y, lo);
      } else {
        ClimbFrame(topo, dom, dom', x, dom[y.index], lo);
      }
    }
  }

  lemma {:induction false} FoldFrame(
    topo: seq<nat>, dom: seq<NodeRef>, dom': seq<NodeRef>, list: seq<nat>, n: nat, lo: nat)
    requires |topo| == |dom| == |dom'| && TreeOk(dom) && TreeOk(dom') && 1 <= n <= |list|
    requires forall k :: 0 <= k < |list| ==> lo <= list[k] < |dom|
    requires forall k :: lo <= k < |dom| ==> dom'[k] == dom[k]
    ensures FoldClimb(topo, dom', list, n) == FoldClimb(topo, dom, list, n)
    ensures RefOk(dom, FoldClimb(topo, dom, list, n), lo)
    decreases n
  {
    if n > 1 {
      FoldFrame(topo, dom, dom', list, n - 1, lo);
      ClimbFrame(topo, dom, dom', FoldClimb(topo, dom, list, n - 1), Node(list[n - 1]), lo);
    }
  }

  /** Setting the parent of `i` leaves the meeting places above it alone. */
  lemma ClimbedStep(
    topo: seq<nat>, succ: seq<seq<nat>>, dom: seq<NodeRef>, i: nat, parent: NodeRef, dom': seq<NodeRef>)
    requires |topo| == |dom| == |succ| && TreeOk(dom) && Forward(succ) && i < |succ|
    requires dom' == dom[i := parent] && TreeOk(dom')
    requires forall n :: i < n < |succ| ==> Climbed(topo, succ, dom, n)
    requires parent == if succ[i] == [] then Null else FoldClimb(topo, dom, succ[i], |succ[i]|)
    ensures forall n :: i <= n < |succ| ==> Climbed(topo, succ, dom', n)
  {
    forall n | i <= n < |succ|
      ensures Climbed(topo, succ, dom', n)
    {
      assert n > i ==> Climbed(topo, succ, dom, n);
      if succ[n] != [] {
        FoldFrame(topo, dom, dom', succ[n], |succ[n]|, n + 1);
      }
    }
  }
}
