/** The working graph of `opFuse`: node fields are filled in place, first the edges, then the
    dominator tree, and fuse sets are grown down that tree. */
module OpGraph {
  import opened Sequences
  import opened Commands
  import opened DominatorTree
  import opened FuseRegions

  lemma {:induction false} NoDupLength(s: seq<nat>, n: nat)
    requires NoDup(s) && Below(s, n)
    ensures |s| <= n
    decreases n
  {
    if s != [] {
      assert s[0] < n;
      if i :| 0 <= i < |s| && s[i] == n - 1 {
        var rest := s[..i] + s[i + 1..];
        NoDupLength(rest, n - 1);
      } else {
        NoDupLength(s, n - 1);
      }
    }
  }

  /** The edges out of a node are exactly its consumers. */
  ghost predicate EdgesOf(p: Program, succ: seq<seq<nat>>, n: nat)
  {
    && n <= |p.commands| == |succ|
    && (forall i, x :: 0 <= i < |succ| && x in succ[i] ==> i < x < n)
    && (forall i, x :: 0 <= i < x < n ==> (x in succ[i] <==> Feeds(p, i, x)))
  }

  /** A queue processes its whole content: each entry stands for the work below it. */
  ghost function Weight(succ: seq<seq<nat>>, s: nat): nat
    requires Forward(succ) && s < |succ|
    decreases |succ| - s, 1, 0
  {
    1 + WeightFrom(succ, s, 0)
  }

  ghost function WeightFrom(succ: seq<seq<nat>>, s: nat, j: nat): nat
    requires Forward(succ) && s < |succ| && j <= |succ[s]|
    decreases |succ| - s, 0, |succ[s]| - j
  {
    if j == |succ[s]| then 0 else Weight(succ, succ[s][j]) + WeightFrom(succ, s, j + 1)
  }

  ghost function QueueWeight(succ: seq<seq<nat>>, q: seq<nat>): nat
    requires Forward(succ) && Below(q, |succ|)
  {
    if q == [] then 0 else Weight(succ, q[0]) + QueueWeight(succ, q[1..])
  }

  lemma {:induction false} QueueWeightPush(succ: seq<seq<nat>>, q: seq<nat>, x: nat)
    requires Forward(succ) && x < |succ| && Below(q, |succ|)
    ensures Below(q + [x], |succ|)
    ensures QueueWeight(succ, q + [x]) == QueueWeight(succ, q) + Weight(succ, x)
  {
    if q == [] {
      assert q + [x] == [x];
    } else {
      QueueWeightPush(succ, q[1..], x);
      assert (q + [x])[1..] == q[1..] + [x];
    }
  }

  /** The verdict on a region only depends on the nodes still waiting in the queue. */
  ghost predicate AllRegionsLegal(succ: seq<seq<nat>>, legal: seq<bool>, q: seq<nat>, t: nat)
    requires Forward(succ) && |legal| == |succ| && Below(q, |succ|)
  {
    forall i :: 0 <= i < |q| ==> RegionLegal(succ, legal, q[i], t)
  }

  /** What one fuse set looks like: its root comes last, and it holds each member once. */
  ghost predicate FuseSetOk(succ: seq<seq<nat>>, dom: seq<NodeRef>, legal: seq<bool>, s: seq<nat>)
    requires Forward(succ) && TreeOk(dom) && |dom| == |succ| == |legal|
  {
    && s != [] && NoDup(s) && s[|s| - 1] < |succ| && legal[s[|s| - 1]]
    && Below(s, |succ|)
    && forall x :: 0 <= x < |succ| ==> (x in s <==> Member(succ, dom, legal, s[|s| - 1], x))
  }

  lemma NoDupConcat(s: seq<nat>, s': seq<nat>)
    requires NoDup(s) && NoDup(s') && Disjoint(s, s')
    ensures NoDup(s + s')
  {
    assert forall i :: 0 <= i < |s| ==> s[i] in s;
    assert forall i :: 0 <= i < |s'| ==> s'[i] in s';
  }

  ghost predicate Disjoint(s: seq<nat>, s': seq<nat>)
  {
    forall x :: x in s ==> x !in s'
  }

  ghost predicate FuseSetsOk(succ: seq<seq<nat>>, dom: seq<NodeRef>, legal: seq<bool>, sets: seq<seq<nat>>)
    requires Forward(succ) && TreeOk(dom) && |dom| == |succ| == |legal|
  {
    && (forall a :: 0 <= a < |sets| ==> |sets[a]| > 1 && FuseSetOk(succ, dom, legal, sets[a]))
    && (forall a, b :: 0 <= a < b < |sets| ==> Disjoint(sets[a], sets[b]))
  }

  ghost predicate Waiting(dom: seq<NodeRef>, q: seq<nat>, x: nat)
    requires TreeOk(dom)
  {
    exists i :: 0 <= i < |q| && Under(dom, q[i], x)
  }

  /** The nodes that lie under some entry of the queue. */
  ghost function Pending(dom: seq<NodeRef>, q: seq<nat>): set<nat>
    requires TreeOk(dom)
  {
    set x: nat | x < |dom| && Waiting(dom, q, x)
  }

  ghost predicate PairwiseApart(dom: seq<NodeRef>, q: seq<nat>)
    requires TreeOk(dom)
  {
    forall i, j :: 0 <= i < j < |q| ==> Apart(dom, q[i], q[j])
  }

  /** `producer` maps each tensor written by the first `x` commands to its writer. */
  ghost predicate ProducersOk(p: Program, producer: map<Tensor, nat>, x: nat)
  {
    && x <= |p.commands|
    && (forall t :: t in producer ==> producer[t] < x && p.commands[producer[t]].output == t)
    && (forall i :: 0 <= i < x ==> p.commands[i].output in producer)
  }

  ghost predicate Mirrored(pred: seq<seq<nat>>, succ: seq<seq<nat>>)
  {
    |pred| == |succ| && forall i, y :: 0 <= i < |succ| && 0 <= y < |succ| ==> (i in pred[y] <==> y in succ[i])
  }

  /** `succ` extends `before` by the edges into `x` that the tensors `ts` call for. */
  ghost predicate Linked(p: Program, before: seq<seq<nat>>, succ: seq<seq<nat>>, x: nat, ts: seq<Tensor>)
  {
    && |before| == |succ| == |p.commands| && x < |succ|
    && (forall i, y :: 0 <= i < |succ| && y != x ==> (y in succ[i] <==> y in before[i]))
    && (forall i :: 0 <= i < |succ| ==> (x in succ[i] <==> i < x && p.commands[i].output in ts))
  }

  lemma LinkOne(p: Program, producer: map<Tensor, nat>, s0: seq<seq<nat>>, s1: seq<seq<nat>>, s2: seq<seq<nat>>, x: nat,
                k: nat)
    requires WellFormed(p) && x < |p.commands| && k < |p.commands[x].inputs| && ProducersOk(p, producer, x)
    requires Linked(p, s0, s1, x, p.commands[x].inputs[..k])
    requires var t := p.commands[x].inputs[k];
             s2 == if t in producer then s1[producer[t] := s1[producer[t]] + [x]] else s1
    ensures Linked(p, s0, s2, x, p.commands[x].inputs[..k + 1])
  {
    var ins := p.commands[x].inputs;
    assert ins[..k + 1] == ins[..k] + [ins[k]];
  }

  // --- One fuse set growing down the tree ---

  datatype Forest = Forest(succ: seq<seq<nat>>, dom: seq<NodeRef>, children: seq<seq<nat>>, legal: seq<bool>)

  ghost predicate ForestOk(f: Forest)
  {
    && Forward(f.succ) && TreeOk(f.dom) && |f.dom| == |f.succ| == |f.legal| == |f.children|
    && (forall i :: 0 <= i < |f.children| ==> NoDup(f.children[i]) && Below(f.children[i], |f.dom|))
    && (forall i, x :: 0 <= i < |f.dom| && 0 <= x < |f.dom| ==> (x in f.children[i] <==> f.dom[x] == Node(i)))
  }

  ghost predicate Joins(f: Forest, root: nat, x: nat)
    requires Forward(f.succ) && |f.legal| == |f.succ|
  {
    x < |f.succ| && RegionLegal(f.succ, f.legal, x, root)
  }

  /** The children that join the set, or those that do not, in order. */
  ghost function Sorted(f: Forest, root: nat, cs: seq<nat>, joining: bool): (r: seq<nat>)
    requires Forward(f.succ) && |f.legal| == |f.succ|
  {
    if cs == [] then []
    else
      var last := cs[|cs| - 1];
      var front := Sorted(f, root, cs[..|cs| - 1], joining);
      if Joins(f, root, last) == joining then front + [last] else front
  }

  lemma {:induction false} SortedChildren(f: Forest, root: nat, cs: seq<nat>, joining: bool, n: nat)
    requires Forward(f.succ) && |f.legal| == |f.succ| && NoDup(cs) && Below(cs, n)
    ensures var r := Sorted(f, root, cs, joining);
            NoDup(r) && Below(r, n) && forall x :: x in r <==> x in cs && (Joins(f, root, x) == joining)
  {
    if cs != [] {
      var last := cs[|cs| - 1];
      SortedChildren(f, root, cs[..|cs| - 1], joining, n);
      assert cs == cs[..|cs| - 1] + [last];
      assert last !in cs[..|cs| - 1];
    }
  }

  /** A node grown onto the set, or queued for it. */
  ghost predicate Grabbed(f: Forest, fuseSet: seq<nat>, q: seq<nat>, x: nat)
  {
    x in fuseSet || x in q
  }

  ghost predicate ParentIn(f: Forest, fuseSet: seq<nat>, x: nat)
  {
    x < |f.dom| && f.dom[x].Node? && f.dom[x].index in fuseSet
  }

  /** A node whose parent is in the set is in the set, queued, or an edge. */
  ghost predicate Reached(f: Forest, root: nat, fuseSet: seq<nat>, q: seq<nat>, edges: seq<nat>)
    requires ForestOk(f)
  {
    && (forall x: nat :: Grabbed(f, fuseSet, q, x) ==> x == root || (ParentIn(f, fuseSet, x) && Joins(f, root, x)))
    && (forall e: nat :: e in edges ==> ParentIn(f, fuseSet, e) && !Joins(f, root, e))
    && (forall x: nat :: ParentIn(f, fuseSet, x) && x != root ==>
          if Joins(f, root, x) then Grabbed(f, fuseSet, q, x) else x in edges)
  }

  ghost predicate GrowOk(f: Forest, root: nat, fuseSet: seq<nat>, q: seq<nat>, edges: seq<nat>)
  {
    && ForestOk(f) && root < |f.succ|
    && NoDup(fuseSet) && NoDup(q) && NoDup(edges) && Disjoint(fuseSet, q)
    && Below(fuseSet, |f.succ|) && Below(q, |f.succ|) && Below(edges, |f.succ|)
    && (if fuseSet == [] then q == [root] else fuseSet[|fuseSet| - 1] == root)
    && Reached(f, root, fuseSet, q, edges)
    && |fuseSet| <= |f.succ|
  }

  lemma RootAbove(f: Forest, root: nat, fuseSet: seq<nat>, q: seq<nat>, edges: seq<nat>, x: nat)
    requires GrowOk(f, root, fuseSet, q, edges) && Grabbed(f, fuseSet, q, x)
    ensures x <= root < |f.dom| && Member(f.succ, f.dom, f.legal, root, x)
    decreases |f.dom| - x
  {
    if x != root {
      assert ParentIn(f, fuseSet, x);
      RootAbove(f, root, fuseSet, q, edges, f.dom[x].index);
    }
  }

  /** The children of the front node are new to the set, the queue and the edges. */
  lemma ChildrenAreNew(f: Forest, root: nat, fuseSet: seq<nat>, q: seq<nat>, edges: seq<nat>)
    requires GrowOk(f, root, fuseSet, q, edges) && q != []
    ensures forall x :: x in f.children[q[0]] ==>
              x < root && !ParentIn(f, fuseSet, x) && x !in fuseSet && x !in q && x !in edges
  {
    RootAbove(f, root, fuseSet, q, edges, q[0]);
    assert q[0] in q;
    forall x | x in f.children[q[0]]
      ensures x < root && !ParentIn(f, fuseSet, x) && x !in fuseSet && x !in q && x !in edges
    {
      assert x < |f.dom| && f.dom[x] == Node(q[0]);
      assert !Grabbed(f, fuseSet, q, x);
    }
  }

  lemma GrowStepDistinct(f: Forest, root: nat, fuseSet: seq<nat>, q: seq<nat>, edges: seq<nat>)
    requires GrowOk(f, root, fuseSet, q, edges) && q != []
    ensures var cs := f.children[q[0]];
            var fuseSet', q', edges' :=
              [q[0]] + fuseSet, q[1..] + Sorted(f, root, cs, true), edges + Sorted(f, root, cs, false);
            && NoDup(fuseSet') && NoDup(q') && NoDup(edges') && Disjoint(fuseSet', q') && |fuseSet'| <= |f.succ|
            && Below(fuseSet', |f.succ|) && Below(q', |f.succ|) && Below(edges', |f.succ|)
  {
    var cs := f.children[q[0]];
    ChildrenAreNew(f, root, fuseSet, q, edges);
    SortedChildren(f, root, cs, true, |f.succ|);
    SortedChildren(f, root, cs, false, |f.succ|);
    assert forall x :: x in q <==> x == q[0] || x in q[1..];
    assert q[0] !in q[1..] && q[0] in q;
    NoDupConcat([q[0]], fuseSet);
    NoDupConcat(q[1..], Sorted(f, root, cs, true));
    NoDupConcat(edges, Sorted(f, root, cs, false));
    NoDupLength([q[0]] + fuseSet, |f.succ|);
    assert q[0] !in cs;
  }

  lemma GrowStepReached(
    f: Forest, root: nat, fuseSet: seq<nat>, q: seq<nat>, edges: seq<nat>,
    fuseSet': seq<nat>, q': seq<nat>, edges': seq<nat>, cs: seq<nat>)
    requires ForestOk(f) && Reached(f, root, fuseSet, q, edges)
    requires forall x: nat :: Grabbed(f, fuseSet', q', x) <==>
               Grabbed(f, fuseSet, q, x) || (x in cs && Joins(f, root, x))
    requires forall x: nat :: ParentIn(f, fuseSet', x) <==> ParentIn(f, fuseSet, x) || x in cs
    requires forall x: nat :: x in edges' <==> x in edges || (x in cs && !Joins(f, root, x))
    ensures Reached(f, root, fuseSet', q', edges')
  {
  }

  lemma GrowStep(f: Forest, root: nat, fuseSet: seq<nat>, q: seq<nat>, edges: seq<nat>)
    requires GrowOk(f, root, fuseSet, q, edges) && q != []
    ensures GrowOk(f, root, [q[0]] + fuseSet,
                   q[1..] + Sorted(f, root, f.children[q[0]], true),
                   edges + Sorted(f, root, f.children[q[0]], false))
  {
    var node, cs := q[0], f.children[q[0]];
    var fuseSet', q', edges' :=
      [node] + fuseSet, q[1..] + Sorted(f, root, cs, true), edges + Sorted(f, root, cs, false);
    GrowStepDistinct(f, root, fuseSet, q, edges);
    GrowStepMembers(f, root, fuseSet, q, edges);
    GrowStepReached(f, root, fuseSet, q, edges, fuseSet', q', edges', cs);
  }

  /** What one step adds to the set, the queue and the edges. */
  lemma GrowStepMembers(f: Forest, root: nat, fuseSet: seq<nat>, q: seq<nat>, edges: seq<nat>)
    requires ForestOk(f) && q != [] && q[0] < |f.children|
    ensures var node, cs := q[0], f.children[q[0]];
            var fuseSet', q', edges' :=
              [node] + fuseSet, q[1..] + Sorted(f, root, cs, true), edges + Sorted(f, root, cs, false);
            && (forall x: nat ::
                  Grabbed(f, fuseSet', q', x) <==> Grabbed(f, fuseSet, q, x) || (x in cs && Joins(f, root, x)))
            && (forall x: nat :: ParentIn(f, fuseSet', x) <==> ParentIn(f, fuseSet, x) || x in cs)
            && (forall x: nat :: x in edges' <==> x in edges || (x in cs && !Joins(f, root, x)))
  {
    SortedChildren(f, root, f.children[q[0]], true, |f.succ|);
    SortedChildren(f, root, f.children[q[0]], false, |f.succ|);
    assert forall x :: x in q <==> x == q[0] || x in q[1..];
    assert forall x: nat :: x in f.children[q[0]] ==> x < |f.dom|;
  }

  lemma {:induction false} GrownAll(f: Forest, root: nat, fuseSet: seq<nat>, edges: seq<nat>, x: nat)
    requires GrowOk(f, root, fuseSet, [], edges) && x < |f.succ|
    requires Member(f.succ, f.dom, f.legal, root, x)
    ensures x in fuseSet
    decreases |f.succ| - x
  {
    if x != root {
      GrownAll(f, root, fuseSet, edges, f.dom[x].index);
      assert ParentIn(f, fuseSet, x);
      assert Grabbed(f, fuseSet, [], x);
    }
  }

  /** When the queue runs dry the set is exactly the members, and the edges exactly the rejected children. */
  lemma Grown(f: Forest, root: nat, fuseSet: seq<nat>, edges: seq<nat>)
    requires GrowOk(f, root, fuseSet, [], edges) && f.legal[root]
    ensures FuseSetOk(f.succ, f.dom, f.legal, fuseSet) && fuseSet[|fuseSet| - 1] == root
    ensures forall e: nat :: e < |f.succ| ==> (e in edges <==> Edge(f.succ, f.dom, f.legal, root, e))
  {
    forall x: nat | x < |f.succ|
      ensures x in fuseSet <==> Member(f.succ, f.dom, f.legal, root, x)
    {
      if x in fuseSet {
        assert Grabbed(f, fuseSet, [], x);
        RootAbove(f, root, fuseSet, [], edges, x);
      }
      if Member(f.succ, f.dom, f.legal, root, x) {
        GrownAll(f, root, fuseSet, edges, x);
      }
    }
    forall e: nat | e < |f.succ|
      ensures e in edges <==> Edge(f.succ, f.dom, f.legal, root, e)
    {
      if e in edges || Edge(f.succ, f.dom, f.legal, root, e) {
        assert ParentIn(f, fuseSet, e);
        if e == root {
          RootAbove(f, root, fuseSet, [], edges, f.dom[e].index);
        }
      }
    }
  }

  // --- Fuse sets stay apart ---

  /** No emitted set reaches under the queue. */
  ghost predicate Untouched(dom: seq<NodeRef>, sets: seq<seq<nat>>, q: seq<nat>)
    requires TreeOk(dom)
  {
    forall a, i, x: nat :: 0 <= a < |sets| && 0 <= i < |q| && Under(dom, q[i], x) ==> x !in sets[a]
  }

  lemma RootsApart(dom: seq<NodeRef>, q: seq<nat>)
    requires TreeOk(dom) && NoDup(q) && Below(q, |dom|)
    requires forall x :: 0 <= x < |dom| && x in q ==> dom[x] == Null
    ensures PairwiseApart(dom, q)
  {
    forall i, j | 0 <= i < j < |q|
      ensures Apart(dom, q[i], q[j])
    {
      assert q[i] in q && q[j] in q;
      assert Chain(dom, Node(q[i])) == {q[i]} && Chain(dom, Node(q[j])) == {q[j]};
    }
  }

  /** Replacing the front of the queue by nodes strictly below it keeps the queue apart. */
  lemma QueueStep(dom: seq<NodeRef>, q: seq<nat>, es: seq<nat>)
    requires TreeOk(dom) && q != [] && Below(q, |dom|) && Below(es, |dom|)
    requires PairwiseApart(dom, q) && PairwiseApart(dom, es)
    requires forall i :: 0 <= i < |es| ==> Under(dom, q[0], es[i]) && es[i] != q[0]
    ensures Below(q[1..] + es, |dom|) && PairwiseApart(dom, q[1..] + es)
    ensures Pending(dom, q[1..] + es) < Pending(dom, q)
  {
    var q' := q[1..] + es;
    forall i, j | 0 <= i < j < |q'|
      ensures Apart(dom, q'[i], q'[j])
    {
      if j < |q| - 1 {
        assert Apart(dom, q[i + 1], q[j + 1]);
      } else if i < |q| - 1 {
        assert Apart(dom, q[0], q[i + 1]);
        ApartBelow(dom, q[0], es[j - (|q| - 1)], q[i + 1]);
      } else {
        assert Apart(dom, es[i - (|q| - 1)], es[j - (|q| - 1)]);
      }
    }
    forall x: nat | x < |dom| && Waiting(dom, q', x)
      ensures Waiting(dom, q, x)
    {
      var i :| 0 <= i < |q'| && Under(dom, q'[i], x);
      if i < |q| - 1 {
        assert Under(dom, q[i + 1], x);
      } else {
        UnderTrans(dom, q[0], q'[i], x);
      }
    }
    assert Waiting(dom, q, q[0]) by {
      assert Under(dom, q[0], q[0]);
    }
    forall i | 0 <= i < |q'|
      ensures !Under(dom, q'[i], q[0])
    {
      if i < |q| - 1 {
        assert Apart(dom, q[0], q[i + 1]);
      }
    }
    assert q[0] in Pending(dom, q) && q[0] !in Pending(dom, q');
  }

  /** Emitted sets stay clear of a queue that only moved down. */
  lemma UntouchedStep(dom: seq<NodeRef>, sets: seq<seq<nat>>, q: seq<nat>, es: seq<nat>)
    requires TreeOk(dom) && q != [] && Untouched(dom, sets, q)
    requires forall i :: 0 <= i < |es| ==> Under(dom, q[0], es[i])
    ensures Untouched(dom, sets, q[1..] + es)
  {
    var q' := q[1..] + es;
    forall a, i, x: nat | 0 <= a < |sets| && 0 <= i < |q'| && Under(dom, q'[i], x)
      ensures x !in sets[a]
    {
      if i < |q| - 1 {
        assert Under(dom, q[i + 1], x);
      } else {
        UnderTrans(dom, q[0], q'[i], x);
      }
    }
  }

  /** The ancestors of a child are those of its parent, and the child itself. */
  lemma ChildChain(f: Forest, root: nat, e: nat)
    requires ForestOk(f) && root < |f.dom| && e in f.children[root]
    ensures e < root && Chain(f.dom, Node(e)) == {e} + Chain(f.dom, Node(root))
  {
  }

  /** An illegal or childless root hands its children to the queue. */
  lemma SkippedStep(f: Forest, sets: seq<seq<nat>>, q: seq<nat>)
    requires ForestOk(f) && FuseSetsOk(f.succ, f.dom, f.legal, sets)
    requires q != [] && Below(q, |f.dom|) && PairwiseApart(f.dom, q) && Untouched(f.dom, sets, q)
    ensures var q' := q[1..] + f.children[q[0]];
            && Below(q', |f.dom|) && PairwiseApart(f.dom, q') && Untouched(f.dom, sets, q')
            && Pending(f.dom, q') < Pending(f.dom, q)
  {
    ChildrenFit(f, q[0]);
    QueueStep(f.dom, q, f.children[q[0]]);
    UntouchedStep(f.dom, sets, q, f.children[q[0]]);
  }

  /** The children of a node lie below it and apart from one another. */
  lemma ChildrenFit(f: Forest, root: nat)
    requires ForestOk(f) && root < |f.dom|
    ensures forall i :: 0 <= i < |f.children[root]| ==>
              Under(f.dom, root, f.children[root][i]) && f.children[root][i] != root
    ensures Below(f.children[root], |f.dom|) && PairwiseApart(f.dom, f.children[root])
  {
    var es := f.children[root];
    forall i | 0 <= i < |es|
      ensures Chain(f.dom, Node(es[i])) == {es[i]} + Chain(f.dom, Node(root)) && es[i] < root
    {
      ChildChain(f, root, es[i]);
    }
    forall i, j | 0 <= i < j < |es|
      ensures Apart(f.dom, es[i], es[j])
    {
      SiblingsApart(f.dom, root, es[i], es[j]);
    }
  }

  lemma SiblingsApart(dom: seq<NodeRef>, root: nat, a: nat, b: nat)
    requires TreeOk(dom) && a < root < |dom| && b < root && a != b
    requires Chain(dom, Node(a)) == {a} + Chain(dom, Node(root)) && Chain(dom, Node(b)) == {b} + Chain(dom, Node(root))
    ensures Apart(dom, a, b)
  {
  }

  /** A fused root hands its edges to the queue, and its set joins the emitted ones. */
  lemma FusedStep(f: Forest, sets: seq<seq<nat>>, s: seq<nat>, q: seq<nat>, es: seq<nat>)
    requires ForestOk(f) && FuseSetsOk(f.succ, f.dom, f.legal, sets)
    requires q != [] && Below(q, |f.dom|) && PairwiseApart(f.dom, q) && Untouched(f.dom, sets, q)
    requires FuseSetOk(f.succ, f.dom, f.legal, s) && s[|s| - 1] == q[0]
    requires NoDup(es) && Below(es, |f.dom|)
    requires forall i :: 0 <= i < |es| ==> Edge(f.succ, f.dom, f.legal, q[0], es[i])
    ensures var q' := q[1..] + es; var sets' := if |s| > 1 then sets + [s] else sets;
            && Below(q', |f.dom|) && PairwiseApart(f.dom, q') && Untouched(f.dom, sets', q')
            && FuseSetsOk(f.succ, f.dom, f.legal, sets')
            && Pending(f.dom, q') < Pending(f.dom, q)
  {
    EdgesFit(f, q[0], es);
    QueueStep(f.dom, q, es);
    UntouchedStep(f.dom, sets, q, es);
    NewSetApart(f, sets, s, q, es);
    SetsGrow(f, sets, s, q[1..] + es);
  }

  /** The edges of a root lie below it and apart from one another. */
  lemma EdgesFit(f: Forest, root: nat, es: seq<nat>)
    requires ForestOk(f) && root < |f.dom| && NoDup(es)
    requires forall i :: 0 <= i < |es| ==> Edge(f.succ, f.dom, f.legal, root, es[i])
    ensures forall i :: 0 <= i < |es| ==> Under(f.dom, root, es[i]) && es[i] != root
    ensures PairwiseApart(f.dom, es)
  {
    forall i | 0 <= i < |es|
      ensures Under(f.dom, root, es[i]) && es[i] != root
    {
      EdgeOutside(f.succ, f.dom, f.legal, root, es[i], es[i]);
    }
    forall i, j | 0 <= i < j < |es|
      ensures Apart(f.dom, es[i], es[j])
    {
      EdgesApart(f.succ, f.dom, f.legal, root, es[i], es[j]);
    }
  }

  lemma SetsGrow(f: Forest, sets: seq<seq<nat>>, s: seq<nat>, q: seq<nat>)
    requires ForestOk(f) && FuseSetsOk(f.succ, f.dom, f.legal, sets) && FuseSetOk(f.succ, f.dom, f.legal, s)
    requires Untouched(f.dom, sets, q) && Untouched(f.dom, [s], q)
    requires forall a :: 0 <= a < |sets| ==> Disjoint(sets[a], s)
    ensures var sets' := if |s| > 1 then sets + [s] else sets;
            Untouched(f.dom, sets', q) && FuseSetsOk(f.succ, f.dom, f.legal, sets')
  {
    assert [s][0] == s;
  }

  lemma NewSetApart(f: Forest, sets: seq<seq<nat>>, s: seq<nat>, q: seq<nat>, es: seq<nat>)
    requires ForestOk(f) && FuseSetOk(f.succ, f.dom, f.legal, s) && q != [] && s[|s| - 1] == q[0]
    requires Below(q, |f.dom|) && PairwiseApart(f.dom, q) && Untouched(f.dom, sets, q)
    requires forall i :: 0 <= i < |es| ==> Edge(f.succ, f.dom, f.legal, q[0], es[i])
    ensures forall a :: 0 <= a < |sets| ==> Disjoint(sets[a], s)
    ensures Untouched(f.dom, [s], q[1..] + es)
  {
    var root, q' := q[0], q[1..] + es;
    forall x | x in s
      ensures Under(f.dom, root, x)
    {
      var k :| 0 <= k < |s| && s[k] == x;
      MemberBelow(f.succ, f.dom, f.legal, root, x);
    }
    forall i, x: nat | 0 <= i < |q'| && Under(f.dom, q'[i], x)
      ensures x !in s
    {
      if i < |q| - 1 {
        assert Apart(f.dom, q[0], q[i + 1]);
        if x in s {
          ApartSubtrees(f.dom, q[0], q[i + 1], x);
        }
      } else {
        EdgeOutside(f.succ, f.dom, f.legal, root, es[i - (|q| - 1)], x);
      }
    }
  }

  // --- No fuse set is missed ---

  /** `done` have been taken off the queue. All roots are done, queued, or still to come from a queued one, and there
      is a set for exactly those of the done ones that deserve it. */
  ghost predicate SearchOk(f: Forest, done: set<nat>, q: seq<nat>, sets: seq<seq<nat>>)
    requires ForestOk(f)
  {
    && (forall r :: r in done ==> FuseRoot(f.succ, f.dom, f.legal, r))
    && (forall i :: 0 <= i < |q| ==> FuseRoot(f.succ, f.dom, f.legal, q[i]))
    && (forall r :: 0 <= r < |f.dom| && f.dom[r].Null? ==> r in done || r in q)
    && (forall p :: p in done ==> Followed(f, done, q, p))
    && (forall r: nat :: EndsIn(sets, r) <==> r in done && Deserves(f, r))
  }

  ghost predicate Followed(f: Forest, done: set<nat>, q: seq<nat>, p: nat)
    requires ForestOk(f)
  {
    p < |f.dom| && forall r: nat :: Derives(f.succ, f.dom, f.legal, p, r) ==> r in done || r in q
  }

  ghost predicate Deserves(f: Forest, r: nat)
    requires ForestOk(f)
  {
    r < |f.dom| && f.legal[r] && HasMore(f.succ, f.dom, f.legal, r)
  }

  lemma SearchStart(f: Forest, q: seq<nat>)
    requires ForestOk(f) && Below(q, |f.dom|) && forall x :: 0 <= x < |f.dom| ==> (x in q <==> f.dom[x] == Null)
    ensures SearchOk(f, {}, q, [])
  {
    forall i | 0 <= i < |q|
      ensures FuseRoot(f.succ, f.dom, f.legal, q[i])
    {
      assert q[i] in q;
    }
  }

  /** The front of the queue has been followed to all nodes that the search comes to from there. */
  lemma SearchStep(f: Forest, done: set<nat>, q: seq<nat>, sets: seq<seq<nat>>, es: seq<nat>, sets': seq<seq<nat>>)
    requires ForestOk(f) && q != [] && SearchOk(f, done, q, sets)
    requires forall r: nat :: r in es <==> Derives(f.succ, f.dom, f.legal, q[0], r)
    requires forall r: nat :: EndsIn(sets', r) <==> EndsIn(sets, r) || (r == q[0] && Deserves(f, r))
    ensures SearchOk(f, done + {q[0]}, q[1..] + es, sets')
  {
    var root, q' := q[0], q[1..] + es;
    var done' := done + {root};
    assert FuseRoot(f.succ, f.dom, f.legal, root);
    forall i | 0 <= i < |q'|
      ensures FuseRoot(f.succ, f.dom, f.legal, q'[i])
    {
      if i >= |q| - 1 {
        assert q'[i] == es[i - (|q| - 1)] && q'[i] in es;
        DerivesBelow(f.succ, f.dom, f.legal, root, q'[i]);
      } else {
        assert q'[i] == q[i + 1];
      }
    }
    assert forall r :: r in q ==> r == root || r in q[1..];
    forall p | p in done'
      ensures Followed(f, done', q', p)
    {
      forall r: nat | Derives(f.succ, f.dom, f.legal, p, r)
        ensures r in done' || r in q'
      {
        if p != root {
          assert Followed(f, done, q, p);
        }
      }
    }
  }

  lemma {:induction false} RootsDone(f: Forest, done: set<nat>, sets: seq<seq<nat>>, r: nat)
    requires ForestOk(f) && SearchOk(f, done, [], sets) && FuseRoot(f.succ, f.dom, f.legal, r)
    ensures r in done
    decreases |f.dom| - r
  {
    if f.dom[r].Node? {
      var p :| r < p < |f.dom| && FuseRoot(f.succ, f.dom, f.legal, p) && Derives(f.succ, f.dom, f.legal, p, r);
      RootsDone(f, done, sets, p);
      assert Followed(f, done, [], p);
    }
  }

  lemma SearchEnd(f: Forest, done: set<nat>, sets: seq<seq<nat>>)
    requires ForestOk(f) && SearchOk(f, done, [], sets)
    ensures AllFound(f.succ, f.dom, f.legal, sets)
  {
    forall r: nat | r < |f.dom|
      ensures r in done <==> FuseRoot(f.succ, f.dom, f.legal, r)
    {
      if FuseRoot(f.succ, f.dom, f.legal, r) {
        RootsDone(f, done, sets, r);
      }
    }
  }

  /** A set of more than one node is what a legal root deserves. */
  lemma SetDeserved(f: Forest, s: seq<nat>)
    requires ForestOk(f) && FuseSetOk(f.succ, f.dom, f.legal, s)
    ensures |s| > 1 <==> Deserves(f, s[|s| - 1])
  {
    var root := s[|s| - 1];
    if |s| > 1 {
      assert s[0] in s && s[0] != root;
      assert Member(f.succ, f.dom, f.legal, root, s[0]);
    } else {
      forall x | 0 <= x < |f.dom| && Member(f.succ, f.dom, f.legal, root, x)
        ensures x == root
      {
        assert x in s;
      }
    }
  }

  lemma EndsInMore(sets: seq<seq<nat>>, s: seq<nat>, r: nat)
    requires s != []
    ensures EndsIn(sets + [s], r) <==> EndsIn(sets, r) || s[|s| - 1] == r
  {
    var sets' := sets + [s];
    if EndsIn(sets, r) {
      var a :| 0 <= a < |sets| && sets[a] != [] && sets[a][|sets[a]| - 1] == r;
      assert sets'[a] == sets[a];
    }
    if s[|s| - 1] == r {
      assert sets'[|sets|] == s;
    }
  }

  lemma FusedSearch(f: Forest, done: set<nat>, q: seq<nat>, sets: seq<seq<nat>>, s: seq<nat>, es: seq<nat>)
    requires ForestOk(f) && q != [] && Below(q, |f.dom|) && SearchOk(f, done, q, sets)
    requires FuseSetOk(f.succ, f.dom, f.legal, s) && s[|s| - 1] == q[0] && Below(es, |f.dom|)
    requires forall e: nat :: e < |f.dom| ==> (e in es <==> Edge(f.succ, f.dom, f.legal, q[0], e))
    ensures SearchOk(f, done + {q[0]}, q[1..] + es, if |s| > 1 then sets + [s] else sets)
  {
    SetDeserved(f, s);
    forall r: nat
      ensures EndsIn(sets + [s], r) <==> EndsIn(sets, r) || r == q[0]
      ensures r in es <==> Derives(f.succ, f.dom, f.legal, q[0], r)
    {
      EndsInMore(sets, s, r);
    }
    SearchStep(f, done, q, sets, es, if |s| > 1 then sets + [s] else sets);
  }

  /** The children of a node that is illegal or has none. */
  lemma SkippedSearch(f: Forest, done: set<nat>, q: seq<nat>, sets: seq<seq<nat>>)
    requires ForestOk(f) && q != [] && Below(q, |f.dom|) && SearchOk(f, done, q, sets)
    requires !f.legal[q[0]] || f.children[q[0]] == []
    ensures SearchOk(f, done + {q[0]}, q[1..] + f.children[q[0]], sets)
  {
    var root, es := q[0], f.children[q[0]];
    if es == [] {
      forall y | 0 <= y < |f.dom|
        ensures f.dom[y] != Node(root)
      {
        assert y !in f.children[root];
      }
      ChildlessEnds(f.succ, f.dom, f.legal, root);
    } else {
      forall r: nat
        ensures r in es <==> Derives(f.succ, f.dom, f.legal, root, r)
      {
      }
    }
    SearchStep(f, done, q, sets, es, sets);
  }

  /** From node `n` on, the children lists mirror the parents. */
  ghost predicate ChildrenMirror(dom: seq<NodeRef>, children: seq<seq<nat>>, n: nat)
  {
    && |children| == |dom| && n <= |dom|
    && (forall i :: 0 <= i < |children| ==> NoDup(children[i]))
    && (forall i, k :: 0 <= i < |children| && 0 <= k < |children[i]| ==>
          n <= children[i][k] < |dom| && dom[children[i][k]] == Node(i))
    && (forall x :: n <= x < |dom| && dom[x].Node? && dom[x].index < |dom| ==> x in children[dom[x].index])
  }

  lemma ChildAdded(dom: seq<NodeRef>, children: seq<seq<nat>>, i: nat, parent: NodeRef)
    requires ChildrenMirror(dom, children, i + 1) && (parent.Node? ==> parent.index < |dom|)
    ensures ChildrenMirror(dom[i := parent],
                           if parent.Node? then children[parent.index := children[parent.index] + [i]] else children, i)
  {
  }

  /** The tree is final from node `i` on and empty before it. */
  ghost predicate SweptTree(succ: seq<seq<nat>>, dom: seq<NodeRef>, i: nat, strict: bool)
  {
    && Forward(succ) && i <= |succ| == |dom| && TreeOk(dom)
    && (forall n :: 0 <= n < i ==> dom[n] == Null)
    && (forall n :: i <= n < |succ| ==> ParentOk(succ, dom, n, strict))
  }

  /** Setting the parent of `i` leaves every chain above `i` alone. */
  lemma AttachTree(succ: seq<seq<nat>>, dom: seq<NodeRef>, i: nat, parent: NodeRef, strict: bool)
    requires i < |succ| && SweptTree(succ, dom, i + 1, strict)
    requires parent.Node? ==> i < parent.index < |succ|
    requires if succ[i] == [] then parent.Null? else
               && Chain(dom, parent) <= Meet(dom, succ[i], |succ[i]|)
               && (strict ==> Chain(dom, parent) == Meet(dom, succ[i], |succ[i]|))
    ensures SweptTree(succ, dom[i := parent], i, strict)
  {
    var after := dom[i := parent];
    forall n | i < n < |succ|
      ensures ParentOk(succ, after, n, strict)
    {
      ParentFrame(succ, dom, after, n, strict);
    }
    if succ[i] != [] {
      ChainFrame(dom, after, parent);
      MeetFrame(dom, after, succ[i], i);
    }
  }

  /** From node `i` on, the queue holds the nodes without a parent. */
  ghost predicate RootsQueued(dom: seq<NodeRef>, queue: seq<nat>, i: nat)
  {
    && NoDup(queue) && Below(queue, |dom|)
    && forall x :: 0 <= x < |dom| ==> (x in queue <==> i <= x && dom[x] == Null)
  }

  lemma RootAdded(dom: seq<NodeRef>, queue: seq<nat>, i: nat, parent: NodeRef)
    requires i < |dom| && RootsQueued(dom, queue, i + 1)
    ensures RootsQueued(dom[i := parent], if parent.Null? then queue + [i] else queue, i)
  {
    assert i !in queue;
    NoDupConcat(queue, [i]);
  }

  /** The sweep has passed node `i`: tree, children lists and queue agree from there on. */
  ghost predicate Swept(succ: seq<seq<nat>>, dom: seq<NodeRef>, children: seq<seq<nat>>, queue: seq<nat>, i: nat,
                        strict: bool)
  {
    SweptTree(succ, dom, i, strict) && ChildrenMirror(dom, children, i) && RootsQueued(dom, queue, i)
  }

  lemma SweepStep(succ: seq<seq<nat>>, dom: seq<NodeRef>, children: seq<seq<nat>>, queue: seq<nat>, i: nat,
                  parent: NodeRef, strict: bool)
    requires i < |succ| && Swept(succ, dom, children, queue, i + 1, strict)
    requires parent.Node? ==> i < parent.index < |succ|
    requires if succ[i] == [] then parent.Null? else
               && Chain(dom, parent) <= Meet(dom, succ[i], |succ[i]|)
               && (strict ==> Chain(dom, parent) == Meet(dom, succ[i], |succ[i]|))
    ensures if parent.Node?
            then Swept(succ, dom[i := parent], children[parent.index := children[parent.index] + [i]], queue, i, strict)
            else Swept(succ, dom[i := parent], children, queue + [i], i, strict)
  {
    AttachTree(succ, dom, i, parent, strict);
    ChildAdded(dom, children, i, parent);
    RootAdded(dom, queue, i, parent);
  }

  class Graph {
    const program: Program
    const legal: seq<bool>
    var pred: seq<seq<nat>>
    var succ: seq<seq<nat>>
    var domPred: seq<NodeRef>
    var domSucc: seq<seq<nat>>

    ghost predicate HasEdges()
      reads `pred, `succ
    {
      && WellFormed(program)
      && |legal| == |program.commands| == |succ| == |pred|
      && (forall i :: 0 <= i < |legal| ==> legal[i] == program.commands[i].legal)
      && EdgesOf(program, succ, |succ|)
      && Mirrored(pred, succ)
      && Forward(succ)
    }

    ghost predicate HasTree()
      reads this
    {
      && HasEdges()
      && DomTree(succ, domPred, StrictTopo(program))
      && ChildrenMirror(domPred, domSucc, 0)
    }

    /** Graph building: one node per command, with an edge for every input an earlier command wrote. */
    constructor (p: Program)
      requires WellFormed(p)
      ensures program == p && HasEdges()
    {
      program := p;
      legal := seq(|p.commands|, i requires 0 <= i < |p.commands| => p.commands[i].legal);
      domPred, domSucc := [], [];
      var n := |p.commands|;
      pred, succ := seq(n, _ => []), seq(n, _ => []);
      new;
      var producer: map<Tensor, nat> := map[];
      for x := 0 to n
        invariant program == p && n == |program.commands| == |pred| == |succ|
        invariant ProducersOk(p, producer, x)
        invariant EdgesOf(program, succ, x) && Mirrored(pred, succ)
      {
        LinkInputs(producer, x);
        producer := producer[program.commands[x].output := x];
      }
      assert forall i, j :: 0 <= i < |succ| && 0 <= j < |succ[i]| ==> succ[i][j] in succ[i];
    }

    /** Adds an edge to node `x` from the producer of each of its inputs. */
    method LinkInputs(producer: map<Tensor, nat>, x: nat)
      requires WellFormed(program) && |pred| == |succ| == |program.commands| && x < |succ|
      requires ProducersOk(program, producer, x)
      requires EdgesOf(program, succ, x) && Mirrored(pred, succ)
      modifies `pred, `succ
      ensures |pred| == |succ| == |program.commands|
      ensures EdgesOf(program, succ, x + 1) && Mirrored(pred, succ)
    {
      var inputs := program.commands[x].inputs;
      for k := 0 to |inputs|
        invariant |pred| == |succ| == |program.commands|
        invariant Mirrored(pred, succ)
        invariant Linked(program, old(succ), succ, x, inputs[..k])
      {
        var t := inputs[k];
        ghost var before := succ;
        if t in producer {
          var i := producer[t];
          pred := pred[x := pred[x] + [i]];
          succ := succ[i := succ[i] + [x]];
        }
        LinkOne(program, producer, old(succ), before, succ, x, k);
      }
      assert inputs[..|inputs|] == inputs;
    }

    /** The walk of two nodes up the tree until they meet. */
    method LCA(x0: NodeRef, y0: NodeRef) returns (r: NodeRef)
      requires |program.topo| == |domPred| && TreeOk(domPred)
      requires x0.Node? ==> x0.index < |domPred|
      requires y0.Node? ==> y0.index < |domPred|
      ensures r.Node? ==> r.index < |domPred|
      ensures Chain(domPred, r) <= Chain(domPred, x0) * Chain(domPred, y0)
      ensures StrictTopo(program) ==> Chain(domPred, r) == Chain(domPred, x0) * Chain(domPred, y0)
      ensures r == Climb(program.topo, domPred, x0, y0)
    {
      var x, y := x0, y0;
      while x != y
        invariant x.Node? ==> x.index < |domPred|
        invariant y.Node? ==> y.index < |domPred|
        invariant Chain(domPred, x) <= Chain(domPred, x0)
        invariant Chain(domPred, y) <= Chain(domPred, y0)
        invariant Climb(program.topo, domPred, x, y) == Climb(program.topo, domPred, x0, y0)
        invariant StrictTopo(program) ==>
                    Chain(domPred, x) * Chain(domPred, y) == Chain(domPred, x0) * Chain(domPred, y0)
        decreases (if x.Node? then |domPred| - x.index else 0) + (if y.Node? then |domPred| - y.index else 0)
      {
        if x.Null? || y.Null? {
          return Null;
        }
        if program.topo[x.index] < program.topo[y.index] {
          x := domPred[x.index];
        } else {
          y := domPred[y.index];
        }
      }
      r := x;
    }

    /** The parent of a node with successors: their common ancestor, folded pairwise. */
    method CommonAncestor(i: nat) returns (parent: NodeRef)
      requires Forward(succ) && |program.topo| == |domPred| == |succ| && TreeOk(domPred) && i < |succ| && succ[i] != []
      ensures parent.Node? ==> i < parent.index < |domPred|
      ensures Chain(domPred, parent) <= Meet(domPred, succ[i], |succ[i]|)
      ensures StrictTopo(program) ==> Chain(domPred, parent) == Meet(domPred, succ[i], |succ[i]|)
      ensures parent == FoldClimb(program.topo, domPred, succ[i], |succ[i]|)
    {
      parent := Node(succ[i][0]);
      for j := 1 to |succ[i]|
        invariant parent.Node? ==> parent.index < |domPred|
        invariant Chain(domPred, parent) <= Meet(domPred, succ[i], j)
        invariant StrictTopo(program) ==> Chain(domPred, parent) == Meet(domPred, succ[i], j)
        invariant parent == FoldClimb(program.topo, domPred, succ[i], j)
      {
        parent := LCA(parent, Node(succ[i][j]));
      }
      assert parent.Node? ==> parent.index in Chain(domPred, Node(succ[i][0]));
    }

    /** One node of the backward sweep: its parent, and its place among the children or in the queue. */
    method SweepNode(i: nat, queue0: seq<nat>, ghost strict: bool) returns (queue: seq<nat>)
      requires i < |succ| == |program.topo| && strict == StrictTopo(program)
      requires Swept(succ, domPred, domSucc, queue0, i + 1, strict)
      requires forall n :: i < n < |succ| ==> Climbed(program.topo, succ, domPred, n)
      modifies `domPred, `domSucc
      ensures Swept(succ, domPred, domSucc, queue, i, strict)
      ensures forall n :: i <= n < |succ| ==> Climbed(program.topo, succ, domPred, n)
    {
      queue := queue0;
      var parent := Null;
      if succ[i] != [] {
        parent := CommonAncestor(i);
      }
      SweepStep(succ, domPred, domSucc, queue, i, parent, strict);
      ClimbedStep(program.topo, succ, domPred, i, parent, domPred[i := parent]);
      domPred := domPred[i := parent];
      if parent.Node? {
        domSucc := domSucc[parent.index := domSucc[parent.index] + [i]];
      } else {
        queue := queue + [i];
      }
    }

    /** The backward sweep that builds the dominator tree. */
    method BuildDominateTree() returns (queue: seq<nat>)
      requires HasEdges()
      modifies `domPred, `domSucc
      ensures HasTree()
      ensures NoDup(queue) && Below(queue, |succ|)
      ensures forall x :: 0 <= x < |succ| ==> (x in queue <==> domPred[x] == Null)
      ensures forall n :: 0 <= n < |succ| ==> Climbed(program.topo, succ, domPred, n)
    {
      queue := [];
      domPred := seq(|succ|, _ => Null);
      domSucc := seq(|succ|, _ => []);
      var i := |succ|;
      ghost var strict := StrictTopo(program);
      while i > 0
        invariant i >= 0 && succ == old(succ) && pred == old(pred) && Swept(succ, domPred, domSucc, queue, i, strict)
        invariant forall n :: i <= n < |succ| ==> Climbed(program.topo, succ, domPred, n)
      {
        i := i - 1;
        queue := SweepNode(i, queue, strict);
      }
    }

    /** Breadth-first legality check.  It keeps no visited set, so shared nodes are processed
        once per path; it terminates because edges point forward. */
    method AllPathLegal(s: nat, t: nat) returns (ok: bool)
      requires HasEdges() && s < |succ|
      ensures ok <==> RegionLegal(succ, legal, s, t)
    {
      var q := [s];
      ok := true;
      while q != []
        invariant Below(q, |succ|)
        invariant ok
        invariant RegionLegal(succ, legal, s, t) <==> AllRegionsLegal(succ, legal, q, t)
        decreases QueueWeight(succ, q)
      {
        var node := q[0];
        ghost var q0 := q;
        q := q[1..];
        ok := ok && legal[node];
        if !ok {
          assert node in q0 && !RegionLegal(succ, legal, node, t);
          return false;
        }
        ghost var rest := q;
        for j := 0 to |succ[node]|
          invariant Below(q, |succ|)
          invariant forall x :: x in q <==> x in rest || exists i :: 0 <= i < j && succ[node][i] == x && x != t
          invariant QueueWeight(succ, q) + WeightFrom(succ, node, j) <=
                    QueueWeight(succ, rest) + WeightFrom(succ, node, 0)
        {
          var c := succ[node][j];
          if c != t {
            QueueWeightPush(succ, q, c);
            q := q + [c];
          }
        }
        RegionStep(q0, q, t);
      }
    }

    lemma RegionStep(q0: seq<nat>, q: seq<nat>, t: nat)
      requires HasEdges() && q0 != [] && Below(q0, |succ|) && Below(q, |succ|) && legal[q0[0]]
      requires forall x :: x in q <==>
                 x in q0[1..] || exists i :: 0 <= i < |succ[q0[0]]| && succ[q0[0]][i] == x && x != t
      ensures AllRegionsLegal(succ, legal, q0, t) <==> AllRegionsLegal(succ, legal, q, t)
    {
      var node := q0[0];
      if AllRegionsLegal(succ, legal, q, t) {
        forall i | 0 <= i < |q0|
          ensures RegionLegal(succ, legal, q0[i], t)
        {
          if i > 0 {
            assert q0[1..][i - 1] in q0[1..];
            assert q0[i] in q;
          } else {
            forall j | 0 <= j < |succ[node]| && succ[node][j] != t
              ensures RegionLegal(succ, legal, succ[node][j], t)
            {
              assert succ[node][j] in q;
            }
          }
        }
      }
      if AllRegionsLegal(succ, legal, q0, t) {
        forall i | 0 <= i < |q|
          ensures RegionLegal(succ, legal, q[i], t)
        {
          assert q[i] in q;
          if q[i] !in q0[1..] {
            assert RegionLegal(succ, legal, q0[0], t);
          }
        }
      }
    }

    /** Growing one fuse set down the tree; rejected children are handed back as `edges`. */
    method FuseNode(root: nat) returns (fuseSet: seq<nat>, edges: seq<nat>)
      requires HasTree() && root < |succ| && legal[root]
      ensures FuseSetOk(succ, domPred, legal, fuseSet) && fuseSet[|fuseSet| - 1] == root
      ensures NoDup(edges) && Below(edges, |succ|)
      ensures forall e: nat :: e < |succ| ==> (e in edges <==> Edge(succ, domPred, legal, root, e))
    {
      ghost var f := TheForest();
      fuseSet, edges := [], [];
      var q := [root];
      while q != []
        invariant GrowOk(f, root, fuseSet, q, edges)
        decreases |succ| - |fuseSet|
      {
        ghost var q0, set0, edges0 := q, fuseSet, edges;
        fuseSet := [q[0]] + fuseSet;
        q, edges := VisitChildren(root, domSucc[q[0]], q[1..], edges);
        GrowStep(f, root, set0, q0, edges0);
      }
      Grown(f, root, fuseSet, edges);
    }

    /** Sorts the children of a node in the tree into the queue and the edges. */
    method VisitChildren(root: nat, children: seq<nat>, q0: seq<nat>, edges0: seq<nat>)
      returns (q: seq<nat>, edges: seq<nat>)
      requires HasEdges() && Below(children, |succ|)
      ensures var f := Forest(succ, domPred, domSucc, legal);
              q == q0 + Sorted(f, root, children, true) && edges == edges0 + Sorted(f, root, children, false)
    {
      ghost var f := Forest(succ, domPred, domSucc, legal);
      q, edges := q0, edges0;
      for j := 0 to |children|
        invariant q == q0 + Sorted(f, root, children[..j], true)
        invariant edges == edges0 + Sorted(f, root, children[..j], false)
      {
        var child := children[j];
        var ok := legal[child];
        if ok {
          ok := AllPathLegal(child, root);
        }
        assert ok == Joins(f, root, child);
        assert children[..j + 1] == children[..j] + [child];
        if ok {
          q := q + [child];
        } else {
          edges := edges + [child];
        }
      }
      assert children[..|children|] == children;
    }

    /** The outer loop: each root off the queue either starts a fuse set or passes its children on. */
    method FindFuseSets(queue: seq<nat>) returns (fuseSets: seq<seq<nat>>)
      requires HasTree()
      requires NoDup(queue) && Below(queue, |succ|)
      requires forall x :: 0 <= x < |succ| ==> (x in queue <==> domPred[x] == Null)
      ensures FuseSetsOk(succ, domPred, legal, fuseSets) && AllFound(succ, domPred, legal, fuseSets)
    {
      fuseSets := [];
      var q := queue;
      ghost var done: set<nat> := {};
      RootsApart(domPred, queue);
      SearchStart(TheForest(), queue);
      while q != []
        invariant FuseSetsOk(succ, domPred, legal, fuseSets) && SearchOk(TheForest(), done, q, fuseSets)
        invariant Below(q, |succ|) && PairwiseApart(domPred, q)
        invariant Untouched(domPred, fuseSets, q)
        decreases Pending(domPred, q)
      {
        var root := q[0];
        ghost var q0, sets0 := q, fuseSets;
        var children: seq<nat> := [];
        if domSucc[root] != [] {
          if legal[root] {
            var fuseSet;
            fuseSet, children := FuseNode(root);
            if |fuseSet| > 1 {
              fuseSets := fuseSets + [fuseSet];
            }
            FusedStep(TheForest(), sets0, fuseSet, q0, children);
            FusedSearch(TheForest(), done, q0, sets0, fuseSet, children);
          } else {
            children := domSucc[root];
            SkippedStep(TheForest(), sets0, q0);
            SkippedSearch(TheForest(), done, q0, sets0);
          }
        } else {
          SkippedStep(TheForest(), sets0, q0);
          SkippedSearch(TheForest(), done, q0, sets0);
        }
        q, done := q[1..] + children, done + {root};
      }
      SearchEnd(TheForest(), done, fuseSets);
    }

    ghost function TheForest(): (f: Forest)
      reads this
      requires HasTree()
      ensures ForestOk(f)
    {
      Forest(succ, domPred, domSucc, legal)
    }
  }
}
