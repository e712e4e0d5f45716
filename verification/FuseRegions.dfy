/** Which nodes may share one kernel: the region below a root of the dominator tree in
    which every path to the root is legal. */
module FuseRegions {
  import opened DominatorTree

  /** Every node that can be reached from `s` without passing `t` is legal. */
  predicate RegionLegal(succ: seq<seq<nat>>, legal: seq<bool>, s: nat, t: nat)
    requires Forward(succ) && |legal| == |succ| && s < |succ|
    decreases |succ| - s
  {
    legal[s] && forall j :: 0 <= j < |succ[s]| && succ[s][j] != t ==> RegionLegal(succ, legal, succ[s][j], t)
  }

  /** `x` joins the fuse set of `root`: each step of its way up the dominator tree is fusible. */
  ghost predicate Member(succ: seq<seq<nat>>, dom: seq<NodeRef>, legal: seq<bool>, root: nat, x: nat)
    requires Forward(succ) && TreeOk(dom) && |dom| == |succ| == |legal| && x < |succ|
    decreases |succ| - x
  {
    x == root || (dom[x].Node? && RegionLegal(succ, legal, x, root) && Member(succ, dom, legal, root, dom[x].index))
  }

  lemma {:induction false} MemberBelow(succ: seq<seq<nat>>, dom: seq<NodeRef>, legal: seq<bool>, root: nat, x: nat)
    requires Forward(succ) && TreeOk(dom) && |dom| == |succ| == |legal| && x < |succ|
    requires Member(succ, dom, legal, root, x)
    ensures root in Chain(dom, Node(x))
    decreases |succ| - x
  {
    if x != root {
      MemberBelow(succ, dom, legal, root, dom[x].index);
    }
  }

  /** Every node between a member and the root is a member. */
  lemma {:induction false} MemberUp(succ: seq<seq<nat>>, dom: seq<NodeRef>, legal: seq<bool>, root: nat, x: nat, y: nat)
    requires Forward(succ) && TreeOk(dom) && |dom| == |succ| == |legal| && x < |succ|
    requires Member(succ, dom, legal, root, x) && y in Chain(dom, Node(x)) && y <= root
    ensures Member(succ, dom, legal, root, y)
    decreases |succ| - x
  {
    if x != y && x != root {
      MemberUp(succ, dom, legal, root, dom[x].index, y);
    }
  }

  /** Legality of a region carries over to any ancestor below the root. */
  lemma {:induction false} RegionLegalUp(
    succ: seq<seq<nat>>, dom: seq<NodeRef>, legal: seq<bool>, strict: bool, root: nat, a: nat, b: nat)
    requires DomTree(succ, dom, strict) && |legal| == |succ| && a < |succ| && root < |succ|
    requires RegionLegal(succ, legal, a, root)
    requires b in Chain(dom, Node(a)) && b < root
    ensures RegionLegal(succ, legal, b, root)
    decreases |succ| - a
  {
    if a != b {
      assert ParentOk(succ, dom, a, strict);
      var c := succ[a][0];
      assert b in Chain(dom, Node(c));
      RegionLegalUp(succ, dom, legal, strict, root, c, b);
    }
  }

  /** A fuse set consists of the root and of every node it post-dominates along legal paths only. */
  lemma {:induction false} MemberIff(
    succ: seq<seq<nat>>, dom: seq<NodeRef>, legal: seq<bool>, strict: bool, root: nat, x: nat)
    requires DomTree(succ, dom, strict) && |legal| == |succ| && x < |succ| && root < |succ|
    ensures Member(succ, dom, legal, root, x) <==>
            x == root || (root in Chain(dom, Node(x)) && RegionLegal(succ, legal, x, root))
    decreases |succ| - x
  {
    if x != root && root in Chain(dom, Node(x)) && RegionLegal(succ, legal, x, root) {
      var parent := dom[x].index;
      if parent != root {
        RegionLegalUp(succ, dom, legal, strict, root, x, parent);
      }
      MemberIff(succ, dom, legal, strict, root, parent);
    }
    if Member(succ, dom, legal, root, x) {
      MemberBelow(succ, dom, legal, root, x);
    }
  }

  /** Closure: whatever consumes a non-root member is itself a member. */
  lemma MemberClosed(
    succ: seq<seq<nat>>, dom: seq<NodeRef>, legal: seq<bool>, strict: bool, root: nat, x: nat, c: nat)
    requires DomTree(succ, dom, strict) && |legal| == |succ| && x < |succ| && root < |succ|
    requires Member(succ, dom, legal, root, x) && x != root && c in succ[x]
    ensures Member(succ, dom, legal, root, c)
  {
    MemberIff(succ, dom, legal, strict, root, x);
    assert ParentOk(succ, dom, x, strict);
    var j :| 0 <= j < |succ[x]| && succ[x][j] == c;
    assert root in Chain(dom, dom[x]);
    assert root in Chain(dom, Node(succ[x][j]));
    MemberIff(succ, dom, legal, strict, root, c);
  }

  /** A non-root member feeds at least one command. */
  lemma MemberFeeds(succ: seq<seq<nat>>, dom: seq<NodeRef>, legal: seq<bool>, strict: bool, root: nat, x: nat)
    requires DomTree(succ, dom, strict) && |legal| == |succ| && x < |succ| && root < |succ|
    requires Member(succ, dom, legal, root, x) && x != root
    ensures succ[x] != [] && legal[x]
  {
    assert ParentOk(succ, dom, x, strict);
  }

  // --- Subtrees: how fuse sets are kept apart ---

  ghost predicate Under(dom: seq<NodeRef>, r: nat, x: nat)
    requires TreeOk(dom)
  {
    x < |dom| && r in Chain(dom, Node(x))
  }

  /** Neither node lies under the other. */
  ghost predicate Apart(dom: seq<NodeRef>, a: nat, b: nat)
    requires TreeOk(dom)
  {
    !Under(dom, a, b) && !Under(dom, b, a)
  }

  lemma ApartSubtrees(dom: seq<NodeRef>, a: nat, b: nat, x: nat)
    requires TreeOk(dom) && Apart(dom, a, b) && Under(dom, a, x)
    ensures !Under(dom, b, x)
  {
    if Under(dom, b, x) {
      if a <= b {
        ChainLinear(dom, Node(x), a, b);
      } else {
        ChainLinear(dom, Node(x), b, a);
      }
    }
  }

  lemma UnderTrans(dom: seq<NodeRef>, a: nat, b: nat, x: nat)
    requires TreeOk(dom) && Under(dom, a, b) && Under(dom, b, x)
    ensures Under(dom, a, x)
  {
    ChainUp(dom, Node(x), b);
  }

  /** A node that moves down inside one subtree stays apart from everything outside it. */
  lemma ApartBelow(dom: seq<NodeRef>, r: nat, e: nat, b: nat)
    requires TreeOk(dom) && Apart(dom, r, b) && Under(dom, r, e)
    ensures Apart(dom, e, b)
  {
    if Under(dom, e, b) {
      UnderTrans(dom, r, e, b);
    }
    if Under(dom, b, e) {
      ApartSubtrees(dom, r, b, e);
    }
  }

  /** A child of a member that is not a member itself. */
  ghost predicate Edge(succ: seq<seq<nat>>, dom: seq<NodeRef>, legal: seq<bool>, root: nat, e: nat)
    requires Forward(succ) && TreeOk(dom) && |dom| == |succ| == |legal|
  {
    && e < |succ| && dom[e].Node?
    && !Member(succ, dom, legal, root, e)
    && Member(succ, dom, legal, root, dom[e].index)
  }

  lemma EdgesApart(succ: seq<seq<nat>>, dom: seq<NodeRef>, legal: seq<bool>, root: nat, e: nat, e': nat)
    requires Forward(succ) && TreeOk(dom) && |dom| == |succ| == |legal| && root < |succ|
    requires Edge(succ, dom, legal, root, e) && Edge(succ, dom, legal, root, e') && e != e'
    ensures Apart(dom, e, e')
  {
    if Under(dom, e, e') {
      MemberBelow(succ, dom, legal, root, dom[e].index);
      MemberUp(succ, dom, legal, root, dom[e'].index, e);
    }
    if Under(dom, e', e) {
      MemberBelow(succ, dom, legal, root, dom[e'].index);
      MemberUp(succ, dom, legal, root, dom[e].index, e');
    }
  }

  /** Nothing under an edge is a member. */
  lemma EdgeOutside(succ: seq<seq<nat>>, dom: seq<NodeRef>, legal: seq<bool>, root: nat, e: nat, x: nat)
    requires Forward(succ) && TreeOk(dom) && |dom| == |succ| == |legal| && root < |succ|
    requires Edge(succ, dom, legal, root, e) && Under(dom, e, x)
    ensures Under(dom, root, e) && e != root
    ensures !Member(succ, dom, legal, root, x)
  {
    MemberBelow(succ, dom, legal, root, dom[e].index);
    if Member(succ, dom, legal, root, x) {
      MemberUp(succ, dom, legal, root, x, e);
    }
  }

  // --- Where fuse sets start ---

  /** The search goes on from `p` to `r`: to the edges of a legal root, to the children of an illegal one. */
  ghost predicate Derives(succ: seq<seq<nat>>, dom: seq<NodeRef>, legal: seq<bool>, p: nat, r: nat)
    requires Forward(succ) && TreeOk(dom) && |dom| == |succ| == |legal| && p < |dom|
  {
    r < |dom| && if legal[p] then Edge(succ, dom, legal, p, r) else dom[r] == Node(p)
  }

  lemma DerivesBelow(succ: seq<seq<nat>>, dom: seq<NodeRef>, legal: seq<bool>, p: nat, r: nat)
    requires Forward(succ) && TreeOk(dom) && |dom| == |succ| == |legal| && p < |dom|
    requires Derives(succ, dom, legal, p, r)
    ensures r < p
  {
    if legal[p] {
      MemberBelow(succ, dom, legal, p, dom[r].index);
    }
  }

  /** A node without a parent, or one that the search comes to from such a node. */
  ghost predicate FuseRoot(succ: seq<seq<nat>>, dom: seq<NodeRef>, legal: seq<bool>, r: nat)
    requires Forward(succ) && TreeOk(dom) && |dom| == |succ| == |legal|
    decreases |dom| - r
  {
    && r < |dom|
    && (dom[r].Null? || exists p :: r < p < |dom| && FuseRoot(succ, dom, legal, p) && Derives(succ, dom, legal, p, r))
  }

  /** The region of `r` has another member. */
  ghost predicate HasMore(succ: seq<seq<nat>>, dom: seq<NodeRef>, legal: seq<bool>, r: nat)
    requires Forward(succ) && TreeOk(dom) && |dom| == |succ| == |legal|
  {
    exists x :: 0 <= x < |dom| && x != r && Member(succ, dom, legal, r, x)
  }

  /** Some set ends in `r`. */
  ghost predicate EndsIn(sets: seq<seq<nat>>, r: nat)
  {
    exists a :: 0 <= a < |sets| && sets[a] != [] && sets[a][|sets[a]| - 1] == r
  }

  /** There is a set for every legal root whose region has more than one member, and for no other node. */
  ghost predicate AllFound(succ: seq<seq<nat>>, dom: seq<NodeRef>, legal: seq<bool>, sets: seq<seq<nat>>)
    requires Forward(succ) && TreeOk(dom) && |dom| == |succ| == |legal|
  {
    forall r :: 0 <= r < |dom| ==>
      (EndsIn(sets, r) <==> FuseRoot(succ, dom, legal, r) && legal[r] && HasMore(succ, dom, legal, r))
  }

  lemma {:induction false} ChildlessAlone(
    succ: seq<seq<nat>>, dom: seq<NodeRef>, legal: seq<bool>, root: nat, x: nat)
    requires Forward(succ) && TreeOk(dom) && |dom| == |succ| == |legal| && x < |succ|
    requires Member(succ, dom, legal, root, x) && forall y :: 0 <= y < |dom| ==> dom[y] != Node(root)
    ensures x == root
    decreases |succ| - x
  {
    if x != root {
      ChildlessAlone(succ, dom, legal, root, dom[x].index);
    }
  }

  /** From a node without children the search goes nowhere, and its region is the node alone. */
  lemma ChildlessEnds(succ: seq<seq<nat>>, dom: seq<NodeRef>, legal: seq<bool>, root: nat)
    requires Forward(succ) && TreeOk(dom) && |dom| == |succ| == |legal| && root < |dom|
    requires forall y :: 0 <= y < |dom| ==> dom[y] != Node(root)
    ensures !HasMore(succ, dom, legal, root) && forall r: nat :: !Derives(succ, dom, legal, root, r)
  {
    forall x: nat | x < |succ| && Member(succ, dom, legal, root, x)
      ensures x == root
    {
      ChildlessAlone(succ, dom, legal, root, x);
    }
  }
}
