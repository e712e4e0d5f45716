/** The iterative walks over the graph of caches: what an explicit stack that holds duplicates guarantees,
    and the check that no INPUT leaf is still unwritten. */
module CacheWalk {
  import opened Sequences
  import opened Caches
  import opened Waits

  /** The graph of caches is acyclic because a cache only reads older ones. */
  ghost predicate Acyclic(cs: seq<Cache>)
  {
    forall c :: 0 <= c < |cs| ==> Below(cs[c].inputs, c)
  }

  // --- A stack with duplicates ---

  /** Position `p` of the stack holds `x`, everything above is older than `x`, and the inputs of `x` are
      finished or above. */
  ghost predicate Open(cs: seq<Cache>, stack: seq<nat>, visited: set<nat>, x: nat, p: nat)
  {
    && x < |cs| && p < |stack| && stack[p] == x
    && (forall q :: p < q < |stack| ==> stack[q] < x)
    && (forall k :: 0 <= k < |cs[x].inputs| ==> cs[x].inputs[k] in visited || cs[x].inputs[k] in stack[p + 1..])
  }

  /** Every cache whose inputs were pushed is finished or open. */
  ghost predicate Covered(cs: seq<Cache>, stack: seq<nat>, visited: set<nat>, expanded: set<nat>)
  {
    forall x :: x in expanded && x !in visited ==> exists p: nat :: Open(cs, stack, visited, x, p)
  }

  predicate AllVisited(inputs: seq<nat>, visited: set<nat>)
  {
    forall k :: 0 <= k < |inputs| ==> inputs[k] in visited
  }

  /** The inputs of the top of the stack are pushed only once. */
  lemma ExpandOnce(cs: seq<Cache>, stack: seq<nat>, visited: set<nat>, expanded: set<nat>)
    requires Covered(cs, stack, visited, expanded) && stack != []
    requires stack[|stack| - 1] in expanded && stack[|stack| - 1] !in visited
    ensures stack[|stack| - 1] < |cs| && AllVisited(cs[stack[|stack| - 1]].inputs, visited)
  {
    var c := stack[|stack| - 1];
    var p: nat :| Open(cs, stack, visited, c, p);
    assert p == |stack| - 1;
    assert stack[p + 1..] == [];
  }

  /** Older caches may be pushed on an open position. */
  lemma OpenUnder(cs: seq<Cache>, stack: seq<nat>, visited: set<nat>, x: nat, p: nat, more: seq<nat>)
    requires Open(cs, stack, visited, x, p) && forall k :: 0 <= k < |more| ==> more[k] < x
    ensures Open(cs, stack + more, visited, x, p)
  {
    assert (stack + more)[p + 1..] == stack[p + 1..] + more;
  }

  lemma PushWithin(cs: seq<Cache>, stack: seq<nat>, more: seq<nat>)
    requires Below(stack, |cs|) && Below(more, |cs|)
    ensures Below(stack + more, |cs|)
  {
  }

  lemma CoveredPush(cs: seq<Cache>, stack: seq<nat>, visited: set<nat>, expanded: set<nat>)
    requires Acyclic(cs) && Below(stack, |cs|) && Covered(cs, stack, visited, expanded)
    requires stack != [] && stack[|stack| - 1] !in expanded
    ensures var c := stack[|stack| - 1];
            && Below(stack + cs[c].inputs, |cs|)
            && Covered(cs, stack + cs[c].inputs, visited, expanded + {c})
  {
    var n := |stack|;
    var c := stack[n - 1];
    var more := cs[c].inputs;
    var stack', expanded' := stack + more, expanded + {c};
    assert Below(more, c);
    PushWithin(cs, stack, more);
    forall x | x in expanded' && x !in visited
      ensures exists p: nat :: Open(cs, stack', visited, x, p)
    {
      if x == c {
        assert stack'[n..] == more;
        assert Open(cs, stack', visited, x, n - 1);
      } else {
        var p: nat :| Open(cs, stack, visited, x, p);
        assert p < n - 1 && c < x;
        OpenUnder(cs, stack, visited, x, p, more);
      }
    }
  }

  lemma CoveredPop(cs: seq<Cache>, stack: seq<nat>, visited: set<nat>, expanded: set<nat>)
    requires Covered(cs, stack, visited, expanded) && stack != []
    ensures Covered(cs, stack[..|stack| - 1], visited + {stack[|stack| - 1]}, expanded)
  {
    var n := |stack|;
    var c := stack[n - 1];
    var rest, visited' := stack[..n - 1], visited + {c};
    forall x | x in expanded && x !in visited'
      ensures exists p: nat :: Open(cs, rest, visited', x, p)
    {
      var p: nat :| Open(cs, stack, visited, x, p);
      assert stack[p + 1..] == rest[p + 1..] + [c];
      assert Open(cs, rest, visited', x, p);
    }
  }

  ghost function Unexpanded(n: nat, expanded: set<nat>): (r: set<nat>)
  {
    set x: nat | x < n && x !in expanded
  }

  lemma ExpandShrinks(n: nat, expanded: set<nat>, c: nat)
    requires c < n && c !in expanded
    ensures Unexpanded(n, expanded + {c}) < Unexpanded(n, expanded)
  {
    assert c in Unexpanded(n, expanded) && c !in Unexpanded(n, expanded + {c});
  }

  // --- The check before computing ---

  predicate Waiting(x: Cache, unwritten: seq<bool>)
  {
    exists l :: l in x.inside && l < |unwritten| && unwritten[l]
  }

  /** Cache `c`, or a cache it reads directly or not, has an INPUT leaf that was never written. */
  ghost predicate Blocked(cs: seq<Cache>, unwritten: seq<bool>, c: nat)
    decreases c
  {
    && c < |cs|
    && (|| Waiting(cs[c], unwritten)
        || exists k :: 0 <= k < |cs[c].inputs| && cs[c].inputs[k] < c && Blocked(cs, unwritten, cs[c].inputs[k]))
  }

  /** It waits for an INPUT leaf that is unwritten. */
  lemma {:induction false} BlockedIff(cs: seq<Cache>, unwritten: seq<bool>, c: nat)
    ensures Blocked(cs, unwritten, c) <==> exists l: nat :: l < |unwritten| && unwritten[l] && WaitsFor(cs, c, l)
    decreases c
  {
    if c < |cs| {
      var inputs := cs[c].inputs;
      forall k | 0 <= k < |inputs| && inputs[k] < c
        ensures Blocked(cs, unwritten, inputs[k]) <==>
                exists l: nat :: l < |unwritten| && unwritten[l] && WaitsFor(cs, inputs[k], l)
      {
        BlockedIff(cs, unwritten, inputs[k]);
      }
      if Waiting(cs[c], unwritten) {
        var l: nat :| l in cs[c].inside && l < |unwritten| && unwritten[l];
        assert WaitsFor(cs, c, l);
      } else if Blocked(cs, unwritten, c) {
        var k :| 0 <= k < |inputs| && inputs[k] < c && Blocked(cs, unwritten, inputs[k]);
        var l: nat :| l < |unwritten| && unwritten[l] && WaitsFor(cs, inputs[k], l);
        assert WaitsFor(cs, c, l);
      }
    }
  }

  ghost predicate AnyBlocked(cs: seq<Cache>, unwritten: seq<bool>, stack: seq<nat>)
  {
    exists i :: 0 <= i < |stack| && Blocked(cs, unwritten, stack[i])
  }

  /** The number of paths down from `c`. */
  ghost function Weight(cs: seq<Cache>, c: nat): (w: nat)
    requires Acyclic(cs)
    ensures w > 0
    decreases c, 1, 0
  {
    if c < |cs| then 1 + Weights(cs, c, cs[c].inputs) else 1
  }

  ghost function Weights(cs: seq<Cache>, n: nat, list: seq<nat>): nat
    requires Acyclic(cs) && Below(list, n)
    decreases n, 0, |list|
  {
    if list == [] then 0 else Weights(cs, n, list[..|list| - 1]) + Weight(cs, list[|list| - 1])
  }

  lemma {:induction false} WeightsConcat(cs: seq<Cache>, n: nat, m: nat, a: seq<nat>, b: seq<nat>)
    requires Acyclic(cs) && Below(a, n) && Below(b, m) && m <= n
    ensures Below(a + b, n) && Weights(cs, n, a + b) == Weights(cs, n, a) + Weights(cs, m, b)
    decreases |b|
  {
    assert forall k :: 0 <= k < |b| ==> (a + b)[|a| + k] == b[k];
    if b == [] {
      assert a + b == a;
    } else {
      WeightsConcat(cs, n, m, a, b[..|b| - 1]);
      assert (a + b)[..|a + b| - 1] == a + b[..|b| - 1];
    }
  }

  lemma BlockedStep(cs: seq<Cache>, unwritten: seq<bool>, stack: seq<nat>)
    requires Acyclic(cs) && Below(stack, |cs|) && stack != [] && !Waiting(cs[stack[|stack| - 1]], unwritten)
    ensures AnyBlocked(cs, unwritten, stack) <==>
            AnyBlocked(cs, unwritten, stack[..|stack| - 1] + cs[stack[|stack| - 1]].inputs)
  {
    var n := |stack|;
    var c := stack[n - 1];
    var stack' := stack[..n - 1] + cs[c].inputs;
    assert Below(cs[c].inputs, c);
    if AnyBlocked(cs, unwritten, stack) {
      var i :| 0 <= i < n && Blocked(cs, unwritten, stack[i]);
      if i < n - 1 {
        assert stack'[i] == stack[i];
      } else {
        var k :| 0 <= k < |cs[c].inputs| && Blocked(cs, unwritten, cs[c].inputs[k]);
        assert stack'[n - 1 + k] == cs[c].inputs[k];
      }
    }
    if AnyBlocked(cs, unwritten, stack') {
      var i :| 0 <= i < |stack'| && Blocked(cs, unwritten, stack'[i]);
      if i < n - 1 {
        assert stack[i] == stack'[i];
      } else {
        assert cs[c].inputs[i - (n - 1)] == stack'[i];
        assert Blocked(cs, unwritten, c);
        assert stack[n - 1] == c;
      }
    }
  }

  lemma WeightStep(cs: seq<Cache>, stack: seq<nat>)
    requires Acyclic(cs) && Below(stack, |cs|) && stack != []
    ensures var stack' := stack[..|stack| - 1] + cs[stack[|stack| - 1]].inputs;
            Below(stack', |cs|) && Weights(cs, |cs|, stack') < Weights(cs, |cs|, stack)
  {
    var n := |stack|;
    var c := stack[n - 1];
    assert Below(cs[c].inputs, c);
    WeightsConcat(cs, |cs|, c, stack[..n - 1], cs[c].inputs);
  }

  /** The first loop of `ComputeCache::compute`. It never marks a cache as visited, so it walks every path
      down from `c` and pushes the inputs of a cache whenever there are any. */
  method CheckReady(cs: seq<Cache>, unwritten: seq<bool>, c: nat) returns (ready: bool)
    requires Acyclic(cs) && c < |cs|
    ensures ready <==> !Blocked(cs, unwritten, c)
  {
    var stack := [c];
    assert Blocked(cs, unwritten, c) <==> AnyBlocked(cs, unwritten, stack) by {
      assert stack[0] == c;
    }
    while stack != []
      invariant Below(stack, |cs|)
      invariant Blocked(cs, unwritten, c) <==> AnyBlocked(cs, unwritten, stack)
      decreases Weights(cs, |cs|, stack)
    {
      var top := stack[|stack| - 1];
      if Waiting(cs[top], unwritten) {
        assert Blocked(cs, unwritten, top);
        return false;
      }
      BlockedStep(cs, unwritten, stack);
      WeightStep(cs, stack);
      stack := stack[..|stack| - 1] + cs[top].inputs;
    }
    return true;
  }
}
