/** Which INPUT leaves a read waits for. It is known from the graph and from which expressions were prepared
    together, and does not depend on what has been computed. */
module Waits {
  import opened Wrappers
  import opened Sequences
  import opened ExprGraph
  import opened Caches

  /** Cache `c` is not computed before the INPUT leaf `l` is written. */
  ghost predicate WaitsFor(cs: seq<Cache>, c: nat, l: nat)
    decreases c
  {
    && c < |cs|
    && (|| l in cs[c].inside
        || exists k :: 0 <= k < |cs[c].inputs| && cs[c].inputs[k] < c && WaitsFor(cs, cs[c].inputs[k], l))
  }

  /** For every cache, the leaves that it waits for. */
  ghost function AllWaits(cs: seq<Cache>): (r: seq<iset<nat>>)
    ensures |r| == |cs| && forall c :: 0 <= c < |cs| ==> r[c] == iset l: nat | WaitsFor(cs, c, l)
  {
    seq(|cs|, c requires 0 <= c < |cs| => iset l: nat | WaitsFor(cs, c, l))
  }

  /** What a caller can know without looking into a cache: the graph, the leaves, which expressions share a
      cache and what each cache waits for. */
  datatype Plain = Plain(
    exprs: seq<Expr>,
    content: seq<Value>,
    unwritten: seq<bool>,
    home: seq<Option<nat>>,
    waits: seq<iset<nat>>)

  ghost predicate PlainOk(p: Plain)
  {
    GraphOk(p.exprs) && |p.content| == |p.unwritten| == |p.home| == |p.exprs|
  }

  ghost function View(s: State): Plain
  {
    Plain(s.exprs, s.content, s.unwritten, s.home, AllWaits(s.caches))
  }

  /** A read of `e` waits for the INPUT leaf `l`: `e` is that leaf, or its cache waits for it, or it has no cache
      and one of its inputs waits for it. */
  ghost predicate Awaits(p: Plain, e: nat, l: nat)
    requires PlainOk(p)
    decreases e
  {
    && e < |p.exprs|
    && match p.exprs[e]
       case Leaf(isInput) => isInput && l == e
       case Op(_, inputs, _) =>
         if p.home[e].Some? then p.home[e].value < |p.waits| && l in p.waits[p.home[e].value]
         else exists i :: 0 <= i < |inputs| && ExprOk(p.exprs, e) && Awaits(p, inputs[i].expr, l)
  }

  /** A read of some root waits for the leaf. */
  ghost predicate Awaited(p: Plain, roots: set<nat>, l: nat)
    requires PlainOk(p)
  {
    exists r :: r in roots && Awaits(p, r, l)
  }

  /** Nothing that a read of `e` waits for is unwritten. */
  ghost predicate Answers(p: Plain, e: nat)
    requires PlainOk(p)
  {
    forall l: nat :: l < |p.unwritten| && p.unwritten[l] ==> !Awaits(p, e, l)
  }

  /** The ops among the variables that have no cache. */
  ghost function Uncached(p: Plain, vars: seq<Var>): (r: set<nat>)
    requires PlainOk(p)
    ensures forall e: nat :: e in r <==>
              e < |p.exprs| && p.exprs[e].Op? && p.home[e].None? && exists i :: 0 <= i < |vars| && vars[i].expr == e
  {
    set i | 0 <= i < |vars| && vars[i].expr < |p.exprs| && p.exprs[vars[i].expr].Op? && p.home[vars[i].expr].None? ::
      vars[i].expr
  }

  /** The roots share a new cache, which waits for whatever one of them waited for. */
  ghost function Prepared(p: Plain, roots: set<nat>): (r: Plain)
    requires PlainOk(p)
    ensures PlainOk(r)
  {
    if roots == {} then p
    else
      p.(home := seq(|p.home|, e requires 0 <= e < |p.home| => if e in roots then Some(|p.waits|) else p.home[e]),
         waits := p.waits + [iset l: nat | Awaited(p, roots, l)])
  }

  /** Preparing an expression does not change what it waits for. */
  lemma PreparedAwaits(p: Plain, e: nat, l: nat)
    requires PlainOk(p) && e < |p.exprs| && p.exprs[e].Op? && p.home[e].None?
    ensures Awaits(Prepared(p, {e}), e, l) <==> Awaits(p, e, l)
  {
    var q := Prepared(p, {e});
    assert q.home[e] == Some(|p.waits|) && q.waits[|p.waits|] == iset l: nat | Awaited(p, {e}, l);
    assert l in q.waits[|p.waits|] <==> Awaited(p, {e}, l);
    assert e in {e};
  }

  // --- What changes it ---

  /** Caches read and wait for what they did when they were made. */
  lemma {:induction false} WaitsFramed(cs: seq<Cache>, cs': seq<Cache>, c: nat, l: nat)
    requires c < |cs| <= |cs'|
    requires forall d :: 0 <= d < |cs| ==> cs'[d].inputs == cs[d].inputs && cs'[d].inside == cs[d].inside
    ensures WaitsFor(cs, c, l) <==> WaitsFor(cs', c, l)
    decreases c
  {
    var inputs := cs[c].inputs;
    forall k | 0 <= k < |inputs| && inputs[k] < c
      ensures WaitsFor(cs, inputs[k], l) <==> WaitsFor(cs', inputs[k], l)
    {
      WaitsFramed(cs, cs', inputs[k], l);
    }
    assert cs'[c].inputs == inputs;
    if WaitsFor(cs, c, l) && l !in cs[c].inside {
      var k :| 0 <= k < |inputs| && inputs[k] < c && WaitsFor(cs, inputs[k], l);
      assert WaitsFor(cs', cs'[c].inputs[k], l);
    }
    if WaitsFor(cs', c, l) && l !in cs'[c].inside {
      var k :| 0 <= k < |cs'[c].inputs| && cs'[c].inputs[k] < c && WaitsFor(cs', cs'[c].inputs[k], l);
      assert WaitsFor(cs, inputs[k], l);
    }
  }

  lemma WaitsGrow(cs: seq<Cache>, cs': seq<Cache>)
    requires |cs| <= |cs'|
    requires forall d :: 0 <= d < |cs| ==> cs'[d].inputs == cs[d].inputs && cs'[d].inside == cs[d].inside
    ensures AllWaits(cs')[..|cs|] == AllWaits(cs)
  {
    forall c | 0 <= c < |cs|
      ensures AllWaits(cs')[c] == AllWaits(cs)[c]
    {
      forall l: nat
        ensures l in AllWaits(cs')[c] <==> l in AllWaits(cs)[c]
      {
        WaitsFramed(cs, cs', c, l);
      }
    }
  }

  /** A new cache waits for its own leaves and for whatever the caches that it reads wait for. */
  lemma WaitsNewest(cs: seq<Cache>, x: Cache, l: nat)
    requires Below(x.inputs, |cs|)
    ensures WaitsFor(cs + [x], |cs|, l) <==>
            l in x.inside || exists k :: 0 <= k < |x.inputs| && WaitsFor(cs, x.inputs[k], l)
  {
    var cs', n := cs + [x], |cs|;
    forall k | 0 <= k < |x.inputs|
      ensures WaitsFor(cs', x.inputs[k], l) <==> WaitsFor(cs, x.inputs[k], l)
    {
      WaitsFramed(cs, cs', x.inputs[k], l);
    }
    if WaitsFor(cs', n, l) && l !in x.inside {
      var k :| 0 <= k < |cs'[n].inputs| && WaitsFor(cs', cs'[n].inputs[k], l);
      assert WaitsFor(cs, x.inputs[k], l);
    }
  }

  /** Computing and writing change nothing that a read waits for. */
  lemma SameShapeWaits(s: State, s': State)
    requires SameLayout(s, s')
    ensures AllWaits(s'.caches) == AllWaits(s.caches)
  {
    forall d | 0 <= d < |s.caches|
      ensures s'.caches[d].inputs == s.caches[d].inputs && s'.caches[d].inside == s.caches[d].inside
    {
      assert SameCache(s.caches[d], s'.caches[d]);
    }
    WaitsGrow(s.caches, s'.caches);
    assert AllWaits(s'.caches)[..|s.caches|] == AllWaits(s'.caches);
  }

  /** An expression with its inputs in place waits for what they wait for. */
  lemma AwaitsInput(p: Plain, e: nat, i: nat, l: nat)
    requires PlainOk(p) && e < |p.exprs| && p.exprs[e].Op? && p.home[e].None? && i < |p.exprs[e].inputs|
    requires Awaits(p, p.exprs[e].inputs[i].expr, l)
    ensures Awaits(p, e, l)
  {
    assert ExprOk(p.exprs, e);
  }
}
