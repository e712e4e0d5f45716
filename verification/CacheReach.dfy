/** Which caches a walk over the graph of caches is for: those that are reached through flagged caches only. */
module CacheReach {
  import opened Sequences
  import opened Caches
  import opened CacheWalk

  ghost function ContentDirty(cs: seq<Cache>): set<nat>
  {
    set c: nat | c < |cs| && cs[c].contentDirty
  }

  ghost function ShapeDirty(cs: seq<Cache>): set<nat>
  {
    set c: nat | c < |cs| && cs[c].shapeDirty
  }

  /** `d` is `c`, or is read by `c` directly or through other caches, and all on the way from `c` to `d` are in `on`. */
  ghost predicate Through(cs: seq<Cache>, on: set<nat>, c: nat, d: nat)
    decreases c
  {
    && c < |cs| && c in on
    && (c == d || exists k :: 0 <= k < |cs[c].inputs| && cs[c].inputs[k] < c && Through(cs, on, cs[c].inputs[k], d))
  }

  lemma {:induction false} ThroughEnds(cs: seq<Cache>, on: set<nat>, c: nat, d: nat)
    requires Through(cs, on, c, d)
    ensures d <= c && d in on
    decreases c
  {
    if c != d {
      var k :| 0 <= k < |cs[c].inputs| && cs[c].inputs[k] < c && Through(cs, on, cs[c].inputs[k], d);
      ThroughEnds(cs, on, cs[c].inputs[k], d);
    }
  }

  lemma {:induction false} ThroughTrans(cs: seq<Cache>, on: set<nat>, a: nat, b: nat, d: nat)
    requires Through(cs, on, a, b) && Through(cs, on, b, d)
    ensures Through(cs, on, a, d)
    decreases a
  {
    if a != b {
      var k :| 0 <= k < |cs[a].inputs| && cs[a].inputs[k] < a && Through(cs, on, cs[a].inputs[k], b);
      ThroughTrans(cs, on, cs[a].inputs[k], b, d);
    }
  }

  /** Only the inputs matter, and more flags only lead further. */
  lemma {:induction false} ThroughMore(cs: seq<Cache>, on: set<nat>, cs': seq<Cache>, on': set<nat>, c: nat, d: nat)
    requires Through(cs, on, c, d) && on <= on'
    requires |cs| <= |cs'| && forall x :: 0 <= x < |cs| ==> cs'[x].inputs == cs[x].inputs
    ensures Through(cs', on', c, d)
    decreases c
  {
    if c != d {
      var k :| 0 <= k < |cs[c].inputs| && cs[c].inputs[k] < c && Through(cs, on, cs[c].inputs[k], d);
      ThroughMore(cs, on, cs', on', cs[c].inputs[k], d);
      assert cs'[c].inputs[k] == cs[c].inputs[k];
    }
  }

  // --- What is on the stack ---

  /** `x` is what the walk is for, or is read by a cache that the walk has come to. */
  ghost predicate Asked(cs: seq<Cache>, on: set<nat>, c: nat, x: nat)
  {
    x == c || exists y :: 0 <= y < |cs| && Through(cs, on, c, y) && x in cs[y].inputs
  }

  ghost predicate AllAsked(cs: seq<Cache>, on: set<nat>, c: nat, stack: seq<nat>)
  {
    forall i :: 0 <= i < |stack| ==> Asked(cs, on, c, stack[i])
  }

  lemma AskedThrough(cs: seq<Cache>, on: set<nat>, c: nat, x: nat)
    requires Acyclic(cs) && Asked(cs, on, c, x) && x < |cs| && x in on
    ensures Through(cs, on, c, x)
  {
    assert Through(cs, on, x, x);
    if x != c {
      var y: nat :| y < |cs| && Through(cs, on, c, y) && x in cs[y].inputs;
      var k :| 0 <= k < |cs[y].inputs| && cs[y].inputs[k] == x;
      assert Below(cs[y].inputs, y);
      ThroughEnds(cs, on, c, y);
      assert Through(cs, on, y, x);
      ThroughTrans(cs, on, c, y, x);
    }
  }

  /** The inputs of a flagged cache are asked for with it. */
  lemma AskInputs(cs: seq<Cache>, on: set<nat>, c: nat, stack: seq<nat>, x: nat)
    requires Acyclic(cs) && AllAsked(cs, on, c, stack) && x in stack && x < |cs| && x in on
    ensures AllAsked(cs, on, c, stack + cs[x].inputs)
  {
    var i :| 0 <= i < |stack| && stack[i] == x;
    AskedThrough(cs, on, c, x);
    var stack' := stack + cs[x].inputs;
    forall j | 0 <= j < |stack'|
      ensures Asked(cs, on, c, stack'[j])
    {
      if j >= |stack| {
        assert stack'[j] == cs[x].inputs[j - |stack|];
        assert stack'[j] in cs[x].inputs;
      }
    }
  }

  // --- What has been done ---

  /** Flagged caches, each once, and each after its flagged inputs. */
  ghost predicate InOrder(cs: seq<Cache>, on: set<nat>, done: seq<nat>)
  {
    NoDup(done) && forall i :: 0 <= i < |done| ==> done[i] < |cs| && done[i] in on && AfterInputs(cs, on, done, i)
  }

  ghost predicate AfterInputs(cs: seq<Cache>, on: set<nat>, done: seq<nat>, i: nat)
    requires i < |done| && done[i] < |cs|
  {
    forall k :: 0 <= k < |cs[done[i]].inputs| ==>
      cs[done[i]].inputs[k] in done[..i] || cs[done[i]].inputs[k] !in on
  }

  lemma OneMoreDone(cs: seq<Cache>, on: set<nat>, done: seq<nat>, c: nat)
    requires InOrder(cs, on, done) && c < |cs| && c in on && c !in done
    requires forall k :: 0 <= k < |cs[c].inputs| ==> cs[c].inputs[k] in done || cs[c].inputs[k] !in on
    ensures InOrder(cs, on, done + [c])
  {
    var done' := done + [c];
    forall i | 0 <= i < |done'|
      ensures done'[i] < |cs| && done'[i] in on && AfterInputs(cs, on, done', i)
    {
      if i < |done| {
        assert AfterInputs(cs, on, done, i) && done'[..i] == done[..i];
      } else {
        assert done'[..i] == done;
      }
    }
  }

  /** Everything that `c` needs was done, and nothing else. */
  ghost predicate Exactly(cs: seq<Cache>, on: set<nat>, c: nat, done: seq<nat>)
  {
    InOrder(cs, on, done) && forall d: nat :: d in done <==> Through(cs, on, c, d)
  }

  lemma {:induction false} NothingLeft(cs: seq<Cache>, on: set<nat>, done: seq<nat>, x: nat, d: nat)
    requires InOrder(cs, on, done) && x in done && Through(cs, on, x, d)
    ensures d in done
    decreases x
  {
    if x != d {
      var i :| 0 <= i < |done| && done[i] == x;
      var k :| 0 <= k < |cs[x].inputs| && cs[x].inputs[k] < x && Through(cs, on, cs[x].inputs[k], d);
      assert AfterInputs(cs, on, done, i);
      NothingLeft(cs, on, done, cs[x].inputs[k], d);
    }
  }

  lemma DoneExactly(cs: seq<Cache>, on: set<nat>, c: nat, done: seq<nat>)
    requires InOrder(cs, on, done) && (c < |cs| && c in on ==> c in done)
    requires forall i :: 0 <= i < |done| ==> Through(cs, on, c, done[i])
    ensures Exactly(cs, on, c, done)
  {
    forall d: nat
      ensures d in done <==> Through(cs, on, c, d)
    {
      if Through(cs, on, c, d) {
        NothingLeft(cs, on, done, c, d);
      }
    }
  }
}
