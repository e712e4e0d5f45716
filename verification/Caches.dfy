/** The state of the lazy engine: expressions, leaf contents, and the graph of compute caches, with the
    invariants that every operation keeps. */
module Caches {
  import opened Wrappers
  import opened Sequences
  import opened ExprGraph
  import opened Links

  /** Where a pipeline entry finds an input tensor. */
  datatype Ref =
    | LeafRef(leaf: nat)
    | CacheRef(cache: nat, slot: nat)
    | Local(entry: nat, index: nat)

  /** One op of a session: its expression, its inputs and the slots of its outputs. */
  datatype Entry = Entry(expr: nat, op: nat, inputs: seq<Ref>, offset: nat, outputs: nat)

  /** `ComputeCache` with its session: `inputs` are the caches it reads, `inside` the INPUT leaves. */
  datatype Cache = Cache(
    inputs: seq<nat>,
    inside: set<nat>,
    pipeline: seq<Entry>,
    tensors: seq<Value>,
    contentDirty: bool,
    shapeDirty: bool)

  /** `unwritten` is the dirty flag of a leaf, `infoDirty` is `mInfoDirty`, `home` and `offset` are `mCache` and
      `mCacheOffset` of an expression, `to` lists its consumers. */
  datatype State = State(
    exprs: seq<Expr>,
    content: seq<Value>,
    unwritten: seq<bool>,
    infoDirty: seq<bool>,
    home: seq<Option<nat>>,
    offset: seq<nat>,
    to: seq<seq<nat>>,
    caches: seq<Cache>)

  ghost predicate Sized(s: State)
  {
    && |s.content| == |s.unwritten| == |s.infoDirty| == |s.home| == |s.offset| == |s.to| == |s.exprs|
    && GraphOk(s.exprs)
  }

  // --- Pipelines ---

  /** `ref` is where entry `j` finds variable `v`. */
  ghost predicate RefOk(s: State, cin: seq<nat>, inside: set<nat>, pipe: seq<Entry>, j: nat, ref: Ref, v: Var)
    requires Sized(s)
  {
    && v.expr < |s.exprs|
    && match ref
       case LeafRef(l) => v.expr == l && s.exprs[l].Leaf? && (s.exprs[l].isInput ==> l in inside)
       case CacheRef(c, slot) => c in cin && s.home[v.expr] == Some(c) && slot == s.offset[v.expr] + v.index
       case Local(k, i) => k < j && k < |pipe| && pipe[k].expr == v.expr && i == v.index
  }

  ghost predicate EntryOk(s: State, cin: seq<nat>, inside: set<nat>, pipe: seq<Entry>, j: nat)
    requires Sized(s) && j < |pipe|
  {
    var e := pipe[j];
    && e.expr < |s.exprs| && s.exprs[e.expr].Op?
    && s.exprs[e.expr].op == e.op && s.exprs[e.expr].outputs == e.outputs
    && |e.inputs| == |s.exprs[e.expr].inputs|
    && forall i :: 0 <= i < |e.inputs| ==> RefOk(s, cin, inside, pipe, j, e.inputs[i], s.exprs[e.expr].inputs[i])
  }

  /** Entries own disjoint ranges of slots. */
  ghost predicate SlotsOk(pipe: seq<Entry>, total: nat)
  {
    && (forall j :: 0 <= j < |pipe| ==> pipe[j].offset + pipe[j].outputs <= total)
    && (forall i, j :: 0 <= i < j < |pipe| ==> pipe[i].offset + pipe[i].outputs <= pipe[j].offset)
  }

  /** Every input of every entry is a leaf, a tensor of an input cache, or an output of an earlier entry. */
  ghost predicate PipeOk(s: State, cin: seq<nat>, inside: set<nat>, pipe: seq<Entry>, total: nat)
    requires Sized(s)
  {
    SlotsOk(pipe, total) && forall j :: 0 <= j < |pipe| ==> EntryOk(s, cin, inside, pipe, j)
  }

  // --- Caches ---

  /** Some expression that lives in cache `c` depends on `e`. */
  ghost predicate Rooted(s: State, c: nat, e: nat)
    requires Sized(s)
  {
    exists r :: 0 <= r < |s.exprs| && s.home[r] == Some(c) && DependsOn(s.exprs, r, e)
  }

  /** An entry is sound as long as some expression that lives in the cache needs it: a resize takes
      expressions out of their caches, and nothing is promised about what only they needed. */
  ghost predicate LiveEntryOk(s: State, c: nat, j: nat)
    requires Sized(s) && c < |s.caches| && j < |s.caches[c].pipeline|
  {
    var x := s.caches[c];
    Rooted(s, c, x.pipeline[j].expr) ==> EntryOk(s, x.inputs, x.inside, x.pipeline, j)
  }

  /** Only older caches are read, entries own their slots, and every entry that is needed is sound. */
  ghost predicate CacheOk(s: State, c: nat)
    requires Sized(s) && c < |s.caches|
  {
    var x := s.caches[c];
    && Below(x.inputs, c)
    && SlotsOk(x.pipeline, |x.tensors|)
    && (forall j :: 0 <= j < |x.pipeline| ==> LiveEntryOk(s, c, j))
    && (x.shapeDirty ==> x.contentDirty)
  }

  /** The entry an expression's offset points at. */
  ghost predicate HomeEntry(s: State, e: nat, c: nat, j: nat)
    requires Sized(s) && e < |s.exprs| && c < |s.caches|
  {
    && j < |s.caches[c].pipeline|
    && s.caches[c].pipeline[j].expr == e && s.caches[c].pipeline[j].offset == s.offset[e]
  }

  ghost predicate HomeOk(s: State, e: nat)
    requires Sized(s) && e < |s.exprs|
  {
    s.home[e].Some? ==>
      s.exprs[e].Op? && s.home[e].value < |s.caches| && exists j: nat :: HomeEntry(s, e, s.home[e].value, j)
  }

  /** What lives in a cache has its shape, and shapes are known from the leaves up. */
  ghost predicate InfoOk(s: State, e: nat)
    requires Sized(s) && e < |s.exprs|
  {
    && (s.home[e].Some? ==> !s.infoDirty[e])
    && (s.exprs[e].Leaf? ==> !s.infoDirty[e])
    && (!s.infoDirty[e] ==> forall i :: 0 <= i < |InputsOf(s.exprs[e])| ==> InfoClean(s, InputsOf(s.exprs[e])[i].expr))
  }

  ghost predicate InfoClean(s: State, e: nat)
    requires Sized(s)
  {
    e < |s.exprs| && !s.infoDirty[e]
  }

  ghost predicate Structure(s: State)
  {
    && Sized(s)
    && (forall c :: 0 <= c < |s.caches| ==> CacheOk(s, c))
    && (forall e :: 0 <= e < |s.exprs| ==> HomeOk(s, e))
    && (forall e :: 0 <= e < |s.exprs| ==> InfoOk(s, e))
    && LinksOk(s.exprs, s.to)
  }

  /** What an entry needs is needed by the expressions that need the entry. */
  lemma RootedInput(s: State, c: nat, e: nat, i: nat)
    requires Sized(s) && Rooted(s, c, e) && e < |s.exprs| && s.exprs[e].Op? && i < |s.exprs[e].inputs|
    ensures Rooted(s, c, s.exprs[e].inputs[i].expr)
  {
    var r :| 0 <= r < |s.exprs| && s.home[r] == Some(c) && DependsOn(s.exprs, r, e);
    DependsOnInput(s.exprs, e, i);
    DependsTrans(s.exprs, r, e, s.exprs[e].inputs[i].expr);
  }

  lemma RootedHome(s: State, c: nat, e: nat)
    requires Sized(s) && e < |s.exprs| && s.home[e] == Some(c)
    ensures Rooted(s, c, e)
  {
    assert DependsOn(s.exprs, e, e);
  }

  // --- Values ---

  ghost predicate EntryRight(sem: Semantics, s: State, e: Entry, tensors: seq<Value>)
    requires Sized(s)
  {
    && e.expr < |s.exprs| && e.offset + e.outputs <= |tensors|
    && forall k :: 0 <= k < e.outputs ==> tensors[e.offset + k] == Eval(sem, s.exprs, s.content, Var(e.expr, k))
  }

  /** The entry is right if anything that lives in the cache needs it. */
  ghost predicate LiveRight(sem: Semantics, s: State, c: nat, tensors: seq<Value>, j: nat)
    requires Sized(s) && c < |s.caches| && j < |s.caches[c].pipeline|
  {
    Rooted(s, c, s.caches[c].pipeline[j].expr) ==> EntryRight(sem, s, s.caches[c].pipeline[j], tensors)
  }

  /** The first `n` entries are. */
  ghost predicate RightUpTo(sem: Semantics, s: State, c: nat, tensors: seq<Value>, n: nat)
    requires Sized(s) && c < |s.caches| && n <= |s.caches[c].pipeline|
  {
    forall j :: 0 <= j < n ==> LiveRight(sem, s, c, tensors, j)
  }

  /** Every tensor of the cache that is needed holds what its expression evaluates to now. */
  ghost predicate Right(sem: Semantics, s: State, c: nat)
    requires Sized(s) && c < |s.caches|
  {
    RightUpTo(sem, s, c, s.caches[c].tensors, |s.caches[c].pipeline|)
  }

  /** A clean cache is never stale. */
  ghost predicate Coherent(sem: Semantics, s: State)
    requires Sized(s)
  {
    forall c :: 0 <= c < |s.caches| && !s.caches[c].contentDirty ==> Right(sem, s, c)
  }

  ghost predicate Inv(sem: Semantics, s: State)
  {
    Structure(s) && Coherent(sem, s)
  }

  // --- Changes that leave the structure alone ---

  /** Expressions live in the same places of caches that do the same. */
  ghost predicate SameLayout(s: State, s': State)
  {
    && s'.exprs == s.exprs && s'.home == s.home && s'.offset == s.offset && s'.to == s.to
    && |s'.content| == |s.content| && |s'.unwritten| == |s.unwritten| && |s'.infoDirty| == |s.infoDirty|
    && |s'.caches| == |s.caches|
    && forall c :: 0 <= c < |s.caches| ==> SameCache(s.caches[c], s'.caches[c])
  }

  /** Only contents, tensors and flags of leaves and caches may differ. */
  ghost predicate SameShape(s: State, s': State)
  {
    SameLayout(s, s') && s'.infoDirty == s.infoDirty
  }

  ghost predicate SameCache(x: Cache, x': Cache)
  {
    && x'.inputs == x.inputs && x'.inside == x.inside && x'.pipeline == x.pipeline && |x'.tensors| == |x.tensors|
    && (x'.shapeDirty ==> x'.contentDirty)
  }

  lemma LayoutKeeps(s: State, s': State)
    requires Structure(s) && SameLayout(s, s') && forall e :: 0 <= e < |s'.exprs| ==> InfoOk(s', e)
    ensures Structure(s')
  {
    forall c | 0 <= c < |s'.caches|
      ensures CacheOk(s', c)
    {
      CacheKept(s, s', c);
    }
    forall e: nat | e < |s'.exprs|
      ensures HomeOk(s', e)
    {
      assert HomeOk(s, e);
      if s.home[e].Some? {
        var j: nat :| HomeEntry(s, e, s.home[e].value, j);
        assert HomeEntry(s', e, s.home[e].value, j);
      }
    }
  }

  lemma SameShapeKeeps(s: State, s': State)
    requires Structure(s) && SameShape(s, s')
    ensures Structure(s')
  {
    forall e: nat | e < |s'.exprs|
      ensures InfoOk(s', e)
    {
      assert InfoOk(s, e);
      forall i | 0 <= i < |InputsOf(s.exprs[e])| && !s.infoDirty[e]
        ensures InfoClean(s', InputsOf(s.exprs[e])[i].expr)
      {
        assert InfoClean(s, InputsOf(s.exprs[e])[i].expr);
      }
    }
    LayoutKeeps(s, s');
  }

  lemma CacheKept(s: State, s': State, c: nat)
    requires Structure(s) && SameLayout(s, s') && c < |s.caches|
    ensures CacheOk(s', c)
  {
    var x, x' := s.caches[c], s'.caches[c];
    assert CacheOk(s, c) && SameCache(x, x');
    forall j: nat | j < |x.pipeline|
      ensures LiveEntryOk(s', c, j)
    {
      assert LiveEntryOk(s, c, j);
      if Rooted(s', c, x.pipeline[j].expr) {
        RootedSame(s', s, c, x.pipeline[j].expr);
        assert EntryOk(s', x.inputs, x.inside, x.pipeline, j);
      }
    }
  }

  lemma RootedSame(s: State, s': State, c: nat, e: nat)
    requires Sized(s) && Sized(s') && s'.exprs == s.exprs && s'.home == s.home && Rooted(s, c, e)
    ensures Rooted(s', c, e)
  {
    var r :| 0 <= r < |s.exprs| && s.home[r] == Some(c) && DependsOn(s.exprs, r, e);
    assert s'.home[r] == Some(c);
  }

  // --- Running a session ---

  function RefValue(sem: Semantics, s: State, pipe: seq<Entry>, tensors: seq<Value>, ref: Ref): Value
  {
    match ref
    case LeafRef(l) => if l < |s.content| then s.content[l] else sem.blank
    case CacheRef(c, slot) =>
      if c < |s.caches| && slot < |s.caches[c].tensors| then s.caches[c].tensors[slot] else sem.blank
    case Local(k, i) =>
      if k < |pipe| && pipe[k].offset + i < |tensors| then tensors[pipe[k].offset + i] else sem.blank
  }

  function RefValues(sem: Semantics, s: State, pipe: seq<Entry>, tensors: seq<Value>, refs: seq<Ref>): (r: seq<Value>)
    ensures |r| == |refs|
    ensures forall i :: 0 <= i < |refs| ==> r[i] == RefValue(sem, s, pipe, tensors, refs[i])
  {
    if refs == [] then []
    else
      RefValues(sem, s, pipe, tensors, refs[..|refs| - 1]) + [RefValue(sem, s, pipe, tensors, refs[|refs| - 1])]
  }

  /** The output slots of one entry filled in. */
  function WriteOut(sem: Semantics, e: Entry, args: seq<Value>, tensors: seq<Value>): (r: seq<Value>)
    ensures |r| == |tensors|
    ensures forall i :: 0 <= i < |tensors| ==>
              r[i] == if e.offset <= i < e.offset + e.outputs then sem.apply(e.op, args, i - e.offset) else tensors[i]
  {
    seq(|tensors|, i requires 0 <= i < |tensors| =>
      if e.offset <= i < e.offset + e.outputs then sem.apply(e.op, args, i - e.offset) else tensors[i])
  }

  /** The caches that cache `c` reads are clean. */
  ghost predicate InputsClean(s: State, c: nat)
    requires c < |s.caches|
  {
    forall k :: 0 <= k < |s.caches[c].inputs| ==>
      s.caches[c].inputs[k] < |s.caches| && !s.caches[s.caches[c].inputs[k]].contentDirty
  }

  /** A tensor read from a clean input cache is the value of the variable. */
  lemma CacheRefRight(sem: Semantics, s: State, c: nat, slot: nat, v: Var)
    requires Inv(sem, s) && c < |s.caches| && !s.caches[c].contentDirty
    requires VarOk(s.exprs, v, |s.exprs|) && s.home[v.expr] == Some(c) && slot == s.offset[v.expr] + v.index
    ensures slot < |s.caches[c].tensors| && s.caches[c].tensors[slot] == Eval(sem, s.exprs, s.content, v)
  {
    assert HomeOk(s, v.expr);
    var j: nat :| HomeEntry(s, v.expr, c, j);
    RootedHome(s, c, v.expr);
    assert CacheOk(s, c) && Right(sem, s, c);
    var e := s.caches[c].pipeline[j];
    assert LiveEntryOk(s, c, j);
    assert LiveRight(sem, s, c, s.caches[c].tensors, j);
    assert s.caches[c].tensors[e.offset + v.index] == Eval(sem, s.exprs, s.content, Var(e.expr, v.index));
  }

  /** Entry `j` is needed, and the needed entries before it are right. */
  ghost predicate Running(sem: Semantics, s: State, c: nat, tensors: seq<Value>, j: nat)
    requires Sized(s)
  {
    && c < |s.caches| && InputsClean(s, c) && j < |s.caches[c].pipeline|
    && Rooted(s, c, s.caches[c].pipeline[j].expr) && RightUpTo(sem, s, c, tensors, j)
  }

  lemma RefRight(sem: Semantics, s: State, c: nat, tensors: seq<Value>, j: nat, ref: Ref, v: Var)
    requires Inv(sem, s) && Running(sem, s, c, tensors, j) && VarOk(s.exprs, v, |s.exprs|) && Rooted(s, c, v.expr)
    requires RefOk(s, s.caches[c].inputs, s.caches[c].inside, s.caches[c].pipeline, j, ref, v)
    ensures RefValue(sem, s, s.caches[c].pipeline, tensors, ref) == Eval(sem, s.exprs, s.content, v)
  {
    match ref
    case LeafRef(l) =>
    case CacheRef(c', slot) =>
      var k :| 0 <= k < |s.caches[c].inputs| && s.caches[c].inputs[k] == c';
      CacheRefRight(sem, s, c', slot, v);
    case Local(k, i) =>
      assert CacheOk(s, c);
      var e := s.caches[c].pipeline[k];
      assert LiveEntryOk(s, c, k);
      assert LiveRight(sem, s, c, tensors, k);
      assert tensors[e.offset + i] == Eval(sem, s.exprs, s.content, Var(e.expr, i));
  }

  /** The arguments of an entry are the values of its expression's inputs. */
  lemma ArgsRight(sem: Semantics, s: State, c: nat, tensors: seq<Value>, j: nat)
    requires Inv(sem, s) && Running(sem, s, c, tensors, j)
    ensures var e := s.caches[c].pipeline[j];
            && e.expr < |s.exprs| && s.exprs[e.expr].Op? && s.exprs[e.expr].op == e.op
            && RefValues(sem, s, s.caches[c].pipeline, tensors, e.inputs) ==
               InputValues(sem, s.exprs, s.content, e.expr, |s.exprs[e.expr].inputs|)
  {
    assert CacheOk(s, c);
    var pipe := s.caches[c].pipeline;
    var e := pipe[j];
    assert LiveEntryOk(s, c, j);
    assert ExprOk(s.exprs, e.expr);
    var a := RefValues(sem, s, pipe, tensors, e.inputs);
    var b := InputValues(sem, s.exprs, s.content, e.expr, |s.exprs[e.expr].inputs|);
    forall i | 0 <= i < |a|
      ensures a[i] == b[i]
    {
      RootedInput(s, c, e.expr, i);
      RefRight(sem, s, c, tensors, j, e.inputs[i], s.exprs[e.expr].inputs[i]);
    }
  }

  /** An entry that runs writes only its own slots. */
  lemma EarlierStays(sem: Semantics, s: State, c: nat, tensors: seq<Value>, j: nat, args: seq<Value>, k: nat)
    requires Inv(sem, s) && c < |s.caches| && k < j < |s.caches[c].pipeline| && |tensors| == |s.caches[c].tensors|
    requires LiveRight(sem, s, c, tensors, k)
    ensures LiveRight(sem, s, c, WriteOut(sem, s.caches[c].pipeline[j], args, tensors), k)
  {
    assert CacheOk(s, c);
    assert s.caches[c].pipeline[k].offset + s.caches[c].pipeline[k].outputs <= s.caches[c].pipeline[j].offset;
  }

  /** Running entry `j` makes it right if it is needed, and leaves the earlier ones right. */
  lemma EntryRuns(sem: Semantics, s: State, c: nat, tensors: seq<Value>, j: nat)
    requires Inv(sem, s) && c < |s.caches| && InputsClean(s, c) && |tensors| == |s.caches[c].tensors|
    requires j < |s.caches[c].pipeline| && RightUpTo(sem, s, c, tensors, j)
    ensures var args := RefValues(sem, s, s.caches[c].pipeline, tensors, s.caches[c].pipeline[j].inputs);
            RightUpTo(sem, s, c, WriteOut(sem, s.caches[c].pipeline[j], args, tensors), j + 1)
  {
    var e := s.caches[c].pipeline[j];
    var args := RefValues(sem, s, s.caches[c].pipeline, tensors, e.inputs);
    var after := WriteOut(sem, e, args, tensors);
    assert CacheOk(s, c);
    forall k: nat | k <= j
      ensures LiveRight(sem, s, c, after, k)
    {
      if k < j {
        assert LiveRight(sem, s, c, tensors, k);
        EarlierStays(sem, s, c, tensors, j, args, k);
      } else if Rooted(s, c, e.expr) {
        ArgsRight(sem, s, c, tensors, j);
        assert EntryRight(sem, s, e, after);
      }
    }
  }

  /** A session that has run to the end with clean inputs may be marked clean. */
  lemma RunKeeps(sem: Semantics, s: State, c: nat, tensors: seq<Value>)
    requires Inv(sem, s) && c < |s.caches| && |tensors| == |s.caches[c].tensors| && !s.caches[c].shapeDirty
    requires RightUpTo(sem, s, c, tensors, |s.caches[c].pipeline|)
    ensures var s' := s.(caches := s.caches[c := s.caches[c].(tensors := tensors, contentDirty := false)]);
            Inv(sem, s') && SameShape(s, s')
  {
    var s' := s.(caches := s.caches[c := s.caches[c].(tensors := tensors, contentDirty := false)]);
    forall d | 0 <= d < |s.caches|
      ensures SameCache(s.caches[d], s'.caches[d])
    {
      assert CacheOk(s, d);
    }
    SameShapeKeeps(s, s');
    CoherentKept(sem, s, s', c);
  }

  /** What was right stays right while only tensors of other caches change. */
  lemma RightStays(sem: Semantics, s: State, s': State, c: nat, tensors: seq<Value>, n: nat)
    requires Sized(s) && Sized(s') && SameLayout(s, s') && s'.content == s.content
    requires c < |s.caches| && n <= |s.caches[c].pipeline| && RightUpTo(sem, s, c, tensors, n)
    ensures |s'.caches[c].pipeline| == |s.caches[c].pipeline| && RightUpTo(sem, s', c, tensors, n)
  {
    assert SameCache(s.caches[c], s'.caches[c]);
    forall j | 0 <= j < n
      ensures LiveRight(sem, s', c, tensors, j)
    {
      assert LiveRight(sem, s, c, tensors, j);
      if Rooted(s', c, s.caches[c].pipeline[j].expr) {
        RootedSame(s', s, c, s.caches[c].pipeline[j].expr);
      }
    }
  }

  lemma CoherentKept(sem: Semantics, s: State, s': State, c: nat)
    requires Inv(sem, s) && SameShape(s, s') && Sized(s') && c < |s.caches| && s'.content == s.content
    requires forall d :: 0 <= d < |s.caches| && d != c ==> s'.caches[d] == s.caches[d]
    requires RightUpTo(sem, s, c, s'.caches[c].tensors, |s.caches[c].pipeline|)
    ensures Coherent(sem, s')
  {
    forall d: nat | d < |s'.caches| && !s'.caches[d].contentDirty
      ensures Right(sem, s', d)
    {
      assert d != c ==> Right(sem, s, d);
      RightStays(sem, s, s', d, s'.caches[d].tensors, |s.caches[d].pipeline|);
    }
  }

  // --- Writing a leaf ---

  /** The caches in which an expression of `dirty` lives become dirty. */
  function MarkAll(s: State, dirty: set<nat>): (r: seq<Cache>)
    ensures |r| == |s.caches|
    ensures forall c :: 0 <= c < |r| ==>
              r[c] == if LivesIn(s, dirty, c) then s.caches[c].(contentDirty := true) else s.caches[c]
  {
    seq(|s.caches|, c requires 0 <= c < |s.caches| =>
      if LivesIn(s, dirty, c) then s.caches[c].(contentDirty := true) else s.caches[c])
  }

  predicate LivesIn(s: State, dirty: set<nat>, c: nat)
  {
    exists e :: e in dirty && e < |s.home| && s.home[e] == Some(c)
  }

  /** `dirty` holds all consumers of `l`, direct or not. */
  ghost predicate AllConsumers(s: State, dirty: set<nat>, l: nat)
    requires Sized(s)
  {
    forall e: nat :: e < |s.exprs| ==> (e in dirty <==> e != l && DependsOn(s.exprs, e, l))
  }

  function Written(s: State, l: nat, x: Value, dirty: set<nat>): State
    requires l < |s.content| && l < |s.unwritten|
  {
    s.(content := s.content[l := x], unwritten := s.unwritten[l := false], caches := MarkAll(s, dirty))
  }

  lemma WriteKeeps(sem: Semantics, s: State, l: nat, x: Value, dirty: set<nat>)
    requires Inv(sem, s) && l < |s.exprs| && s.exprs[l].Leaf? && AllConsumers(s, dirty, l)
    ensures Inv(sem, Written(s, l, x, dirty))
  {
    var s' := Written(s, l, x, dirty);
    forall d | 0 <= d < |s.caches|
      ensures SameCache(s.caches[d], s'.caches[d])
    {
      assert CacheOk(s, d);
    }
    SameShapeKeeps(s, s');
    forall c: nat | c < |s'.caches| && !s'.caches[c].contentDirty
      ensures Right(sem, s', c)
    {
      forall j: nat | j < |s'.caches[c].pipeline|
        ensures LiveRight(sem, s', c, s'.caches[c].tensors, j)
      {
        UntouchedEntry(sem, s, l, x, dirty, c, j);
      }
    }
  }

  /** An entry of a cache that stays clean does not depend on the written leaf. */
  lemma UntouchedEntry(sem: Semantics, s: State, l: nat, x: Value, dirty: set<nat>, c: nat, j: nat)
    requires Inv(sem, s) && l < |s.exprs| && s.exprs[l].Leaf? && AllConsumers(s, dirty, l)
    requires c < |s.caches| && !s.caches[c].contentDirty && !LivesIn(s, dirty, c) && j < |s.caches[c].pipeline|
    ensures LiveRight(sem, Written(s, l, x, dirty), c, s.caches[c].tensors, j)
  {
    var e := s.caches[c].pipeline[j];
    var s' := Written(s, l, x, dirty);
    assert Right(sem, s, c);
    assert LiveRight(sem, s, c, s.caches[c].tensors, j);
    if Rooted(s', c, e.expr) {
      RootedSame(s', s, c, e.expr);
      var r: nat :| r < |s.exprs| && s.home[r] == Some(c) && DependsOn(s.exprs, r, e.expr);
      assert HomeOk(s, r);
      if DependsOn(s.exprs, e.expr, l) {
        DependsTrans(s.exprs, r, e.expr, l);
      } else {
        EntryUnaffected(sem, s, l, x, e, s.caches[c].tensors);
      }
    }
  }

  /** New content in a leaf leaves every entry right that does not depend on it. */
  lemma EntryUnaffected(sem: Semantics, s: State, l: nat, x: Value, e: Entry, tensors: seq<Value>)
    requires Sized(s) && l < |s.exprs| && EntryRight(sem, s, e, tensors) && !DependsOn(s.exprs, e.expr, l)
    ensures EntryRight(sem, s.(content := s.content[l := x]), e, tensors)
  {
    forall k: nat | k < e.outputs
      ensures tensors[e.offset + k] == Eval(sem, s.exprs, s.content[l := x], Var(e.expr, k))
    {
      EvalUnaffected(sem, s.exprs, s.content, l, x, Var(e.expr, k));
    }
  }
}
