/** `Variable::save` and `Variable::load`: the index assignment of a saved net and the graph rebuilt from it. */
module SaveLoad {
  import opened Wrappers
  import opened Sequences
  import opened ExprGraph
  import opened ExecuteOrder

  /** A constant carries its content, an INPUT only its description; other payloads are opaque. */
  datatype Payload = InputOp | ConstOp(blob: Value) | OtherOp(op: nat)

  datatype SavedOp = SavedOp(payload: Payload, inputIndexes: seq<int>, outputIndexes: seq<int>)

  datatype Net = Net(oplists: seq<SavedOp>, tensorCount: nat)

  // --- Saving ---

  /** The first tensor index of the expression at position `i` of the order. */
  function Offset(exprs: seq<Expr>, order: seq<nat>, i: nat): nat
    requires i <= |order| && Inside(exprs, order)
  {
    if i == 0 then 0 else Offset(exprs, order, i - 1) + Outputs(exprs[order[i - 1]])
  }

  predicate Inside(exprs: seq<Expr>, order: seq<nat>)
  {
    forall i :: 0 <= i < |order| ==> order[i] < |exprs|
  }

  function PayloadOf(exprs: seq<Expr>, content: seq<Value>, e: nat): Payload
    requires e < |exprs| == |content|
  {
    match exprs[e]
    case Leaf(isInput) => if isInput then InputOp else ConstOp(content[e])
    case Op(op, _, _) => OtherOp(op)
  }

  /** `index` is the tensor index of `v`: the offset of its expression plus its output number. */
  ghost predicate IndexOf(exprs: seq<Expr>, order: seq<nat>, v: Var, index: int)
    requires Inside(exprs, order)
  {
    exists p: nat :: p < |order| && order[p] == v.expr && index == Offset(exprs, order, p) + v.index
  }

  ghost predicate SavedAt(exprs: seq<Expr>, content: seq<Value>, order: seq<nat>, i: nat, s: SavedOp)
    requires Inside(exprs, order) && i < |order| && |content| == |exprs|
  {
    var e := order[i];
    && s.payload == PayloadOf(exprs, content, e)
    && |s.inputIndexes| == |InputsOf(exprs[e])|
    && (forall k :: 0 <= k < |s.inputIndexes| ==> IndexOf(exprs, order, InputsOf(exprs[e])[k], s.inputIndexes[k]))
    && |s.outputIndexes| == Outputs(exprs[e])
    && (forall k :: 0 <= k < |s.outputIndexes| ==> s.outputIndexes[k] == Offset(exprs, order, i) + k)
  }

  ghost predicate SavedFrom(exprs: seq<Expr>, content: seq<Value>, order: seq<nat>, net: Net)
    requires |content| == |exprs|
  {
    && Inside(exprs, order) && |net.oplists| == |order| && net.tensorCount == Offset(exprs, order, |order|)
    && forall i :: 0 <= i < |order| ==> SavedAt(exprs, content, order, i, net.oplists[i])
  }

  /** The offset of the expression at position `p` is recorded. */
  ghost predicate InfoAt(exprs: seq<Expr>, order: seq<nat>, info: map<nat, nat>, p: nat)
    requires Inside(exprs, order) && p < |order|
  {
    order[p] in info && info[order[p]] == Offset(exprs, order, p)
  }

  ghost predicate InfoOk(exprs: seq<Expr>, order: seq<nat>, info: map<nat, nat>, n: nat)
    requires Inside(exprs, order) && n <= |order|
  {
    forall p :: 0 <= p < n ==> InfoAt(exprs, order, info, p)
  }

  lemma InfoGrows(exprs: seq<Expr>, order: seq<nat>, info: map<nat, nat>, i: nat)
    requires Inside(exprs, order) && NoDup(order) && i < |order| && InfoOk(exprs, order, info, i)
    ensures InfoOk(exprs, order, info[order[i] := Offset(exprs, order, i)], i + 1)
  {
    var info' := info[order[i] := Offset(exprs, order, i)];
    forall p | 0 <= p < i + 1
      ensures InfoAt(exprs, order, info', p)
    {
      if p < i {
        assert InfoAt(exprs, order, info, p) && order[p] != order[i];
      }
    }
  }

  /** The map from expressions to tensor offsets. */
  method AssignOffsets(exprs: seq<Expr>, order: seq<nat>) returns (info: map<nat, nat>, total: nat)
    requires Inside(exprs, order) && NoDup(order)
    ensures InfoOk(exprs, order, info, |order|)
    ensures total == Offset(exprs, order, |order|)
  {
    info, total := map[], 0;
    for i := 0 to |order|
      invariant InfoOk(exprs, order, info, i)
      invariant total == Offset(exprs, order, i)
    {
      InfoGrows(exprs, order, info, i);
      info, total := info[order[i] := total], total + Outputs(exprs[order[i]]);
    }
  }

  method SaveOp(exprs: seq<Expr>, content: seq<Value>, order: seq<nat>, info: map<nat, nat>, i: nat)
    returns (s: SavedOp)
    requires Inside(exprs, order) && i < |order| && |content| == |exprs|
    requires InfoOk(exprs, order, info, |order|)
    requires InputsIn(exprs, order[i], order)
    ensures SavedAt(exprs, content, order, i, s)
  {
    var e := order[i];
    var inputs := InputsOf(exprs[e]);
    assert InfoAt(exprs, order, info, i);
    var ins: seq<int> := [];
    for k := 0 to |inputs|
      invariant |ins| == k
      invariant forall j :: 0 <= j < k ==> IndexOf(exprs, order, inputs[j], ins[j])
    {
      ghost var p: nat :| p < |order| && order[p] == inputs[k].expr;
      assert InfoAt(exprs, order, info, p);
      ins := ins + [info[inputs[k].expr] + inputs[k].index];
      assert IndexOf(exprs, order, inputs[k], ins[k]);
    }
    var outs: seq<int> := [];
    for v := 0 to Outputs(exprs[e])
      invariant |outs| == v && forall j :: 0 <= j < v ==> outs[j] == Offset(exprs, order, i) + j
    {
      outs := outs + [info[e] + v];
    }
    s := SavedOp(PayloadOf(exprs, content, e), ins, outs);
  }

  lemma InputsSomewhere(exprs: seq<Expr>, order: seq<nat>, i: nat)
    requires InputsFirst(exprs, order) && i < |order|
    ensures InputsIn(exprs, order[i], order)
  {
    assert InputsIn(exprs, order[i], order[..i]);
  }

  method Save(exprs: seq<Expr>, content: seq<Value>, order: seq<nat>) returns (net: Net)
    requires |content| == |exprs| && Inside(exprs, order) && NoDup(order) && InputsFirst(exprs, order)
    ensures SavedFrom(exprs, content, order, net)
  {
    var info, total := AssignOffsets(exprs, order);
    var ops: seq<SavedOp> := [];
    for i := 0 to |order|
      invariant |ops| == i && forall j :: 0 <= j < i ==> SavedAt(exprs, content, order, j, ops[j])
    {
      InputsSomewhere(exprs, order, i);
      var s := SaveOp(exprs, content, order, info, i);
      ops := ops + [s];
    }
    net := Net(ops, total);
  }

  // --- Saved indices are a partition ---

  lemma {:induction false} OffsetGrows(exprs: seq<Expr>, order: seq<nat>, i: nat, j: nat)
    requires Inside(exprs, order) && i < j <= |order|
    ensures Offset(exprs, order, i) + Outputs(exprs[order[i]]) <= Offset(exprs, order, j)
    decreases j
  {
    if i < j - 1 {
      OffsetGrows(exprs, order, i, j - 1);
    }
  }

  /** Tensor `t` is output `k` of the op at position `i`. */
  ghost predicate IsOutput(net: Net, t: int, i: nat, k: nat)
  {
    i < |net.oplists| && k < |net.oplists[i].outputIndexes| && net.oplists[i].outputIndexes[k] == t
  }

  ghost predicate Produced(net: Net, t: int)
  {
    exists i: nat, k: nat :: IsOutput(net, t, i, k)
  }

  lemma {:induction false} FindOutput(exprs: seq<Expr>, order: seq<nat>, t: nat, n: nat) returns (i: nat, k: nat)
    requires Inside(exprs, order) && n <= |order| && t < Offset(exprs, order, n)
    ensures i < n && k < Outputs(exprs[order[i]]) && t == Offset(exprs, order, i) + k
    decreases n
  {
    if t < Offset(exprs, order, n - 1) {
      i, k := FindOutput(exprs, order, t, n - 1);
    } else {
      i, k := n - 1, t - Offset(exprs, order, n - 1);
    }
  }

  lemma OffsetUnique(exprs: seq<Expr>, order: seq<nat>, i: nat, k: nat, j: nat, l: nat)
    requires Inside(exprs, order) && i < |order| && j < |order|
    requires k < Outputs(exprs[order[i]]) && l < Outputs(exprs[order[j]])
    requires Offset(exprs, order, i) + k == Offset(exprs, order, j) + l
    ensures i == j && k == l
  {
    if i < j {
      OffsetGrows(exprs, order, i, j);
    } else if j < i {
      OffsetGrows(exprs, order, j, i);
    }
  }

  /** Every tensor index below the count is an output of exactly one op, and no other index is. */
  lemma IndicesPartition(exprs: seq<Expr>, content: seq<Value>, order: seq<nat>, net: Net)
    requires |content| == |exprs| && SavedFrom(exprs, content, order, net)
    ensures forall t: int :: Produced(net, t) <==> 0 <= t < net.tensorCount
    ensures forall t: int, i: nat, k: nat, j: nat, l: nat ::
              IsOutput(net, t, i, k) && IsOutput(net, t, j, l) ==> i == j && k == l
  {
    forall t: int
      ensures Produced(net, t) <==> 0 <= t < net.tensorCount
    {
      if 0 <= t < net.tensorCount {
        var i, k := FindOutput(exprs, order, t, |order|);
        assert SavedAt(exprs, content, order, i, net.oplists[i]);
        assert IsOutput(net, t, i, k);
      }
      if Produced(net, t) {
        var i: nat, k: nat :| IsOutput(net, t, i, k);
        assert SavedAt(exprs, content, order, i, net.oplists[i]);
        OffsetGrows(exprs, order, i, |order|);
      }
    }
    forall t: int, i: nat, k: nat, j: nat, l: nat | IsOutput(net, t, i, k) && IsOutput(net, t, j, l)
      ensures i == j && k == l
    {
      assert SavedAt(exprs, content, order, i, net.oplists[i]) && SavedAt(exprs, content, order, j, net.oplists[j]);
      OffsetUnique(exprs, order, i, k, j, l);
    }
  }

  // --- Loading ---

  /** The graph being rebuilt: `known` is the variable map, `list` the variables in order of creation, and
      `missing` tells that an input index was not found. */
  datatype Loaded = Loaded(
    exprs: seq<Expr>,
    content: seq<Value>,
    known: map<int, Var>,
    list: seq<Var>,
    missing: bool)

  /** The variables of the leading indexes that are known. */
  function Resolve(known: map<int, Var>, indexes: seq<int>): seq<Var>
  {
    if indexes == [] || indexes[0] !in known then [] else [known[indexes[0]]] + Resolve(known, indexes[1..])
  }

  function Create(sem: Semantics, s: SavedOp, inputs: seq<Var>): (Expr, Value)
  {
    match s.payload
    case InputOp => (Leaf(true), sem.blank)
    case ConstOp(blob) => (Leaf(false), blob)
    case OtherOp(op) => (Op(op, inputs, |s.outputIndexes|), sem.blank)
  }

  /** The first `k` outputs of expression `e` entered in the map, unless their index is taken. */
  function AddOutputs(
    known: map<int, Var>, list: seq<Var>, e: nat, indexes: seq<int>, k: nat): (map<int, Var>, seq<Var>)
    requires k <= |indexes|
  {
    if k == 0 then (known, list)
    else
      var r := AddOutputs(known, list, e, indexes, k - 1);
      if indexes[k - 1] in r.0 then r else (r.0[indexes[k - 1] := Var(e, k - 1)], r.1 + [Var(e, k - 1)])
  }

  function LoadOp(sem: Semantics, g: Loaded, s: SavedOp): Loaded
  {
    var inputs := Resolve(g.known, s.inputIndexes);
    var made := Create(sem, s, inputs);
    var r := AddOutputs(g.known, g.list, |g.exprs|, s.outputIndexes, |s.outputIndexes|);
    Loaded(g.exprs + [made.0], g.content + [made.1], r.0, r.1, g.missing || |inputs| < |s.inputIndexes|)
  }

  function LoadOps(sem: Semantics, ops: seq<SavedOp>): Loaded
  {
    if ops == [] then Loaded([], [], map[], [], false)
    else LoadOp(sem, LoadOps(sem, ops[..|ops| - 1]), ops[|ops| - 1])
  }

  method ResolveInputs(known: map<int, Var>, indexes: seq<int>) returns (inputs: seq<Var>)
    ensures inputs == Resolve(known, indexes)
  {
    inputs := [];
    var k := 0;
    while k < |indexes| && indexes[k] in known
      invariant k <= |indexes| && inputs + Resolve(known, indexes[k..]) == Resolve(known, indexes)
    {
      assert indexes[k..][1..] == indexes[k + 1..];
      inputs, k := inputs + [known[indexes[k]]], k + 1;
    }
    assert Resolve(known, indexes[k..]) == [];
  }

  /** `Variable::load`. */
  method Load(sem: Semantics, net: Net) returns (g: Loaded)
    ensures g == LoadOps(sem, net.oplists)
  {
    g := Loaded([], [], map[], [], false);
    for i := 0 to |net.oplists|
      invariant g == LoadOps(sem, net.oplists[..i])
    {
      var s := net.oplists[i];
      var inputs := ResolveInputs(g.known, s.inputIndexes);
      var made := Create(sem, s, inputs);
      var known, list := g.known, g.list;
      for k := 0 to |s.outputIndexes|
        invariant (known, list) == AddOutputs(g.known, g.list, |g.exprs|, s.outputIndexes, k)
      {
        if s.outputIndexes[k] !in known {
          known, list := known[s.outputIndexes[k] := Var(|g.exprs|, k)], list + [Var(|g.exprs|, k)];
        }
      }
      assert net.oplists[..i + 1][..i] == net.oplists[..i];
      g := Loaded(g.exprs + [made.0], g.content + [made.1], known, list,
                  g.missing || |inputs| < |s.inputIndexes|);
    }
    assert net.oplists[..|net.oplists|] == net.oplists;
  }

  // --- The round trip ---

  /** `e'` is the expression at position `i` of the order with its inputs renamed to positions. */
  ghost predicate Renamed(exprs: seq<Expr>, order: seq<nat>, i: nat, e': Expr)
    requires Inside(exprs, order) && i < |order|
  {
    match exprs[order[i]]
    case Leaf(isInput) => e' == Leaf(isInput)
    case Op(op, inputs, n) =>
      && e'.Op? && e'.op == op && e'.outputs == n && |e'.inputs| == |inputs|
      && forall k :: 0 <= k < |inputs| ==> RenamedVar(order, i, inputs[k], e'.inputs[k])
  }

  ghost predicate RenamedVar(order: seq<nat>, i: nat, v: Var, v': Var)
  {
    v'.expr < i && v'.expr < |order| && order[v'.expr] == v.expr && v'.index == v.index
  }

  /** The variable map after the ops before position `i`. */
  ghost predicate KnownOk(exprs: seq<Expr>, order: seq<nat>, i: nat, known: map<int, Var>)
    requires Inside(exprs, order) && i <= |order|
  {
    && (forall t: int :: t in known <==> 0 <= t < Offset(exprs, order, i))
    && forall p: nat, k: nat :: p < i && k < Outputs(exprs[order[p]]) ==> KnownAt(exprs, order, known, p, k)
  }

  /** Output `k` of the op at position `p` is in the map. */
  ghost predicate KnownAt(exprs: seq<Expr>, order: seq<nat>, known: map<int, Var>, p: nat, k: nat)
    requires Inside(exprs, order) && p < |order|
  {
    Offset(exprs, order, p) + k in known && known[Offset(exprs, order, p) + k] == Var(p, k)
  }

  /** The first `i` ops have been rebuilt. */
  ghost predicate Rebuilt(exprs: seq<Expr>, content: seq<Value>, order: seq<nat>, i: nat, g: Loaded)
    requires Inside(exprs, order) && i <= |order| && |content| == |exprs|
  {
    && !g.missing
    && GraphRebuilt(exprs, content, order, i, g.exprs, g.content)
    && VarsRebuilt(exprs, order, i, g.known, g.list)
  }

  ghost predicate GraphRebuilt(
    exprs: seq<Expr>, content: seq<Value>, order: seq<nat>, i: nat, exprs': seq<Expr>, content': seq<Value>)
    requires Inside(exprs, order) && i <= |order| && |content| == |exprs|
  {
    && |exprs'| == |content'| == i
    && (forall p :: 0 <= p < i ==> Renamed(exprs, order, p, exprs'[p]))
    && (forall p :: 0 <= p < i && exprs[order[p]] == Leaf(false) ==> content'[p] == content[order[p]])
  }

  /** The variables are listed in the order of their indices. */
  ghost predicate VarsRebuilt(exprs: seq<Expr>, order: seq<nat>, i: nat, known: map<int, Var>, list: seq<Var>)
    requires Inside(exprs, order) && i <= |order|
  {
    && KnownOk(exprs, order, i, known) && |list| == Offset(exprs, order, i)
    && forall t :: 0 <= t < |list| ==> t in known && list[t] == known[t]
  }

  /** Two positions cannot share an expression. */
  lemma PositionBefore(exprs: seq<Expr>, order: seq<nat>, i: nat, x: nat, p: nat)
    requires NoDup(order) && i <= |order| && x in order[..i] && p < |order| && order[p] == x
    ensures p < i
  {
    var q :| 0 <= q < i && order[..i][q] == x;
    assert order[q] == x;
  }

  /** An input index is known and leads to the renamed variable. */
  lemma InputResolves(exprs: seq<Expr>, order: seq<nat>, i: nat, v: Var, index: int, known: map<int, Var>)
    requires Inside(exprs, order) && NoDup(order) && i < |order| && KnownOk(exprs, order, i, known)
    requires VarOk(exprs, v, |exprs|) && v.expr in order[..i] && IndexOf(exprs, order, v, index)
    ensures index in known && RenamedVar(order, i, v, known[index])
  {
    var p: nat :| p < |order| && order[p] == v.expr && index == Offset(exprs, order, p) + v.index;
    PositionBefore(exprs, order, i, v.expr, p);
    assert KnownAt(exprs, order, known, p, v.index);
  }

  lemma {:induction false} ResolveAll(known: map<int, Var>, indexes: seq<int>)
    requires forall k :: 0 <= k < |indexes| ==> indexes[k] in known
    ensures |Resolve(known, indexes)| == |indexes|
    ensures forall k :: 0 <= k < |indexes| ==> Resolve(known, indexes)[k] == known[indexes[k]]
    decreases |indexes|
  {
    if indexes != [] {
      ResolveAll(known, indexes[1..]);
      forall k | 0 <= k < |indexes|
        ensures Resolve(known, indexes)[k] == known[indexes[k]]
      {
        if k > 0 {
          assert indexes[k] == indexes[1..][k - 1];
        }
      }
    }
  }

  /** Fresh consecutive indexes are all entered. */
  lemma {:induction false} AddFresh(known: map<int, Var>, list: seq<Var>, e: nat, indexes: seq<int>, k: nat, base: nat)
    requires k <= |indexes| && forall j :: 0 <= j < |indexes| ==> indexes[j] == base + j
    requires forall t: int :: t in known <==> 0 <= t < base
    ensures var r := AddOutputs(known, list, e, indexes, k);
            && (forall t: int :: t in r.0 <==> 0 <= t < base + k)
            && (forall t :: 0 <= t < base ==> r.0[t] == known[t])
            && (forall j :: 0 <= j < k ==> r.0[base + j] == Var(e, j))
            && |r.1| == |list| + k && r.1[..|list|] == list
            && (forall j :: 0 <= j < k ==> r.1[|list| + j] == Var(e, j))
    decreases k
  {
    if k > 0 {
      AddFresh(known, list, e, indexes, k - 1, base);
    }
  }

  lemma ExprRebuilt(sem: Semantics, exprs: seq<Expr>, content: seq<Value>, order: seq<nat>, i: nat, g: Loaded,
                    s: SavedOp)
    requires GraphOk(exprs) && |content| == |exprs| && Inside(exprs, order) && NoDup(order)
             && InputsFirst(exprs, order)
    requires i < |order| && KnownOk(exprs, order, i, g.known) && SavedAt(exprs, content, order, i, s)
    ensures var inputs := Resolve(g.known, s.inputIndexes);
            && |inputs| == |s.inputIndexes| && Renamed(exprs, order, i, Create(sem, s, inputs).0)
            && (exprs[order[i]] == Leaf(false) ==> Create(sem, s, inputs).1 == content[order[i]])
  {
    var e := order[i];
    assert InputsIn(exprs, e, order[..i]);
    assert ExprOk(exprs, e);
    forall k | 0 <= k < |s.inputIndexes|
      ensures s.inputIndexes[k] in g.known && RenamedVar(order, i, InputsOf(exprs[e])[k], g.known[s.inputIndexes[k]])
    {
      assert VarOk(exprs, InputsOf(exprs[e])[k], e);
      InputResolves(exprs, order, i, InputsOf(exprs[e])[k], s.inputIndexes[k], g.known);
    }
    ResolveAll(g.known, s.inputIndexes);
  }

  lemma MapRebuilt(exprs: seq<Expr>, order: seq<nat>, i: nat, known: map<int, Var>, list: seq<Var>, indexes: seq<int>)
    requires Inside(exprs, order) && i < |order| && VarsRebuilt(exprs, order, i, known, list)
    requires |indexes| == Outputs(exprs[order[i]])
    requires forall k :: 0 <= k < |indexes| ==> indexes[k] == Offset(exprs, order, i) + k
    ensures var r := AddOutputs(known, list, i, indexes, |indexes|);
            VarsRebuilt(exprs, order, i + 1, r.0, r.1)
  {
    var base := Offset(exprs, order, i);
    AddFresh(known, list, i, indexes, |indexes|, base);
    var r := AddOutputs(known, list, i, indexes, |indexes|);
    forall p: nat, k: nat | p < i + 1 && k < Outputs(exprs[order[p]])
      ensures KnownAt(exprs, order, r.0, p, k)
    {
      if p < i {
        OffsetGrows(exprs, order, p, i);
        assert KnownAt(exprs, order, known, p, k);
      }
    }
    forall t | 0 <= t < |r.1|
      ensures t in r.0 && r.1[t] == r.0[t]
    {
      if t < base {
        assert r.1[..|list|][t] == list[t];
      } else {
        assert r.1[|list| + (t - base)] == Var(i, t - base) == r.0[base + (t - base)];
      }
    }
  }

  lemma GraphGrows(
    exprs: seq<Expr>, content: seq<Value>, order: seq<nat>, i: nat, exprs': seq<Expr>, content': seq<Value>, e: Expr,
    x: Value)
    requires Inside(exprs, order) && i < |order| && |content| == |exprs|
    requires GraphRebuilt(exprs, content, order, i, exprs', content')
    requires Renamed(exprs, order, i, e) && (exprs[order[i]] == Leaf(false) ==> x == content[order[i]])
    ensures GraphRebuilt(exprs, content, order, i + 1, exprs' + [e], content' + [x])
  {
    forall p | 0 <= p < i + 1
      ensures Renamed(exprs, order, p, (exprs' + [e])[p])
    {
      if p < i {
        assert Renamed(exprs, order, p, exprs'[p]);
      }
    }
  }

  lemma OpRebuilt(sem: Semantics, exprs: seq<Expr>, content: seq<Value>, order: seq<nat>, i: nat, g: Loaded, s: SavedOp)
    requires GraphOk(exprs) && |content| == |exprs| && Inside(exprs, order) && NoDup(order)
             && InputsFirst(exprs, order)
    requires i < |order| && Rebuilt(exprs, content, order, i, g) && SavedAt(exprs, content, order, i, s)
    ensures Rebuilt(exprs, content, order, i + 1, LoadOp(sem, g, s))
  {
    ExprRebuilt(sem, exprs, content, order, i, g, s);
    MapRebuilt(exprs, order, i, g.known, g.list, s.outputIndexes);
    var made := Create(sem, s, Resolve(g.known, s.inputIndexes));
    GraphGrows(exprs, content, order, i, g.exprs, g.content, made.0, made.1);
  }

  lemma LoadStep(sem: Semantics, ops: seq<SavedOp>, i: nat)
    requires i < |ops|
    ensures LoadOps(sem, ops[..i + 1]) == LoadOp(sem, LoadOps(sem, ops[..i]), ops[i])
  {
    assert ops[..i + 1][..i] == ops[..i];
  }

  lemma NothingRebuilt(sem: Semantics, exprs: seq<Expr>, content: seq<Value>, order: seq<nat>)
    requires |content| == |exprs| && Inside(exprs, order)
    ensures Rebuilt(exprs, content, order, 0, LoadOps(sem, []))
  {
  }

  lemma StepRebuilt(
    sem: Semantics, exprs: seq<Expr>, content: seq<Value>, order: seq<nat>, ops: seq<SavedOp>, i: nat, g: Loaded,
    g': Loaded)
    requires GraphOk(exprs) && |content| == |exprs| && Inside(exprs, order) && NoDup(order)
             && InputsFirst(exprs, order)
    requires i < |order| && i < |ops| && SavedAt(exprs, content, order, i, ops[i])
    requires Rebuilt(exprs, content, order, i, g) && g' == LoadOp(sem, g, ops[i])
    ensures Rebuilt(exprs, content, order, i + 1, g')
  {
    OpRebuilt(sem, exprs, content, order, i, g, ops[i]);
  }

  lemma {:induction false} NetRebuilt(sem: Semantics, exprs: seq<Expr>, content: seq<Value>, order: seq<nat>, net: Net,
                                      i: nat)
    requires GraphOk(exprs) && |content| == |exprs| && NoDup(order) && InputsFirst(exprs, order)
    requires SavedFrom(exprs, content, order, net) && i <= |order|
    ensures Rebuilt(exprs, content, order, i, LoadOps(sem, net.oplists[..i]))
    decreases i
  {
    var ops := net.oplists;
    if i == 0 {
      NothingRebuilt(sem, exprs, content, order);
      assert ops[..0] == [];
    } else {
      NetRebuilt(sem, exprs, content, order, net, i - 1);
      LoadStep(sem, ops, i - 1);
      StepRebuilt(sem, exprs, content, order, ops, i - 1, LoadOps(sem, ops[..i - 1]), LoadOps(sem, ops[..i]));
    }
  }

  /** Loading a saved net never misses a variable, and rebuilds the graph and the constants behind it. */
  lemma RoundTrip(sem: Semantics, exprs: seq<Expr>, content: seq<Value>, order: seq<nat>, net: Net)
    requires GraphOk(exprs) && |content| == |exprs| && NoDup(order) && InputsFirst(exprs, order)
    requires SavedFrom(exprs, content, order, net)
    ensures Rebuilt(exprs, content, order, |order|, LoadOps(sem, net.oplists))
  {
    NetRebuilt(sem, exprs, content, order, net, |order|);
    assert net.oplists[..|order|] == net.oplists;
  }

  // --- The rebuilt graph means the same ---

  lemma RebuiltGraph(exprs: seq<Expr>, content: seq<Value>, order: seq<nat>, g: Loaded)
    requires GraphOk(exprs) && |content| == |exprs| && Inside(exprs, order)
             && Rebuilt(exprs, content, order, |order|, g)
    ensures GraphOk(g.exprs)
  {
    forall p: nat | p < |g.exprs|
      ensures ExprOk(g.exprs, p)
    {
      assert Renamed(exprs, order, p, g.exprs[p]);
      if g.exprs[p].Op? {
        var e := order[p];
        assert ExprOk(exprs, e);
        forall k | 0 <= k < |g.exprs[p].inputs|
          ensures VarOk(g.exprs, g.exprs[p].inputs[k], p)
        {
          var v, v' := exprs[e].inputs[k], g.exprs[p].inputs[k];
          assert RenamedVar(order, p, v, v') && VarOk(exprs, v, e);
          assert Renamed(exprs, order, v'.expr, g.exprs[v'.expr]);
        }
      }
    }
  }

  /** For any leaf contents carried over, every rebuilt variable evaluates as the original. */
  lemma {:induction false} MeaningKept(
    sem: Semantics, exprs: seq<Expr>, content: seq<Value>, order: seq<nat>, g: Loaded, content': seq<Value>, p: nat,
    k: nat)
    requires GraphOk(exprs) && |content| == |exprs| && Inside(exprs, order)
             && Rebuilt(exprs, content, order, |order|, g)
    requires GraphOk(g.exprs) && |content'| == |g.exprs| && p < |order|
    requires forall q :: 0 <= q < |order| && exprs[order[q]].Leaf? ==> content'[q] == content[order[q]]
    ensures Eval(sem, g.exprs, content', Var(p, k)) == Eval(sem, exprs, content, Var(order[p], k))
    decreases p
  {
    assert Renamed(exprs, order, p, g.exprs[p]);
    var e := order[p];
    if exprs[e].Op? {
      assert ExprOk(exprs, e);
      var a := InputValues(sem, g.exprs, content', p, |g.exprs[p].inputs|);
      var b := InputValues(sem, exprs, content, e, |exprs[e].inputs|);
      forall i | 0 <= i < |a|
        ensures a[i] == b[i]
      {
        var v, v' := exprs[e].inputs[i], g.exprs[p].inputs[i];
        assert RenamedVar(order, p, v, v');
        MeaningKept(sem, exprs, content, order, g, content', v'.expr, v'.index);
        assert v' == Var(v'.expr, v'.index) && v == Var(order[v'.expr], v'.index);
      }
      assert a == b;
    }
  }

  /** `save` followed by `load`, for any outputs of any graph. */
  method SaveAndLoad(sem: Semantics, exprs: seq<Expr>, content: seq<Value>, outputs: seq<Option<Var>>)
    returns (order: seq<nat>, net: Net, g: Loaded)
    requires GraphOk(exprs) && |content| == |exprs|
    requires OutputsOk(exprs, outputs)
    ensures OrderOk(exprs, outputs, order) && order == DepthFirst(exprs, outputs)
    ensures SavedFrom(exprs, content, order, net)
    ensures Rebuilt(exprs, content, order, |order|, g) && GraphOk(g.exprs)
  {
    var visited := new bool[|exprs|](_ => false);
    order := GetExecuteOrder(exprs, outputs, visited);
    OrderInside(exprs, outputs, order);
    net := Save(exprs, content, order);
    g := Load(sem, net);
    RoundTrip(sem, exprs, content, order, net);
    RebuiltGraph(exprs, content, order, g);
  }

  lemma OrderInside(exprs: seq<Expr>, outputs: seq<Option<Var>>, order: seq<nat>)
    requires GraphOk(exprs) && OrderOk(exprs, outputs, order)
    ensures Inside(exprs, order)
  {
    forall i | 0 <= i < |order|
      ensures order[i] < |exprs|
    {
      assert InputsIn(exprs, order[i], order[..i]);
    }
  }
}
