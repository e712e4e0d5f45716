/** `VarScope` and `SourceModule::buildKernel`: variable naming and emission, node by node. */
module KernelBuilder {
  import opened Sequences
  import opened Commands
  import opened FusedKernel

  /** Names are counters; "var_3" is 3. */
  class VarScope {
    var varMap: map<Tensor, nat>
    var varIdx: nat
    var inputs: seq<Tensor>
    var used: set<Tensor>

    ghost function View(body: seq<Instr>): Scope
      reads this
    {
      Scope(varMap, varIdx, inputs, used, body)
    }

    constructor ()
      ensures View([]) == EMPTY_SCOPE
    {
      varMap, varIdx, inputs, used := map[], 0, [], {};
    }

    method AddVar(t: Tensor) returns (name: nat)
      modifies this
      ensures name == old(varIdx)
      ensures forall body :: View(body) == FusedKernel.AddVar(old(View(body)), t)
    {
      name := varIdx;
      varIdx := varIdx + 1;
      if t !in varMap {
        varMap := varMap[t := name];
      }
    }

    method AddInput(t: Tensor) returns (slot: nat)
      modifies `inputs
      ensures slot == |old(inputs)| && inputs == old(inputs) + [t]
    {
      slot := |inputs|;
      inputs := inputs + [t];
    }

    /** Every named tensor that no node consumed, in some order. */
    method ComputeOutput() returns (outputs: seq<Tensor>)
      ensures NoDup(outputs)
      ensures forall t :: t in outputs <==> t in varMap && t !in used
    {
      outputs := [];
      var rest := varMap.Keys - used;
      while rest != {}
        invariant NoDup(outputs)
        invariant forall t :: t in outputs ==> t !in rest
        invariant forall t :: t in outputs || t in rest <==> t in varMap && t !in used
        decreases rest
      {
        var t :| t in rest;
        rest := rest - {t};
        outputs := outputs + [t];
      }
    }
  }

  function TopoIndex(p: Program, x: nat): nat
  {
    if x < |p.topo| then p.topo[x] else 0
  }

  ghost predicate SortedByTopo(p: Program, order: seq<nat>)
  {
    forall a, b :: 0 <= a < b < |order| ==> TopoIndex(p, order[a]) <= TopoIndex(p, order[b])
  }

  /** Same nodes, ordered by topological index; nothing is said about ties. */
  method SortByTopo(p: Program, nodes: seq<nat>) returns (order: seq<nat>)
    requires NoDup(nodes)
    ensures NoDup(order) && SortedByTopo(p, order)
    ensures forall x :: x in order <==> x in nodes
  {
    order := [];
    for i := 0 to |nodes|
      invariant NoDup(order) && SortedByTopo(p, order)
      invariant forall x :: x in order <==> x in nodes[..i]
    {
      var x := nodes[i];
      assert x !in nodes[..i] && nodes[..i + 1] == nodes[..i] + [x];
      var k := |order|;
      while k > 0 && TopoIndex(p, x) < TopoIndex(p, order[k - 1])
        invariant 0 <= k <= |order|
        invariant forall j :: k <= j < |order| ==> TopoIndex(p, x) < TopoIndex(p, order[j])
      {
        k := k - 1;
      }
      InsertedNoDup(order, k, x);
      InsertedSorted(p, order, k, x);
      InsertedMembers(order, k, x);
      order := Inserted(order, k, x);
    }
    assert nodes[..|nodes|] == nodes;
  }

  function Inserted(order: seq<nat>, k: nat, x: nat): (r: seq<nat>)
    requires k <= |order|
    ensures |r| == |order| + 1
    ensures forall i :: 0 <= i < |r| ==> r[i] == if i < k then order[i] else if i == k then x else order[i - 1]
  {
    order[..k] + [x] + order[k..]
  }

  lemma InsertedNoDup(order: seq<nat>, k: nat, x: nat)
    requires k <= |order| && NoDup(order) && x !in order
    ensures NoDup(Inserted(order, k, x))
  {
  }

  lemma InsertedSorted(p: Program, order: seq<nat>, k: nat, x: nat)
    requires SortedByTopo(p, order)
    requires k <= |order| && (k > 0 ==> TopoIndex(p, order[k - 1]) <= TopoIndex(p, x))
    requires forall j :: k <= j < |order| ==> TopoIndex(p, x) < TopoIndex(p, order[j])
    ensures SortedByTopo(p, Inserted(order, k, x))
  {
    var r := Inserted(order, k, x);
    forall a, b | 0 <= a < b < |r|
      ensures TopoIndex(p, r[a]) <= TopoIndex(p, r[b])
    {
      if b == k && a < k - 1 {
        assert TopoIndex(p, order[a]) <= TopoIndex(p, order[k - 1]);
      }
    }
  }

  lemma InsertedMembers(order: seq<nat>, k: nat, x: nat)
    requires k <= |order|
    ensures forall y :: y in Inserted(order, k, x) <==> y == x || y in order
  {
    var r := Inserted(order, k, x);
    assert r == order[..k] + [x] + order[k..];
    assert order == order[..k] + order[k..];
  }

  /** The kernel assembled from a scope: one store per unconsumed tensor. */
  ghost predicate Assembled(s: Scope, kernel: Kernel)
  {
    && kernel.inputs == s.inputs && kernel.body == s.body
    && NoDup(kernel.outputs)
    && (forall t :: t in kernel.outputs <==> t in s.vars && t !in s.used)
    && |kernel.stores| == |kernel.outputs|
    && forall i :: 0 <= i < |kernel.outputs| ==>
         kernel.outputs[i] in s.vars && kernel.stores[i] == s.vars[kernel.outputs[i]]
  }

  method BuildKernel(p: Program, literal: Tensor -> Scalar, nodes: seq<nat>)
    returns (kernel: Kernel, ghost order: seq<nat>)
    requires NoDup(nodes) && Below(nodes, |p.commands|)
    ensures NoDup(order) && SortedByTopo(p, order)
    ensures forall x :: x in order <==> x in nodes
    ensures Assembled(EmitAll(p, literal, order), kernel)
  {
    var sorted := SortByTopo(p, nodes);
    order := sorted;
    var scope := new VarScope();
    var body: seq<Instr> := [];
    for i := 0 to |sorted|
      invariant fresh(scope)
      invariant scope.View(body) == EmitAll(p, literal, sorted[..i])
    {
      assert sorted[..i + 1][..i] == sorted[..i];
      assert sorted[i] in sorted;
      body := EmitNode(p, literal, scope, body, p.commands[sorted[i]]);
    }
    assert sorted[..|sorted|] == sorted;
    kernel := Assemble(scope, body);
  }

  method Assemble(scope: VarScope, body: seq<Instr>) returns (kernel: Kernel)
    ensures Assembled(scope.View(body), kernel)
  {
    var outputs := scope.ComputeOutput();
    assert forall i :: 0 <= i < |outputs| ==> outputs[i] in outputs;
    var vars := scope.varMap;
    var stores := seq(|outputs|, i requires 0 <= i < |outputs| && outputs[i] in vars => vars[outputs[i]]);
    kernel := Kernel(scope.inputs, outputs, body, stores);
  }

  /** One input of a node, by the same three cases as `Read`. */
  method EmitRead(p: Program, literal: Tensor -> Scalar, scope: VarScope, body0: seq<Instr>, t: Tensor)
    returns (body: seq<Instr>, name: nat)
    modifies scope
    ensures scope.View(body) == Read(p, literal, old(scope.View(body0)), t)
    ensures t in scope.varMap && name == scope.varMap[t]
  {
    body := body0;
    if t in scope.varMap {
      name := scope.varMap[t];
    } else {
      ghost var s0 := scope.View(body0);
      name := scope.AddVar(t);
      assert scope.View(body0) == FusedKernel.AddVar(s0, t);
      if IsLiteral(p, t) {
        body := body + [Number(name, literal(t))];
      } else {
        var slot := scope.AddInput(t);
        if t < |p.sizes| && p.sizes[t] == 1 {
          body := body + [LoadScalar(name, slot)];
        } else {
          body := body + [Load(name, slot)];
        }
      }
    }
    scope.used := scope.used + {t};
  }

  /** The variables of the tensors read so far, after one more read. */
  lemma NamedSoFar(p: Program, literal: Tensor -> Scalar, s: Scope, ts: seq<Tensor>, args: seq<nat>, t: Tensor)
    requires |args| == |ts| && forall j :: 0 <= j < |ts| ==> ts[j] in s.vars && args[j] == s.vars[ts[j]]
    ensures var r := Read(p, literal, s, t);
            t in r.vars && forall j :: 0 <= j < |ts| ==> ts[j] in r.vars && args[j] == r.vars[ts[j]]
  {
  }

  method EmitReads(p: Program, literal: Tensor -> Scalar, scope: VarScope, body0: seq<Instr>, ts: seq<Tensor>)
    returns (body: seq<Instr>, args: seq<nat>)
    modifies scope
    ensures scope.View(body) == ReadAll(p, literal, old(scope.View(body0)), ts)
    ensures |args| == |ts| && forall j :: 0 <= j < |ts| ==> ts[j] in scope.varMap && args[j] == scope.varMap[ts[j]]
  {
    body := body0;
    args := [];
    ghost var s := scope.View(body0);
    for i := 0 to |ts|
      invariant scope.View(body) == s == ReadAll(p, literal, old(scope.View(body0)), ts[..i])
      invariant |args| == i
      invariant forall j :: 0 <= j < i ==> ts[j] in s.vars && args[j] == s.vars[ts[j]]
    {
      NamedSoFar(p, literal, s, ts[..i], args, ts[i]);
      var name;
      body, name := EmitRead(p, literal, scope, body, ts[i]);
      assert ReadAll(p, literal, old(scope.View(body0)), ts[..i + 1]) == Read(p, literal, s, ts[i]) by {
        assert ts[..i + 1][..i] == ts[..i];
      }
      s := Read(p, literal, s, ts[i]);
      args := args + [name];
    }
    assert ts[..|ts|] == ts;
  }

  /** One node: its inputs, then its own variable and computation. */
  method EmitNode(p: Program, literal: Tensor -> Scalar, scope: VarScope, body0: seq<Instr>, c: Command)
    returns (body: seq<Instr>)
    modifies scope
    ensures scope.View(body) == Emit(p, literal, old(scope.View(body0)), c)
  {
    var args;
    body, args := EmitReads(p, literal, scope, body0, c.inputs);
    ghost var s1 := scope.View(body);
    assert args == Names(s1, c.inputs);
    var tmp := scope.AddVar(c.output);
    assert scope.View(body) == FusedKernel.AddVar(s1, c.output);
    body := body + [Compute(tmp, c.op, args)];
  }
}
