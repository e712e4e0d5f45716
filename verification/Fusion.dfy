/** The whole pass: every fuse set becomes one kernel in the slot of its root, its other commands
    are erased, and running the rewritten list gives every surviving tensor its old value. */
module Fusion {
  import opened Sequences
  import opened Commands
  import opened DominatorTree
  import opened FuseRegions
  import opened OpGraph
  import opened FusedKernel
  import opened KernelBuilder

  datatype Step = Plain(command: Command) | Fused(kernel: Kernel) | Erased

  ghost predicate StepOk(p: Program, step: Step)
  {
    match step
    case Plain(c) => Shaped(p, c)
    case Fused(kernel) => KernelOk(p, kernel)
    case Erased => true
  }

  ghost function RunStep(p: Program, sem: Semantics, step: Step, st: State): (r: State)
    requires StepOk(p, step) && StateOk(p, st)
    ensures StateOk(p, r)
  {
    match step
    case Plain(c) => st[c.output := Output(p, sem, c, st)]
    case Fused(kernel) => RunKernel(p, sem, kernel, st, |kernel.outputs|)
    case Erased => st
  }

  ghost predicate StepsOk(p: Program, steps: seq<Step>)
  {
    forall i :: 0 <= i < |steps| ==> StepOk(p, steps[i])
  }

  ghost function RunSteps(p: Program, sem: Semantics, steps: seq<Step>, st: State): (r: State)
    requires StepsOk(p, steps) && StateOk(p, st)
    ensures StateOk(p, r)
  {
    if steps == [] then st
    else RunStep(p, sem, steps[|steps| - 1], RunSteps(p, sem, steps[..|steps| - 1], st))
  }

  predicate Writes(step: Step, t: Tensor)
  {
    match step
    case Plain(c) => c.output == t
    case Fused(kernel) => t in kernel.outputs
    case Erased => false
  }

  // --- The rewriting ---

  /** The slots once the first `m` fuse sets have been handled, before erased commands are dropped. */
  ghost predicate RewrittenUpTo(p: Program, literal: Tensor -> Scalar, sets: seq<seq<nat>>, m: nat,
                                orders: seq<seq<nat>>, kernels: seq<Kernel>, steps: seq<Step>)
  {
    && |steps| == |p.commands| && |kernels| == m == |orders| && m <= |sets|
    && (forall a :: 0 <= a < m ==> KernelOf(p, literal, sets[a], orders[a], kernels[a]))
    && (forall a, i :: 0 <= a < m && 0 <= i < |sets[a]| ==>
          sets[a][i] < |steps| && steps[sets[a][i]] == if i == |sets[a]| - 1 then Fused(kernels[a]) else Erased)
    && (forall x :: 0 <= x < |steps| && (forall a :: 0 <= a < m ==> x !in sets[a]) ==>
          steps[x] == Plain(p.commands[x]))
  }

  ghost predicate Rewritten(p: Program, literal: Tensor -> Scalar, sets: seq<seq<nat>>,
                            orders: seq<seq<nat>>, kernels: seq<Kernel>, steps: seq<Step>)
  {
    RewrittenUpTo(p, literal, sets, |sets|, orders, kernels, steps)
  }

  ghost predicate KernelOf(p: Program, literal: Tensor -> Scalar, s: seq<nat>, order: seq<nat>, kernel: Kernel)
  {
    && s != []
    && NoDup(order) && SortedByTopo(p, order) && (forall x :: x in order <==> x in s)
    && Assembled(EmitAll(p, literal, order), kernel)
  }

  /** Every kernel was emitted with producers before consumers. */
  ghost predicate AllProducersFirst(p: Program, orders: seq<seq<nat>>)
  {
    forall a :: 0 <= a < |orders| ==> ProducersFirst(p, orders[a])
  }

  /** `x` is a command whose slot the rewriting erased. */
  ghost predicate ErasedBy(sets: seq<seq<nat>>, x: nat)
  {
    exists a :: 0 <= a < |sets| && sets[a] != [] && x in sets[a] && x != Last(sets[a])
  }

  /** `t` belonged to an erased command. */
  ghost predicate Gone(p: Program, sets: seq<seq<nat>>, t: Tensor)
  {
    exists x: nat :: x < |p.commands| && ErasedBy(sets, x) && p.commands[x].output == t
  }

  /** The program with its graph, its dominator tree and the fuse sets found in it. */
  datatype Pass = Pass(program: Program, succ: seq<seq<nat>>, dom: seq<NodeRef>, legal: seq<bool>, sets: seq<seq<nat>>)

  ghost predicate PassOk(g: Pass)
  {
    && WellFormed(g.program)
    && |g.succ| == |g.program.commands| == |g.legal| && EdgesOf(g.program, g.succ, |g.succ|)
    && (forall i :: 0 <= i < |g.legal| ==> g.legal[i] == g.program.commands[i].legal)
    && DomTree(g.succ, g.dom, StrictTopo(g.program))
    && FuseSetsOk(g.succ, g.dom, g.legal, g.sets)
  }

  /** The root of a fuse set. */
  function Last(s: seq<nat>): nat
  {
    if s == [] then 0 else s[|s| - 1]
  }

  // --- Shape of one fuse set ---

  /** A command of a set feeds only commands of a later `OpCacheInfo` within that set. */
  ghost predicate NoTies(p: Program, s: seq<nat>)
  {
    forall x, y :: x in s && y in s && Feeds(p, x, y) ==> TopoIndex(p, x) < TopoIndex(p, y)
  }

  lemma StrictHasNoTies(p: Program, s: seq<nat>)
    requires WellFormed(p) && StrictTopo(p)
    ensures NoTies(p, s)
  {
    forall x, y | x in s && y in s && Feeds(p, x, y)
      ensures TopoIndex(p, x) < TopoIndex(p, y)
    {
      assert x < y;
    }
  }

  lemma SortPutsProducersFirst(p: Program, s: seq<nat>, order: seq<nat>)
    requires WellFormed(p) && NoTies(p, s)
    requires SortedByTopo(p, order) && forall x :: x in order <==> x in s
    ensures ProducersFirst(p, order)
  {
    forall a, b | 0 <= a <= b < |order|
      ensures !Feeds(p, order[b], order[a])
    {
      assert order[a] in order && order[b] in order;
    }
  }

  lemma SetRoot(succ: seq<seq<nat>>, dom: seq<NodeRef>, legal: seq<bool>, s: seq<nat>, x: nat)
    requires Forward(succ) && TreeOk(dom) && |dom| == |succ| == |legal|
    requires FuseSetOk(succ, dom, legal, s) && x in s
    ensures x < |succ| && Member(succ, dom, legal, s[|s| - 1], x) && x <= s[|s| - 1]
  {
    var k :| 0 <= k < |s| && s[k] == x;
    MemberBelow(succ, dom, legal, s[|s| - 1], x);
  }

  lemma SetMember(g: Pass, a: nat, x: nat)
    requires PassOk(g) && a < |g.sets| && x in g.sets[a]
    ensures x < |g.program.commands| && g.program.commands[x].elementWise && Shaped(g.program, g.program.commands[x])
    ensures x <= Last(g.sets[a])
  {
    var root := Last(g.sets[a]);
    SetRoot(g.succ, g.dom, g.legal, g.sets[a], x);
    if x != root {
      MemberFeeds(g.succ, g.dom, g.legal, StrictTopo(g.program), root, x);
    }
  }

  /** Whatever reads an erased tensor sits in the same fuse set. */
  lemma ErasedReadersInside(g: Pass,
                            a: nat, x: nat, y: nat)
    requires PassOk(g) && a < |g.sets|
    requires x in g.sets[a] && x != Last(g.sets[a]) && Feeds(g.program, x, y)
    ensures y in g.sets[a]
  {
    var root := Last(g.sets[a]);
    SetRoot(g.succ, g.dom, g.legal, g.sets[a], x);
    assert x < y;
    MemberClosed(g.succ, g.dom, g.legal, StrictTopo(g.program), root, x, y);
  }

  /** Inside a set every tensor has one element or as many as the root. */
  lemma {:induction false} SizesInside(
    g: Pass, a: nat, x: nat)
    requires PassOk(g) && a < |g.sets| && x in g.sets[a]
    ensures x < |g.program.commands| && Last(g.sets[a]) < |g.program.commands|
    ensures var n := g.program.sizes[g.program.commands[x].output];
            n == 1 || n == g.program.sizes[g.program.commands[Last(g.sets[a])].output]
    decreases |g.program.commands| - x
  {
    var root := Last(g.sets[a]);
    SetMember(g, a, x);
    if x != root {
      SetRoot(g.succ, g.dom, g.legal, g.sets[a], x);
      MemberFeeds(g.succ, g.dom, g.legal, StrictTopo(g.program), root, x);
      var y := g.succ[x][0];
      assert y in g.succ[x] && Feeds(g.program, x, y);
      ErasedReadersInside(g, a, x, y);
      SetMember(g, a, y);
      SizesInside(g, a, y);
    }
  }

  // --- One kernel ---

  /** The kernel has a single store, the output of the root. */
  lemma SingleStore(g: Pass, literal: Tensor -> Scalar, a: nat, order: seq<nat>, kernel: Kernel)
    requires PassOk(g) && a < |g.sets| && KernelOf(g.program, literal, g.sets[a], order, kernel)
    ensures Last(g.sets[a]) < |g.program.commands|
    ensures kernel.outputs == [g.program.commands[Last(g.sets[a])].output]
  {
    var s, root := g.sets[a], Last(g.sets[a]);
    assert root in s;
    SetMember(g, a, root);
    var out := g.program.commands[root].output;
    assert out in kernel.outputs by {
      var k :| 0 <= k < |order| && order[k] == root;
      assert WrittenBy(g.program, order, out);
      InScope(g.program, literal, order, out);
      RootUnread(g, a, order);
    }
    forall t: Tensor | t in kernel.outputs
      ensures t == out
    {
      InScope(g.program, literal, order, t);
      var k :| 0 <= k < |order| && order[k] < |g.program.commands| && t == g.program.commands[order[k]].output;
      assert order[k] in order;
      StoredIsRoot(g, a, order, order[k]);
    }
    AllTheSame(kernel.outputs, out);
  }

  lemma AllTheSame(s: seq<nat>, x: nat)
    requires NoDup(s) && x in s && forall y :: y in s ==> y == x
    ensures s == [x]
  {
    assert |s| > 1 ==> s[0] != s[1];
    assert forall i :: 0 <= i < |s| ==> s[i] in s;
  }

  lemma RootUnread(g: Pass, a: nat,
                   order: seq<nat>)
    requires PassOk(g) && a < |g.sets| && forall x :: x in order <==> x in g.sets[a]
    ensures Last(g.sets[a]) < |g.program.commands|
    ensures !ReadBy(g.program, order, g.program.commands[Last(g.sets[a])].output)
  {
    var root := Last(g.sets[a]);
    assert root in g.sets[a];
    SetMember(g, a, root);
    forall k | 0 <= k < |order| && order[k] < |g.program.commands|
      ensures g.program.commands[root].output !in g.program.commands[order[k]].inputs
    {
      assert order[k] in order;
      SetMember(g, a, order[k]);
    }
  }

  /** A member whose output no member reads is the root. */
  lemma StoredIsRoot(g: Pass, a: nat,
                     order: seq<nat>, x: nat)
    requires PassOk(g) && a < |g.sets| && (forall y :: y in order <==> y in g.sets[a])
    requires x in g.sets[a] && x < |g.program.commands| && !ReadBy(g.program, order, g.program.commands[x].output)
    ensures x == Last(g.sets[a])
  {
    var root := Last(g.sets[a]);
    if x != root {
      SetRoot(g.succ, g.dom, g.legal, g.sets[a], x);
      MemberFeeds(g.succ, g.dom, g.legal, StrictTopo(g.program), root, x);
      var y := g.succ[x][0];
      assert y in g.succ[x] && Feeds(g.program, x, y);
      ErasedReadersInside(g, a, x, y);
    }
  }

  lemma SetCovers(g: Pass, sem: Semantics, a: nat, order: seq<nat>, final: State, k: nat)
    requires PassOk(g) && a < |g.sets| && forall x :: x in order <==> x in g.sets[a]
    requires StateOk(g.program, final) && Settled(g.program, sem, final)
    requires Last(g.sets[a]) < |g.program.commands| && Shaped(g.program, g.program.commands[Last(g.sets[a])])
    requires k < g.program.sizes[g.program.commands[Last(g.sets[a])].output]
    ensures Covers(g.program, sem, final, order, k)
  {
    forall i | 0 <= i < |order|
      ensures order[i] < |g.program.commands|
      ensures var c := g.program.commands[order[i]];
              && Shaped(g.program, c) && c.elementWise && Whole(final, c.output) == Output(g.program, sem, c, final)
              && (g.program.sizes[c.output] == 1 || k < g.program.sizes[c.output])
    {
      assert order[i] in order;
      SetMember(g, a, order[i]);
      SizesInside(g, a, order[i]);
    }
  }

  lemma KernelElem(p: Program, literal: Tensor -> Scalar, sem: Semantics, order: seq<nat>, kernel: Kernel,
                   out: Tensor, final: State, st: State, k: nat)
    requires Assembled(EmitAll(p, literal, order), kernel) && kernel.outputs == [out] && out < |p.sizes|
    requires StateOk(p, final) && LiteralsMatch(p, literal, final) && Covers(p, sem, final, order, k)
    requires forall t :: t in kernel.inputs ==> Whole(st, t) == Whole(final, t)
    ensures |kernel.stores| == 1 && StoredElem(sem, kernel, st, k, kernel.stores[0]) == Elem(sem, final[out], k)
  {
    EmitAllSound(p, literal, sem, final, order, k);
    ExecAgrees(sem, final, st, kernel.inputs, kernel.body, k);
    assert kernel.outputs[0] == out;
  }

  lemma KernelWrites(p: Program, literal: Tensor -> Scalar, sem: Semantics, order: seq<nat>, kernel: Kernel,
                     out: Tensor, final: State, st: State)
    requires Assembled(EmitAll(p, literal, order), kernel) && kernel.outputs == [out] && out < |p.sizes|
    requires StateOk(p, final) && LiteralsMatch(p, literal, final) && StateOk(p, st)
    requires forall k: nat :: k < p.sizes[out] ==> Covers(p, sem, final, order, k)
    requires forall t :: t in kernel.inputs ==> Whole(st, t) == Whole(final, t)
    ensures KernelOk(p, kernel) && RunKernel(p, sem, kernel, st, |kernel.outputs|) == st[out := final[out]]
  {
    assert |kernel.stores| == 1;
    forall k: nat | k < p.sizes[out]
      ensures StoredElem(sem, kernel, st, k, kernel.stores[0]) == Elem(sem, final[out], k)
    {
      KernelElem(p, literal, sem, order, kernel, out, final, st, k);
    }
    StoredIs(p, sem, kernel, out, final[out], st);
    RunSingle(p, sem, kernel, out, st);
  }

  lemma StoredIs(p: Program, sem: Semantics, kernel: Kernel, out: Tensor, v: seq<Scalar>, st: State)
    requires kernel.outputs == [out] && |kernel.stores| == 1 && out < |p.sizes| && |v| == p.sizes[out]
    requires forall k: nat :: k < |v| ==> StoredElem(sem, kernel, st, k, kernel.stores[0]) == Elem(sem, v, k)
    ensures Stored(p, sem, kernel, st, 0) == v
  {
    var w := Stored(p, sem, kernel, st, 0);
    forall k: nat | k < |v|
      ensures w[k] == v[k]
    {
      assert w[k] == StoredElem(sem, kernel, st, k, kernel.stores[0]) == Elem(sem, v, k);
    }
  }

  lemma RunSingle(p: Program, sem: Semantics, kernel: Kernel, out: Tensor, st: State)
    requires kernel.outputs == [out] && |kernel.stores| == 1 && out < |p.sizes| && StateOk(p, st)
    ensures KernelOk(p, kernel)
    ensures RunKernel(p, sem, kernel, st, |kernel.outputs|) == st[out := Stored(p, sem, kernel, st, 0)]
  {
    assert RunKernel(p, sem, kernel, st, 0) == st;
  }

  /** Started from any state that shows its inputs as `final` does, the kernel writes the root's final tensor. */
  lemma KernelComputes(g: Pass, literal: Tensor -> Scalar, sem: Semantics, a: nat, order: seq<nat>, kernel: Kernel,
                       final: State, st: State)
    requires PassOk(g) && a < |g.sets| && KernelOf(g.program, literal, g.sets[a], order, kernel)
    requires StateOk(g.program, final) && Settled(g.program, sem, final) && LiteralsMatch(g.program, literal, final)
    requires StateOk(g.program, st) && forall t :: t in kernel.inputs ==> Whole(st, t) == Whole(final, t)
    ensures Last(g.sets[a]) < |g.program.commands| && KernelOk(g.program, kernel)
    ensures var out := g.program.commands[Last(g.sets[a])].output;
            RunKernel(g.program, sem, kernel, st, |kernel.outputs|) == st[out := final[out]]
  {
    SingleStore(g, literal, a, order, kernel);
    var root := Last(g.sets[a]);
    assert Shaped(g.program, g.program.commands[root]);
    var out := g.program.commands[root].output;
    forall k: nat | k < g.program.sizes[out]
      ensures Covers(g.program, sem, final, order, k)
    {
      SetCovers(g, sem, a, order, final, k);
    }
    KernelWrites(g.program, literal, sem, order, kernel, out, final, st);
  }

  // --- The whole list ---

  /** No command from position `i` on writes `t`. */
  ghost predicate Available(p: Program, t: Tensor, i: nat)
  {
    forall j :: i <= j < |p.commands| ==> p.commands[j].output != t
  }

  ghost predicate Agrees(p: Program, sets: seq<seq<nat>>, final: State, st: State, i: nat)
  {
    forall t: Tensor :: t < |p.sizes| && Available(p, t, i) && !Gone(p, sets, t) ==> Whole(st, t) == Whole(final, t)
  }

  /** A surviving step reads nothing that was erased. */
  lemma PlainReads(g: Pass, i: nat, t: Tensor)
    requires PassOk(g) && i < |g.program.commands| && t in g.program.commands[i].inputs
    requires forall a :: 0 <= a < |g.sets| ==> i !in g.sets[a]
    ensures Available(g.program, t, i) && !Gone(g.program, g.sets, t)
  {
    if Gone(g.program, g.sets, t) {
      var x: nat :| x < |g.program.commands| && ErasedBy(g.sets, x) && g.program.commands[x].output == t;
      var a :| 0 <= a < |g.sets| && g.sets[a] != [] && x in g.sets[a] && x != Last(g.sets[a]);
      ErasedReadersInside(g, a, x, i);
    }
  }

  /** An erased tensor that a command reads was written in that command's own set. */
  lemma GoneWriter(g: Pass, a: nat, y: nat, t: Tensor) returns (x: nat)
    requires PassOk(g) && a < |g.sets| && y in g.sets[a] && y < |g.program.commands|
    requires t in g.program.commands[y].inputs && Gone(g.program, g.sets, t)
    ensures x in g.sets[a] && x < |g.program.commands| && g.program.commands[x].output == t
  {
    x :| x < |g.program.commands| && ErasedBy(g.sets, x) && g.program.commands[x].output == t;
    var b :| 0 <= b < |g.sets| && g.sets[b] != [] && x in g.sets[b] && x != Last(g.sets[b]);
    ErasedReadersInside(g, b, x, y);
    SameSet(g.sets, a, b, y);
  }

  lemma SameSet(sets: seq<seq<nat>>, a: nat, b: nat, y: nat)
    requires forall a, b :: 0 <= a < b < |sets| ==> Disjoint(sets[a], sets[b])
    requires a < |sets| && b < |sets| && y in sets[a] && y in sets[b]
    ensures a == b
  {
  }

  lemma KernelReads(g: Pass, literal: Tensor -> Scalar, a: nat, order: seq<nat>, kernel: Kernel, t: Tensor)
    requires PassOk(g) && a < |g.sets| && KernelOf(g.program, literal, g.sets[a], order, kernel)
    requires ProducersFirst(g.program, order) && t in kernel.inputs
    ensures Available(g.program, t, Last(g.sets[a])) && !Gone(g.program, g.sets, t) && t < |g.program.sizes|
  {
    InputsAreExternal(g.program, literal, order, t);
    var k :| 0 <= k < |order| && order[k] < |g.program.commands| && t in g.program.commands[order[k]].inputs;
    assert order[k] in order;
    SetMember(g, a, order[k]);
    if Gone(g.program, g.sets, t) {
      var x := GoneWriter(g, a, order[k], t);
    }
  }

  /** The slot of a root: the kernel writes the root's final value. */
  lemma KernelStep(g: Pass, literal: Tensor -> Scalar, sem: Semantics, orders: seq<seq<nat>>, kernels: seq<Kernel>,
                   steps: seq<Step>, final: State, st: State, i: nat, a: nat)
    requires PassOk(g) && Rewritten(g.program, literal, g.sets, orders, kernels, steps)
    requires AllProducersFirst(g.program, orders)
    requires StateOk(g.program, final) && Settled(g.program, sem, final) && LiteralsMatch(g.program, literal, final)
    requires StateOk(g.program, st) && i < |steps| && Agrees(g.program, g.sets, final, st, i)
    requires a < |g.sets| && |g.sets[a]| > 0 && Last(g.sets[a]) == i
    ensures StepOk(g.program, steps[i])
            && Agrees(g.program, g.sets, final, RunStep(g.program, sem, steps[i], st), i + 1)
  {
    var s := g.sets[a];
    assert s[|s| - 1] == i && s[|s| - 1] in s;
    forall t | t in kernels[a].inputs
      ensures Whole(st, t) == Whole(final, t)
    {
      KernelReads(g, literal, a, orders[a], kernels[a], t);
    }
    KernelComputes(g, literal, sem, a, orders[a], kernels[a], final, st);
    AgreesWrite(g.program, g.sets, final, st, i);
  }

  /** The slot of another member: its tensor is given up. */
  lemma ErasedStep(g: Pass, literal: Tensor -> Scalar, sem: Semantics, orders: seq<seq<nat>>, kernels: seq<Kernel>,
                   steps: seq<Step>, final: State, st: State, i: nat, a: nat)
    requires PassOk(g) && Rewritten(g.program, literal, g.sets, orders, kernels, steps)
    requires AllProducersFirst(g.program, orders)
    requires StateOk(g.program, final) && Settled(g.program, sem, final) && LiteralsMatch(g.program, literal, final)
    requires StateOk(g.program, st) && i < |steps| && Agrees(g.program, g.sets, final, st, i)
    requires a < |g.sets| && i in g.sets[a] && i != Last(g.sets[a])
    ensures StepOk(g.program, steps[i])
            && Agrees(g.program, g.sets, final, RunStep(g.program, sem, steps[i], st), i + 1)
  {
    var k :| 0 <= k < |g.sets[a]| && g.sets[a][k] == i;
    assert ErasedBy(g.sets, i) && Gone(g.program, g.sets, g.program.commands[i].output);
    AgreesSkip(g.program, g.sets, final, st, i);
  }

  /** A command outside all sets runs as before. */
  lemma PlainStep(g: Pass, literal: Tensor -> Scalar, sem: Semantics, orders: seq<seq<nat>>, kernels: seq<Kernel>,
                  steps: seq<Step>, final: State, st: State, i: nat)
    requires PassOk(g) && Rewritten(g.program, literal, g.sets, orders, kernels, steps)
    requires AllProducersFirst(g.program, orders)
    requires StateOk(g.program, final) && Settled(g.program, sem, final) && LiteralsMatch(g.program, literal, final)
    requires StateOk(g.program, st) && i < |steps| && Agrees(g.program, g.sets, final, st, i)
    requires forall a :: 0 <= a < |g.sets| ==> i !in g.sets[a]
    ensures StepOk(g.program, steps[i])
            && Agrees(g.program, g.sets, final, RunStep(g.program, sem, steps[i], st), i + 1)
  {
    forall t | t in g.program.commands[i].inputs
      ensures st[t] == final[t]
    {
      PlainReads(g, i, t);
    }
    OutputDependsOnInputs(g.program, sem, g.program.commands[i], st, final);
    AgreesWrite(g.program, g.sets, final, st, i);
  }

  /** One step of the rewritten list keeps pace with the original. */
  lemma StepAgrees(g: Pass, literal: Tensor -> Scalar, sem: Semantics, orders: seq<seq<nat>>, kernels: seq<Kernel>,
                   steps: seq<Step>, final: State, st: State, i: nat)
    requires PassOk(g) && Rewritten(g.program, literal, g.sets, orders, kernels, steps)
    requires AllProducersFirst(g.program, orders)
    requires StateOk(g.program, final) && Settled(g.program, sem, final) && LiteralsMatch(g.program, literal, final)
    requires StateOk(g.program, st) && i < |steps| && Agrees(g.program, g.sets, final, st, i)
    ensures StepOk(g.program, steps[i])
            && Agrees(g.program, g.sets, final, RunStep(g.program, sem, steps[i], st), i + 1)
  {
    if a: nat :| a < |g.sets| && i in g.sets[a] {
      if i == Last(g.sets[a]) {
        KernelStep(g, literal, sem, orders, kernels, steps, final, st, i, a);
      } else {
        ErasedStep(g, literal, sem, orders, kernels, steps, final, st, i, a);
      }
    } else {
      PlainStep(g, literal, sem, orders, kernels, steps, final, st, i);
    }
  }

  lemma AgreesWrite(p: Program, sets: seq<seq<nat>>, final: State, st: State, i: nat)
    requires WellFormed(p) && StateOk(p, final) && StateOk(p, st) && i < |p.commands| && Agrees(p, sets, final, st, i)
    ensures p.commands[i].output < |st|
    ensures Agrees(p, sets, final, st[p.commands[i].output := final[p.commands[i].output]], i + 1)
  {
    assert Shaped(p, p.commands[i]);
    var out := p.commands[i].output;
    forall t: Tensor | t < |p.sizes| && Available(p, t, i + 1) && !Gone(p, sets, t)
      ensures Whole(st[out := final[out]], t) == Whole(final, t)
    {
      assert t != out ==> Available(p, t, i);
    }
  }

  lemma AgreesSkip(p: Program, sets: seq<seq<nat>>, final: State, st: State, i: nat)
    requires WellFormed(p) && i < |p.commands| && Agrees(p, sets, final, st, i) && Gone(p, sets, p.commands[i].output)
    ensures Agrees(p, sets, final, st, i + 1)
  {
    forall t: Tensor | t < |p.sizes| && Available(p, t, i + 1) && !Gone(p, sets, t)
      ensures Whole(st, t) == Whole(final, t)
    {
      assert Available(p, t, i);
    }
  }

  /** If every step keeps pace, so does the whole list. */
  lemma {:induction false} StepsAgree(p: Program, sem: Semantics, sets: seq<seq<nat>>, steps: seq<Step>, final: State,
                                      st: State, i: nat)
    requires StepsOk(p, steps) && StateOk(p, st) && i <= |steps| && Agrees(p, sets, final, st, 0)
    requires forall j: nat, s: State {:trigger RunStep(p, sem, steps[j], s)} ::
               j < |steps| && StateOk(p, s) && Agrees(p, sets, final, s, j) ==>
               Agrees(p, sets, final, RunStep(p, sem, steps[j], s), j + 1)
    ensures StepsOk(p, steps[..i]) && Agrees(p, sets, final, RunSteps(p, sem, steps[..i], st), i)
  {
    if i > 0 {
      StepsAgree(p, sem, sets, steps, final, st, i - 1);
      assert steps[..i] == steps[..i - 1] + [steps[i - 1]];
      RunAppend(p, sem, steps[..i - 1], steps[i - 1], st);
    }
  }

  lemma RunAppend(p: Program, sem: Semantics, front: seq<Step>, step: Step, st: State)
    requires StepsOk(p, front) && StepOk(p, step) && StateOk(p, st)
    ensures StepsOk(p, front + [step])
    ensures RunSteps(p, sem, front + [step], st) == RunStep(p, sem, step, RunSteps(p, sem, front, st))
  {
    assert (front + [step])[..|front|] == front;
  }

  lemma FinalState(p: Program, literal: Tensor -> Scalar, sem: Semantics, st: State, sets: seq<seq<nat>>)
    requires WellFormed(p) && StateOk(p, st) && LiteralsMatch(p, literal, st)
    ensures var final := Run(p, sem, st, |p.commands|);
            Settled(p, sem, final) && LiteralsMatch(p, literal, final) && Agrees(p, sets, final, st, 0)
  {
    RunSettles(p, sem, st);
    var final := Run(p, sem, st, |p.commands|);
    forall t: Tensor | t < |p.sizes| && Available(p, t, 0)
      ensures st[t] == final[t]
    {
    }
    forall t: Tensor | t < |final| && IsLiteral(p, t) && |final[t]| == 1
      ensures literal(t) == final[t][0]
    {
      assert Available(p, t, 0);
    }
  }

  // --- Dropping the erased slots ---

  function Survivors(steps: seq<Step>): (r: seq<Step>)
    ensures forall s :: s in r <==> s in steps && s != Erased
  {
    if steps == [] then []
    else
      var last := steps[|steps| - 1];
      var front := Survivors(steps[..|steps| - 1]);
      assert steps == steps[..|steps| - 1] + [last];
      if last == Erased then front else front + [last]
  }

  lemma {:induction false} SurvivorsRun(p: Program, sem: Semantics, steps: seq<Step>, st: State)
    requires StepsOk(p, steps) && StateOk(p, st)
    ensures StepsOk(p, Survivors(steps))
    ensures RunSteps(p, sem, Survivors(steps), st) == RunSteps(p, sem, steps, st)
  {
    if steps != [] {
      var front := steps[..|steps| - 1];
      SurvivorsRun(p, sem, front, st);
      var r := Survivors(steps);
      if steps[|steps| - 1] != Erased {
        assert r[..|r| - 1] == Survivors(front);
      }
    }
  }

  /** The list writes `t`, or the original never did. */
  ghost predicate StillDefined(p: Program, list: seq<Step>, t: Tensor)
  {
    (exists i :: 0 <= i < |list| && Writes(list[i], t)) || Available(p, t, 0)
  }

  lemma KeepsPace(g: Pass, literal: Tensor -> Scalar, sem: Semantics, orders: seq<seq<nat>>, kernels: seq<Kernel>,
                  steps: seq<Step>, st: State)
    requires PassOk(g) && Rewritten(g.program, literal, g.sets, orders, kernels, steps)
    requires AllProducersFirst(g.program, orders)
    requires StateOk(g.program, st) && LiteralsMatch(g.program, literal, st)
    ensures StepsOk(g.program, steps)
    ensures Agrees(g.program, g.sets, Run(g.program, sem, st, |g.program.commands|),
                   RunSteps(g.program, sem, steps, st), |steps|)
  {
    var final := Run(g.program, sem, st, |g.program.commands|);
    FinalState(g.program, literal, sem, st, g.sets);
    forall i: nat | i < |steps|
      ensures StepOk(g.program, steps[i])
    {
      SlotWrites(g, literal, orders, kernels, steps, i);
    }
    forall j: nat, s: State | j < |steps| && StateOk(g.program, s) && Agrees(g.program, g.sets, final, s, j)
      ensures Agrees(g.program, g.sets, final, RunStep(g.program, sem, steps[j], s), j + 1)
    {
      StepAgrees(g, literal, sem, orders, kernels, steps, final, s, j);
    }
    StepsAgree(g.program, sem, g.sets, steps, final, st, |steps|);
    assert steps[..|steps|] == steps;
  }

  /** Each slot is erased, or still writes what its command wrote. */
  lemma SlotWrites(g: Pass, literal: Tensor -> Scalar, orders: seq<seq<nat>>, kernels: seq<Kernel>, steps: seq<Step>,
                   i: nat)
    requires PassOk(g) && Rewritten(g.program, literal, g.sets, orders, kernels, steps) && i < |steps|
    ensures StepOk(g.program, steps[i])
    ensures if ErasedBy(g.sets, i) then steps[i] == Erased
            else forall t :: Writes(steps[i], t) <==> t == g.program.commands[i].output
  {
    assert Shaped(g.program, g.program.commands[i]);
    if a :| 0 <= a < |g.sets| && i in g.sets[a] {
      SetSlotWrites(g, literal, orders, kernels, steps, a, i);
    }
  }

  lemma SetSlotWrites(g: Pass, literal: Tensor -> Scalar, orders: seq<seq<nat>>, kernels: seq<Kernel>, steps: seq<Step>,
                      a: nat, i: nat)
    requires PassOk(g) && Rewritten(g.program, literal, g.sets, orders, kernels, steps) && i < |steps|
    requires a < |g.sets| && i in g.sets[a]
    ensures StepOk(g.program, steps[i])
    ensures if i != Last(g.sets[a]) then ErasedBy(g.sets, i) && steps[i] == Erased
            else !ErasedBy(g.sets, i) && forall t :: Writes(steps[i], t) <==> t == g.program.commands[i].output
  {
    if i == Last(g.sets[a]) {
      SingleStore(g, literal, a, orders[a], kernels[a]);
      RootSlot(g.program, literal, g.sets, a, orders, kernels, steps);
      assert Shaped(g.program, g.program.commands[i]);
      RootNotErased(g.sets, a);
    } else {
      MemberSlot(g.program, literal, g.sets, a, orders, kernels, steps, i);
      assert g.sets[a] != [];
    }
  }

  lemma RootSlot(p: Program, literal: Tensor -> Scalar, sets: seq<seq<nat>>, a: nat, orders: seq<seq<nat>>,
                 kernels: seq<Kernel>, steps: seq<Step>)
    requires Rewritten(p, literal, sets, orders, kernels, steps) && a < |sets|
    ensures Last(sets[a]) < |steps| && steps[Last(sets[a])] == Fused(kernels[a])
  {
    var k := |sets[a]| - 1;
    assert sets[a] != [] && sets[a][k] == Last(sets[a]);
  }

  lemma MemberSlot(p: Program, literal: Tensor -> Scalar, sets: seq<seq<nat>>, a: nat, orders: seq<seq<nat>>,
                   kernels: seq<Kernel>, steps: seq<Step>, i: nat)
    requires Rewritten(p, literal, sets, orders, kernels, steps) && a < |sets| && i in sets[a] && i != Last(sets[a])
    ensures i < |steps| && steps[i] == Erased
  {
    var k :| 0 <= k < |sets[a]| && sets[a][k] == i;
  }

  lemma RootNotErased(sets: seq<seq<nat>>, a: nat)
    requires a < |sets| && sets[a] != []
    requires forall a, b :: 0 <= a < b < |sets| ==> Disjoint(sets[a], sets[b])
    ensures !ErasedBy(sets, Last(sets[a]))
  {
    forall b | 0 <= b < |sets| && Last(sets[a]) in sets[b]
      ensures a == b
    {
    }
  }

  lemma GoneIsUnwritten(g: Pass, literal: Tensor -> Scalar, orders: seq<seq<nat>>, kernels: seq<Kernel>,
                        steps: seq<Step>, t: Tensor)
    requires PassOk(g) && Rewritten(g.program, literal, g.sets, orders, kernels, steps)
    ensures Gone(g.program, g.sets, t) <==> !StillDefined(g.program, steps, t)
  {
    forall i: nat | i < |steps|
      ensures Writes(steps[i], t) <==> !ErasedBy(g.sets, i) && t == g.program.commands[i].output
    {
      SlotWrites(g, literal, orders, kernels, steps, i);
    }
    GoneIff(g.program, g.sets, steps, t);
  }

  lemma GoneIff(p: Program, sets: seq<seq<nat>>, steps: seq<Step>, t: Tensor)
    requires WrittenOnce(p) && |steps| == |p.commands|
    requires forall i: nat :: i < |steps| ==> (Writes(steps[i], t) <==> !ErasedBy(sets, i) && t == p.commands[i].output)
    ensures Gone(p, sets, t) <==> !StillDefined(p, steps, t)
  {
    if Gone(p, sets, t) {
      var x: nat :| x < |p.commands| && ErasedBy(sets, x) && p.commands[x].output == t;
      assert forall i :: 0 <= i < |steps| && i != x ==> p.commands[i].output != t;
    } else if !Available(p, t, 0) {
      var j: nat :| j < |p.commands| && p.commands[j].output == t;
      assert Writes(steps[j], t);
    }
  }

  /** Running `list` instead of the original program cannot be told apart on the tensors it still defines. */
  ghost predicate Preserves(p: Program, literal: Tensor -> Scalar, list: seq<Step>)
    requires WellFormed(p)
  {
    && StepsOk(p, list)
    && forall sem: Semantics, st: State :: StateOk(p, st) && LiteralsMatch(p, literal, st) ==>
         forall t: Tensor :: t < |p.sizes| && StillDefined(p, list, t) ==>
           RunSteps(p, sem, list, st)[t] == Run(p, sem, st, |p.commands|)[t]
  }

  lemma FusionPreservesMeaning(
    g: Pass, literal: Tensor -> Scalar, orders: seq<seq<nat>>, kernels: seq<Kernel>, steps: seq<Step>)
    requires PassOk(g) && Rewritten(g.program, literal, g.sets, orders, kernels, steps)
    requires AllProducersFirst(g.program, orders)
    ensures Preserves(g.program, literal, Survivors(steps))
  {
    var list := Survivors(steps);
    StepsAreOk(g, literal, orders, kernels, steps);
    forall sem: Semantics, st: State, t: Tensor | StateOk(g.program, st) && LiteralsMatch(g.program, literal, st)
                                                  && t < |g.program.sizes| && StillDefined(g.program, list, t)
      ensures RunSteps(g.program, sem, list, st)[t] == Run(g.program, sem, st, |g.program.commands|)[t]
    {
      SurvivorKeepsValue(g, literal, sem, orders, kernels, steps, st, t);
    }
  }

  lemma SurvivorKeepsValue(g: Pass, literal: Tensor -> Scalar, sem: Semantics, orders: seq<seq<nat>>,
                           kernels: seq<Kernel>, steps: seq<Step>, st: State, t: Tensor)
    requires PassOk(g) && Rewritten(g.program, literal, g.sets, orders, kernels, steps)
    requires AllProducersFirst(g.program, orders) && StepsOk(g.program, Survivors(steps))
    requires StateOk(g.program, st) && LiteralsMatch(g.program, literal, st)
    requires t < |g.program.sizes| && StillDefined(g.program, Survivors(steps), t)
    ensures RunSteps(g.program, sem, Survivors(steps), st)[t] == Run(g.program, sem, st, |g.program.commands|)[t]
  {
    assert steps[..|steps|] == steps;
    KeepsPace(g, literal, sem, orders, kernels, steps, st);
    SurvivorsRun(g.program, sem, steps, st);
    DefinedBefore(g.program, steps, t);
    GoneIsUnwritten(g, literal, orders, kernels, steps, t);
  }

  lemma DefinedBefore(p: Program, steps: seq<Step>, t: Tensor)
    requires StillDefined(p, Survivors(steps), t)
    ensures StillDefined(p, steps, t)
  {
    var list := Survivors(steps);
    if i :| 0 <= i < |list| && Writes(list[i], t) {
      assert list[i] in list && list[i] in steps;
    }
  }

  lemma StepsAreOk(g: Pass, literal: Tensor -> Scalar, orders: seq<seq<nat>>, kernels: seq<Kernel>, steps: seq<Step>)
    requires PassOk(g) && Rewritten(g.program, literal, g.sets, orders, kernels, steps)
    ensures StepsOk(g.program, Survivors(steps))
  {
    var list := Survivors(steps);
    forall i | 0 <= i < |list|
      ensures StepOk(g.program, list[i])
    {
      assert list[i] in steps;
      var x: nat :| x < |steps| && steps[x] == list[i];
      SlotWrites(g, literal, orders, kernels, steps, x);
    }
  }

  // --- The pass itself ---

  /** Puts one kernel in the slot of its root and erases the other members. */
  method ReplaceSet(steps0: seq<Step>, s: seq<nat>, kernel: Kernel) returns (steps: seq<Step>)
    requires NoDup(s) && Below(s, |steps0|) && s != []
    ensures |steps| == |steps0|
    ensures forall i :: 0 <= i < |s| ==> steps[s[i]] == if i == |s| - 1 then Fused(kernel) else Erased
    ensures forall x :: 0 <= x < |steps| && x !in s ==> steps[x] == steps0[x]
  {
    steps := steps0;
    for i := 0 to |s|
      invariant |steps| == |steps0|
      invariant forall j :: 0 <= j < i ==> steps[s[j]] == if j == |s| - 1 then Fused(kernel) else Erased
      invariant forall x :: 0 <= x < |steps| && x !in s[..i] ==> steps[x] == steps0[x]
    {
      assert s[i] !in s[..i] && s[..i + 1] == s[..i] + [s[i]];
      if i == |s| - 1 {
        steps := steps[s[i] := Fused(kernel)];
      } else {
        steps := steps[s[i] := Erased];
      }
    }
    assert s[..|s|] == s;
  }

  lemma ReplacedSet(p: Program, literal: Tensor -> Scalar, sets: seq<seq<nat>>, m: nat, orders: seq<seq<nat>>,
                    kernels: seq<Kernel>, steps0: seq<Step>, order: seq<nat>, kernel: Kernel, steps: seq<Step>)
    requires m < |sets| && RewrittenUpTo(p, literal, sets, m, orders, kernels, steps0)
    requires sets[m] != [] && Below(sets[m], |steps0|)
    requires forall a :: 0 <= a < m ==> Disjoint(sets[a], sets[m])
    requires KernelOf(p, literal, sets[m], order, kernel) && |steps| == |steps0|
    requires forall i :: 0 <= i < |sets[m]| ==>
               steps[sets[m][i]] == if i == |sets[m]| - 1 then Fused(kernel) else Erased
    requires forall x :: 0 <= x < |steps| && x !in sets[m] ==> steps[x] == steps0[x]
    ensures RewrittenUpTo(p, literal, sets, m + 1, orders + [order], kernels + [kernel], steps)
  {
    forall a, i | 0 <= a < m && 0 <= i < |sets[a]|
      ensures steps[sets[a][i]] == steps0[sets[a][i]]
    {
      assert sets[a][i] in sets[a] && Disjoint(sets[a], sets[m]);
    }
  }

  lemma NoTiesFirst(g: Pass, literal: Tensor -> Scalar, orders: seq<seq<nat>>, kernels: seq<Kernel>, steps: seq<Step>)
    requires PassOk(g) && Rewritten(g.program, literal, g.sets, orders, kernels, steps)
    requires forall a :: 0 <= a < |g.sets| ==> NoTies(g.program, g.sets[a])
    ensures AllProducersFirst(g.program, orders)
  {
    forall a | 0 <= a < |orders|
      ensures ProducersFirst(g.program, orders[a])
    {
      SortPutsProducersFirst(g.program, g.sets[a], orders[a]);
    }
  }

  /** Kernel generation and command rewriting for all fuse sets, then removal of the erased commands. */
  method Codegen(g: Pass, literal: Tensor -> Scalar)
    returns (list: seq<Step>, ghost orders: seq<seq<nat>>, ghost kernels: seq<Kernel>, ghost steps: seq<Step>)
    requires PassOk(g)
    ensures Rewritten(g.program, literal, g.sets, orders, kernels, steps) && list == Survivors(steps)
    ensures AllProducersFirst(g.program, orders) ==> Preserves(g.program, literal, list)
    ensures (forall a :: 0 <= a < |g.sets| ==> NoTies(g.program, g.sets[a])) ==> Preserves(g.program, literal, list)
  {
    var p := g.program;
    var slots := seq(|p.commands|, i requires 0 <= i < |p.commands| => Plain(p.commands[i]));
    orders, kernels := [], [];
    for m := 0 to |g.sets|
      invariant |slots| == |p.commands|
      invariant RewrittenUpTo(p, literal, g.sets, m, orders, kernels, slots)
    {
      var s := g.sets[m];
      assert FuseSetOk(g.succ, g.dom, g.legal, s);
      var kernel;
      ghost var order;
      kernel, order := BuildKernel(p, literal, s);
      ghost var slots0 := slots;
      slots := ReplaceSet(slots, s, kernel);
      ReplacedSet(p, literal, g.sets, m, orders, kernels, slots0, order, kernel, slots);
      orders, kernels := orders + [order], kernels + [kernel];
    }
    list, steps := Survivors(slots), slots;
    if forall a :: 0 <= a < |g.sets| ==> NoTies(g.program, g.sets[a]) {
      NoTiesFirst(g, literal, orders, kernels, steps);
    }
    if AllProducersFirst(p, orders) {
      FusionPreservesMeaning(g, literal, orders, kernels, steps);
    }
  }

  /** `opFuse`: graph, dominator tree, fuse sets, kernels. With strict indices no set has a tie. */
  method OpFuse(p: Program, literal: Tensor -> Scalar)
    returns (list: seq<Step>, g: Pass, ghost orders: seq<seq<nat>>, ghost kernels: seq<Kernel>, ghost steps: seq<Step>)
    requires WellFormed(p)
    ensures PassOk(g) && g.program == p && AllFound(g.succ, g.dom, g.legal, g.sets)
    ensures forall n :: 0 <= n < |g.succ| ==> Climbed(p.topo, g.succ, g.dom, n)
    ensures Rewritten(p, literal, g.sets, orders, kernels, steps) && list == Survivors(steps)
    ensures (forall a :: 0 <= a < |g.sets| ==> NoTies(p, g.sets[a])) ==> Preserves(p, literal, list)
    ensures StrictTopo(p) ==> Preserves(p, literal, list)
  {
    var graph := new Graph(p);
    var queue := graph.BuildDominateTree();
    var sets := graph.FindFuseSets(queue);
    g := Pass(p, graph.succ, graph.domPred, graph.legal, sets);
    if StrictTopo(p) {
      forall a | 0 <= a < |sets|
        ensures NoTies(p, sets[a])
      {
        StrictHasNoTies(p, sets[a]);
      }
    }
    list, orders, kernels, steps := Codegen(g, literal);
  }
}
