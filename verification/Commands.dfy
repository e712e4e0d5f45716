/** The command list that the fusion pass rewrites, and what running it means.

    A command reads whole tensors and writes one tensor.  An element-wise command
    computes element k of its output from element k of each input, where an input
    holding a single element is broadcast.  Every other command is an arbitrary
    function of its whole inputs. */
module Commands {

  type Tensor = nat

  /** The element type: nothing is known about it. */
  type Scalar(==, !new)

  type State = seq<seq<Scalar>>

  datatype Semantics = Semantics(
    zero: Scalar,
    pointwise: (nat, seq<Scalar>) -> Scalar,
    whole: (nat, seq<seq<Scalar>>, nat) -> Scalar)

  /** `legal` is the verdict of `isLegal`: it may add backend limits to being element-wise. */
  datatype Command = Command(op: nat, elementWise: bool, legal: bool, inputs: seq<Tensor>, output: Tensor)

  /** `sizes` holds the element count of each tensor, `constants` the tensors whose usage is CONSTANT,
      and `topo` the `OpCacheInfo` index of each command. */
  datatype Program = Program(
    commands: seq<Command>,
    sizes: seq<nat>,
    constants: set<Tensor>,
    topo: seq<nat>)

  /** Command `j` reads what command `i` writes. */
  ghost predicate Feeds(p: Program, i: nat, j: nat)
  {
    i < |p.commands| && j < |p.commands| && p.commands[i].output in p.commands[j].inputs
  }

  predicate Shaped(p: Program, c: Command)
  {
    && c.output < |p.sizes|
    && (forall t :: t in c.inputs ==> t < |p.sizes|)
    && (c.legal ==> c.elementWise)
    && (c.elementWise ==> forall t :: t in c.inputs ==> p.sizes[t] == 1 || p.sizes[t] == p.sizes[c.output])
  }

  /** Every tensor is written at most once, and never after (or while) it is read. */
  ghost predicate WrittenOnce(p: Program)
  {
    && (forall i, j :: 0 <= i < j < |p.commands| ==> p.commands[i].output != p.commands[j].output)
    && (forall i, j :: 0 <= i <= j < |p.commands| ==> p.commands[j].output !in p.commands[i].inputs)
    && (forall i :: 0 <= i < |p.commands| ==> p.commands[i].output !in p.constants)
  }

  ghost predicate WellFormed(p: Program)
  {
    && (forall i :: 0 <= i < |p.commands| ==> Shaped(p, p.commands[i]))
    && WrittenOnce(p)
    && |p.topo| == |p.commands|
    && (forall i, j :: 0 <= i < j < |p.topo| ==> p.topo[i] <= p.topo[j])
  }

  /** One command per `OpCacheInfo`. */
  ghost predicate StrictTopo(p: Program)
  {
    forall i, j :: 0 <= i < j < |p.topo| ==> p.topo[i] < p.topo[j]
  }

  ghost predicate StateOk(p: Program, st: State)
  {
    |st| == |p.sizes| && forall t :: 0 <= t < |st| ==> |st[t]| == p.sizes[t]
  }

  /** Element of a tensor seen from offset `k`, with single-element tensors broadcast. */
  function Elem(sem: Semantics, v: seq<Scalar>, k: nat): Scalar
  {
    if |v| == 1 then v[0] else if k < |v| then v[k] else sem.zero
  }

  function Whole(st: State, t: Tensor): seq<Scalar>
  {
    if t < |st| then st[t] else []
  }

  function ElemArgs(sem: Semantics, st: State, inputs: seq<Tensor>, k: nat): (args: seq<Scalar>)
    ensures |args| == |inputs|
    ensures forall i :: 0 <= i < |inputs| ==> args[i] == Elem(sem, Whole(st, inputs[i]), k)
  {
    if inputs == [] then [] else [Elem(sem, Whole(st, inputs[0]), k)] + ElemArgs(sem, st, inputs[1..], k)
  }

  function WholeArgs(st: State, inputs: seq<Tensor>): (args: seq<seq<Scalar>>)
    ensures |args| == |inputs|
    ensures forall i :: 0 <= i < |inputs| ==> args[i] == Whole(st, inputs[i])
  {
    if inputs == [] then [] else [Whole(st, inputs[0])] + WholeArgs(st, inputs[1..])
  }

  function OutputElem(sem: Semantics, c: Command, st: State, k: nat): Scalar
  {
    if c.elementWise then sem.pointwise(c.op, ElemArgs(sem, st, c.inputs, k))
    else sem.whole(c.op, WholeArgs(st, c.inputs), k)
  }

  /** What command `c` computes in state `st`. */
  function Output(p: Program, sem: Semantics, c: Command, st: State): (v: seq<Scalar>)
    requires Shaped(p, c)
    ensures |v| == p.sizes[c.output]
    ensures forall k :: 0 <= k < |v| ==> v[k] == OutputElem(sem, c, st, k)
  {
    seq(p.sizes[c.output], k => if k < 0 then sem.zero else OutputElem(sem, c, st, k))
  }

  /** The state after the first `n` commands. */
  ghost function Run(p: Program, sem: Semantics, st: State, n: nat): (r: State)
    requires WellFormed(p) && StateOk(p, st) && n <= |p.commands|
    ensures StateOk(p, r)
  {
    if n == 0 then st
    else
      var s := Run(p, sem, st, n - 1);
      var c := p.commands[n - 1];
      s[c.output := Output(p, sem, c, s)]
  }

  /** A tensor keeps its value over a stretch of commands that does not write it. */
  lemma {:induction false} RunKeeps(p: Program, sem: Semantics, st: State, m: nat, n: nat, t: Tensor)
    requires WellFormed(p) && StateOk(p, st) && m <= n <= |p.commands| && t < |p.sizes|
    requires forall i :: m <= i < n ==> p.commands[i].output != t
    ensures Run(p, sem, st, n)[t] == Run(p, sem, st, m)[t]
  {
    if m < n {
      RunKeeps(p, sem, st, m, n - 1, t);
    }
  }

  lemma ArgsAgree(sem: Semantics, inputs: seq<Tensor>, s: State, s': State, k: nat)
    requires forall i :: 0 <= i < |inputs| ==> Whole(s, inputs[i]) == Whole(s', inputs[i])
    ensures ElemArgs(sem, s, inputs, k) == ElemArgs(sem, s', inputs, k) && WholeArgs(s, inputs) == WholeArgs(s', inputs)
  {
  }

  /** States that agree on the inputs of a command give it the same output. */
  lemma OutputDependsOnInputs(p: Program, sem: Semantics, c: Command, s: State, s': State)
    requires Shaped(p, c) && |s| == |p.sizes| == |s'|
    requires forall t :: t in c.inputs ==> s[t] == s'[t]
    ensures Output(p, sem, c, s) == Output(p, sem, c, s')
  {
    forall i | 0 <= i < |c.inputs|
      ensures Whole(s, c.inputs[i]) == Whole(s', c.inputs[i])
    {
      assert c.inputs[i] in c.inputs;
    }
    var v, v' := Output(p, sem, c, s), Output(p, sem, c, s');
    forall k: nat | k < |v|
      ensures v[k] == v'[k]
    {
      ArgsAgree(sem, c.inputs, s, s', k);
    }
  }

  /** The final state explains itself: each written tensor is the output of its command on that same final state. */
  ghost predicate Settled(p: Program, sem: Semantics, final: State)
    requires WellFormed(p)
  {
    forall i :: 0 <= i < |p.commands| ==>
      Whole(final, p.commands[i].output) == Output(p, sem, p.commands[i], final)
  }

  lemma RunSettles(p: Program, sem: Semantics, st: State)
    requires WellFormed(p) && StateOk(p, st)
    ensures Settled(p, sem, Run(p, sem, st, |p.commands|))
    ensures forall t :: 0 <= t < |p.sizes| && (forall i :: 0 <= i < |p.commands| ==> p.commands[i].output != t)
              ==> Run(p, sem, st, |p.commands|)[t] == st[t]
  {
    var n := |p.commands|;
    var final := Run(p, sem, st, n);
    forall i | 0 <= i < n
      ensures Whole(final, p.commands[i].output) == Output(p, sem, p.commands[i], final)
    {
      var c := p.commands[i];
      RunKeeps(p, sem, st, i + 1, n, c.output);
      forall t | t in c.inputs
        ensures final[t] == Run(p, sem, st, i)[t]
      {
        RunKeeps(p, sem, st, i, n, t);
      }
      OutputDependsOnInputs(p, sem, c, final, Run(p, sem, st, i));
    }
    forall t | 0 <= t < |p.sizes| && (forall i :: 0 <= i < n ==> p.commands[i].output != t)
      ensures final[t] == st[t]
    {
      RunKeeps(p, sem, st, 0, n, t);
    }
  }
}
