/** The straight-line kernel that replaces a fuse set, and how `buildKernel` emits it. */
module FusedKernel {
  import opened Commands

  /** `Load` reads an input slot at the current offset, `LoadScalar` at offset 0, and `Number` is
      a literal taken from a single-element constant. */
  datatype Instr =
    | Load(dst: nat, slot: nat)
    | LoadScalar(dst: nat, slot: nat)
    | Number(dst: nat, value: Scalar)
    | Compute(dst: nat, op: nat, args: seq<nat>)

  /** Output slot `i` stores variable `stores[i]` into tensor `outputs[i]`. */
  datatype Kernel = Kernel(inputs: seq<Tensor>, outputs: seq<Tensor>, body: seq<Instr>, stores: seq<nat>)

  // --- Running a kernel ---

  function At(sem: Semantics, v: seq<Scalar>, i: nat): Scalar
  {
    if i < |v| then v[i] else sem.zero
  }

  function Slot(st: State, inputs: seq<Tensor>, slot: nat): seq<Scalar>
  {
    if slot < |inputs| then Whole(st, inputs[slot]) else []
  }

  function Var(sem: Semantics, env: map<nat, Scalar>, v: nat): Scalar
  {
    if v in env then env[v] else sem.zero
  }

  function Vars(sem: Semantics, env: map<nat, Scalar>, vs: seq<nat>): (r: seq<Scalar>)
    ensures |r| == |vs| && forall i :: 0 <= i < |vs| ==> r[i] == Var(sem, env, vs[i])
  {
    if vs == [] then [] else [Var(sem, env, vs[0])] + Vars(sem, env, vs[1..])
  }

  /** The variables after the body has run at offset `k`. */
  function Exec(sem: Semantics, st: State, inputs: seq<Tensor>, body: seq<Instr>, k: nat): map<nat, Scalar>
  {
    if body == [] then map[]
    else
      var env := Exec(sem, st, inputs, body[..|body| - 1], k);
      match body[|body| - 1]
      case Load(dst, slot) => env[dst := At(sem, Slot(st, inputs, slot), k)]
      case LoadScalar(dst, slot) => env[dst := At(sem, Slot(st, inputs, slot), 0)]
      case Number(dst, value) => env[dst := value]
      case Compute(dst, op, args) => env[dst := sem.pointwise(op, Vars(sem, env, args))]
  }

  /** What the body leaves in variable `v` for element `k`. */
  function StoredElem(sem: Semantics, kernel: Kernel, st: State, k: nat, v: nat): Scalar
  {
    Var(sem, Exec(sem, st, kernel.inputs, kernel.body, k), v)
  }

  function Stored(p: Program, sem: Semantics, kernel: Kernel, st: State, i: nat): (v: seq<Scalar>)
    requires i < |kernel.outputs| && i < |kernel.stores| && kernel.outputs[i] < |p.sizes|
    ensures |v| == p.sizes[kernel.outputs[i]]
    ensures forall k :: 0 <= k < |v| ==> v[k] == StoredElem(sem, kernel, st, k, kernel.stores[i])
  {
    seq(p.sizes[kernel.outputs[i]],
        k => if k < 0 then sem.zero else StoredElem(sem, kernel, st, k, kernel.stores[i]))
  }

  ghost predicate KernelOk(p: Program, kernel: Kernel)
  {
    |kernel.stores| == |kernel.outputs| && forall i :: 0 <= i < |kernel.outputs| ==> kernel.outputs[i] < |p.sizes|
  }

  /** All stores of the kernel, each read off the state the kernel started in. */
  ghost function RunKernel(p: Program, sem: Semantics, kernel: Kernel, st: State, n: nat): (r: State)
    requires KernelOk(p, kernel) && StateOk(p, st) && n <= |kernel.outputs|
    ensures StateOk(p, r)
  {
    if n == 0 then st
    else RunKernel(p, sem, kernel, st, n - 1)[kernel.outputs[n - 1] := Stored(p, sem, kernel, st, n - 1)]
  }

  // --- Emitting a kernel ---

  /** `VarScope` and the text emitted so far. */
  datatype Scope = Scope(vars: map<Tensor, nat>, nextVar: nat, inputs: seq<Tensor>, used: set<Tensor>, body: seq<Instr>)

  const EMPTY_SCOPE := Scope(map[], 0, [], {}, [])

  /** Naming a tensor never renames one that already has a variable. */
  function AddVar(s: Scope, t: Tensor): Scope
  {
    s.(vars := if t in s.vars then s.vars else s.vars[t := s.nextVar], nextVar := s.nextVar + 1)
  }

  predicate IsLiteral(p: Program, t: Tensor)
  {
    t < |p.sizes| && p.sizes[t] == 1 && t in p.constants
  }

  /** One input of a node: a variable already in scope, a literal, or a load from a new input slot. */
  function Read(p: Program, literal: Tensor -> Scalar, s: Scope, t: Tensor): Scope
  {
    if t in s.vars then s.(used := s.used + {t})
    else
      var s1 := AddVar(s, t).(used := s.used + {t});
      if IsLiteral(p, t) then s1.(body := s.body + [Number(s.nextVar, literal(t))])
      else if t < |p.sizes| && p.sizes[t] == 1 then
        s1.(body := s.body + [LoadScalar(s.nextVar, |s.inputs|)], inputs := s.inputs + [t])
      else
        s1.(body := s.body + [Load(s.nextVar, |s.inputs|)], inputs := s.inputs + [t])
  }

  function ReadAll(p: Program, literal: Tensor -> Scalar, s: Scope, ts: seq<Tensor>): (r: Scope)
    ensures forall i :: 0 <= i < |ts| ==> ts[i] in r.vars
  {
    if ts == [] then s
    else
      Read(p, literal, ReadAll(p, literal, s, ts[..|ts| - 1]), ts[|ts| - 1])
  }

  lemma {:induction false} ReadAllScope(p: Program, literal: Tensor -> Scalar, s: Scope, ts: seq<Tensor>, t: Tensor)
    ensures var r := ReadAll(p, literal, s, ts);
            && (t in r.vars <==> t in s.vars || t in ts)
            && (t in r.used <==> t in s.used || t in ts)
  {
    if ts != [] {
      ReadAllScope(p, literal, s, ts[..|ts| - 1], t);
      assert ts == ts[..|ts| - 1] + [ts[|ts| - 1]];
    }
  }

  function Names(s: Scope, ts: seq<Tensor>): (r: seq<nat>)
    requires forall i :: 0 <= i < |ts| ==> ts[i] in s.vars
    ensures |r| == |ts| && forall i :: 0 <= i < |ts| ==> r[i] == s.vars[ts[i]]
  {
    seq(|ts|, i requires 0 <= i < |ts| => s.vars[ts[i]])
  }

  function Emit(p: Program, literal: Tensor -> Scalar, s: Scope, c: Command): Scope
  {
    var s1 := ReadAll(p, literal, s, c.inputs);
    AddVar(s1, c.output).(body := s1.body + [Compute(s1.nextVar, c.op, Names(s1, c.inputs))])
  }

  function EmitAll(p: Program, literal: Tensor -> Scalar, order: seq<nat>): Scope
  {
    if order == [] then EMPTY_SCOPE
    else
      var s := EmitAll(p, literal, order[..|order| - 1]);
      var i := order[|order| - 1];
      if i < |p.commands| then Emit(p, literal, s, p.commands[i]) else s
  }

  // --- Every variable in scope holds the element of its tensor ---

  ghost predicate SlotsBelow(body: seq<Instr>, n: nat)
  {
    forall i :: 0 <= i < |body| ==>
      match body[i] case Load(_, slot) => slot < n case LoadScalar(_, slot) => slot < n case _ => true
  }

  lemma {:induction false} ExecMoreInputs(
    sem: Semantics, st: State, inputs: seq<Tensor>, t: Tensor, body: seq<Instr>, k: nat)
    requires SlotsBelow(body, |inputs|)
    ensures Exec(sem, st, inputs + [t], body, k) == Exec(sem, st, inputs, body, k)
    decreases |body|
  {
    if body != [] {
      ExecMoreInputs(sem, st, inputs, t, body[..|body| - 1], k);
    }
  }

  lemma {:induction false} ExecAgrees(sem: Semantics, st: State, st': State, inputs: seq<Tensor>, body: seq<Instr>,
                                      k: nat)
    requires forall t :: t in inputs ==> Whole(st, t) == Whole(st', t)
    ensures Exec(sem, st, inputs, body, k) == Exec(sem, st', inputs, body, k)
    decreases |body|
  {
    if body != [] {
      ExecAgrees(sem, st, st', inputs, body[..|body| - 1], k);
      assert forall slot: nat :: Slot(st, inputs, slot) == Slot(st', inputs, slot);
    }
  }

  ghost predicate LiteralsMatch(p: Program, literal: Tensor -> Scalar, st: State)
  {
    forall t: Tensor :: t < |st| && IsLiteral(p, t) && |st[t]| == 1 ==> literal(t) == st[t][0]
  }

  ghost predicate Sound(sem: Semantics, st: State, s: Scope, k: nat)
  {
    var env := Exec(sem, st, s.inputs, s.body, k);
    && SlotsBelow(s.body, |s.inputs|)
    && (forall v :: v in env ==> v < s.nextVar)
    && (forall t :: t in s.vars ==> s.vars[t] in env && env[s.vars[t]] == Elem(sem, Whole(st, t), k))
  }

  /** Appending an instruction that puts the element of `t` into the next variable. */
  lemma AppendSound(sem: Semantics, st: State, s: Scope, s': Scope, instr: Instr, t: Tensor, k: nat)
    requires Sound(sem, st, s, k)
    requires s'.vars == AddVar(s, t).vars && s'.nextVar == s.nextVar + 1
    requires s'.body == s.body + [instr] && SlotsBelow([instr], |s'.inputs|)
    requires s'.inputs == s.inputs || s'.inputs == s.inputs + [t]
    requires Exec(sem, st, s'.inputs, s.body + [instr], k) ==
             Exec(sem, st, s'.inputs, s.body, k)[s.nextVar := Elem(sem, Whole(st, t), k)]
    ensures Sound(sem, st, s', k)
  {
    if s'.inputs == s.inputs + [t] {
      ExecMoreInputs(sem, st, s.inputs, t, s.body, k);
    }
    assert SlotsBelow(s'.body, |s'.inputs|) by {
      assert [instr][0] == instr;
      assert forall i :: 0 <= i < |s.body| ==> s'.body[i] == s.body[i];
    }
  }

  lemma ReadSound(p: Program, literal: Tensor -> Scalar, sem: Semantics, st: State, s: Scope, t: Tensor, k: nat)
    requires StateOk(p, st) && LiteralsMatch(p, literal, st) && t < |st|
    requires Sound(sem, st, s, k)
    ensures Sound(sem, st, Read(p, literal, s, t), k)
  {
    if t !in s.vars {
      var r := Read(p, literal, s, t);
      var instr := r.body[|s.body|];
      assert r.body[..|r.body| - 1] == s.body;
      assert |st[t]| == p.sizes[t];
      AppendSound(sem, st, s, r, instr, t, k);
    }
  }

  lemma {:induction false} ReadAllSound(
    p: Program, literal: Tensor -> Scalar, sem: Semantics, st: State, s: Scope, ts: seq<Tensor>, k: nat)
    requires StateOk(p, st) && LiteralsMatch(p, literal, st) && forall i :: 0 <= i < |ts| ==> ts[i] < |st|
    requires Sound(sem, st, s, k)
    ensures Sound(sem, st, ReadAll(p, literal, s, ts), k)
  {
    if ts != [] {
      ReadAllSound(p, literal, sem, st, s, ts[..|ts| - 1], k);
      ReadSound(p, literal, sem, st, ReadAll(p, literal, s, ts[..|ts| - 1]), ts[|ts| - 1], k);
    }
  }

  /** At any offset inside its output, an element-wise command computes what its tensor shows there. */
  lemma OutputSeen(p: Program, sem: Semantics, st: State, c: Command, k: nat)
    requires StateOk(p, st) && Shaped(p, c) && c.elementWise
    requires st[c.output] == Output(p, sem, c, st)
    requires p.sizes[c.output] == 1 || k < p.sizes[c.output]
    ensures sem.pointwise(c.op, ElemArgs(sem, st, c.inputs, k)) == Elem(sem, st[c.output], k)
  {
    if p.sizes[c.output] == 1 {
      assert forall i :: 0 <= i < |c.inputs| ==> c.inputs[i] in c.inputs;
      assert ElemArgs(sem, st, c.inputs, k) == ElemArgs(sem, st, c.inputs, 0);
      assert st[c.output][0] == OutputElem(sem, c, st, 0);
    }
  }

  lemma ArgsSeen(sem: Semantics, st: State, s: Scope, ts: seq<Tensor>, k: nat)
    requires Sound(sem, st, s, k) && forall i :: 0 <= i < |ts| ==> ts[i] in s.vars
    ensures Vars(sem, Exec(sem, st, s.inputs, s.body, k), Names(s, ts)) == ElemArgs(sem, st, ts, k)
  {
  }

  lemma ComputeSound(sem: Semantics, st: State, s: Scope, c: Command, k: nat)
    requires Sound(sem, st, s, k) && forall i :: 0 <= i < |c.inputs| ==> c.inputs[i] in s.vars
    requires sem.pointwise(c.op, ElemArgs(sem, st, c.inputs, k)) == Elem(sem, Whole(st, c.output), k)
    ensures Sound(sem, st, AddVar(s, c.output).(body := s.body + [Compute(s.nextVar, c.op, Names(s, c.inputs))]), k)
  {
    ArgsSeen(sem, st, s, c.inputs, k);
    var instr := Compute(s.nextVar, c.op, Names(s, c.inputs));
    assert (s.body + [instr])[..|s.body|] == s.body;
    AppendSound(sem, st, s, AddVar(s, c.output).(body := s.body + [instr]), instr, c.output, k);
  }

  lemma EmitSound(p: Program, literal: Tensor -> Scalar, sem: Semantics, st: State, s: Scope, c: Command, k: nat)
    requires StateOk(p, st) && LiteralsMatch(p, literal, st) && forall i :: 0 <= i < |c.inputs| ==> c.inputs[i] < |st|
    requires sem.pointwise(c.op, ElemArgs(sem, st, c.inputs, k)) == Elem(sem, Whole(st, c.output), k)
    requires Sound(sem, st, s, k)
    ensures Sound(sem, st, Emit(p, literal, s, c), k)
  {
    ReadAllSound(p, literal, sem, st, s, c.inputs, k);
    var s1 := ReadAll(p, literal, s, c.inputs);
    assert forall i :: 0 <= i < |c.inputs| ==> c.inputs[i] in s1.vars;
    ComputeSound(sem, st, s1, c, k);
  }

  /** The commands of a kernel are element-wise, explained by `st`, and at offset `k` inside their outputs. */
  ghost predicate Covers(p: Program, sem: Semantics, st: State, order: seq<nat>, k: nat)
  {
    forall a :: 0 <= a < |order| ==>
      && order[a] < |p.commands|
      && var c := p.commands[order[a]];
         && Shaped(p, c) && c.elementWise
         && Whole(st, c.output) == Output(p, sem, c, st) && (p.sizes[c.output] == 1 || k < p.sizes[c.output])
  }

  lemma {:induction false} EmitAllSound(
    p: Program, literal: Tensor -> Scalar, sem: Semantics, st: State, order: seq<nat>, k: nat)
    requires StateOk(p, st) && LiteralsMatch(p, literal, st) && Covers(p, sem, st, order, k)
    ensures Sound(sem, st, EmitAll(p, literal, order), k)
  {
    if order != [] {
      EmitAllSound(p, literal, sem, st, order[..|order| - 1], k);
      var c := p.commands[order[|order| - 1]];
      assert forall i :: 0 <= i < |c.inputs| ==> c.inputs[i] in c.inputs;
      OutputSeen(p, sem, st, c, k);
      EmitSound(p, literal, sem, st, EmitAll(p, literal, order[..|order| - 1]), c, k);
    }
  }

  // --- What ends up in scope ---

  ghost predicate ReadBy(p: Program, order: seq<nat>, t: Tensor)
  {
    exists a :: 0 <= a < |order| && order[a] < |p.commands| && t in p.commands[order[a]].inputs
  }

  ghost predicate WrittenBy(p: Program, order: seq<nat>, t: Tensor)
  {
    exists a :: 0 <= a < |order| && order[a] < |p.commands| && t == p.commands[order[a]].output
  }

  lemma {:induction false} InScope(p: Program, literal: Tensor -> Scalar, order: seq<nat>, t: Tensor)
    ensures var s := EmitAll(p, literal, order);
            && (t in s.used <==> ReadBy(p, order, t))
            && (t in s.vars <==> ReadBy(p, order, t) || WrittenBy(p, order, t))
  {
    if order != [] {
      var front, i := order[..|order| - 1], order[|order| - 1];
      InScope(p, literal, front, t);
      if i < |p.commands| {
        ReadAllScope(p, literal, EmitAll(p, literal, front), p.commands[i].inputs, t);
      }
      assert forall a :: 0 <= a < |front| ==> order[a] == front[a];
      assert order[|order| - 1] == i;
      assert ReadBy(p, order, t) <==> ReadBy(p, front, t) || (i < |p.commands| && t in p.commands[i].inputs);
      assert WrittenBy(p, order, t) <==> WrittenBy(p, front, t) || (i < |p.commands| && t == p.commands[i].output);
    }
  }

  /** Producers come before their consumers. */
  ghost predicate ProducersFirst(p: Program, order: seq<nat>)
  {
    forall a, b :: 0 <= a <= b < |order| ==> !Feeds(p, order[b], order[a])
  }

  lemma {:induction false} ReadAllInputs(
    p: Program, literal: Tensor -> Scalar, s: Scope, ts: seq<Tensor>, t: Tensor)
    ensures t in ReadAll(p, literal, s, ts).inputs ==> t in s.inputs || (t in ts && t !in s.vars)
    ensures t in s.inputs ==> t in ReadAll(p, literal, s, ts).inputs
    ensures t in ts && t !in s.vars && !IsLiteral(p, t) ==> t in ReadAll(p, literal, s, ts).inputs
  {
    if ts != [] {
      ReadAllInputs(p, literal, s, ts[..|ts| - 1], t);
      ReadAllScope(p, literal, s, ts[..|ts| - 1], t);
      assert ts == ts[..|ts| - 1] + [ts[|ts| - 1]];
    }
  }

  /** With producers first, the kernel loads only tensors that none of its own commands write. */
  lemma {:induction false} InputsAreExternal(p: Program, literal: Tensor -> Scalar, order: seq<nat>, t: Tensor)
    requires ProducersFirst(p, order)
    requires t in EmitAll(p, literal, order).inputs
    ensures ReadBy(p, order, t) && !WrittenBy(p, order, t)
  {
    if order != [] {
      var front, i := order[..|order| - 1], order[|order| - 1];
      var s := EmitAll(p, literal, front);
      InScope(p, literal, front, t);
      assert forall a :: 0 <= a < |front| ==> order[a] == front[a];
      assert forall a :: 0 <= a < |order| ==> !Feeds(p, order[|order| - 1], order[a]);
      if t in s.inputs {
        InputsAreExternal(p, literal, front, t);
      } else {
        ReadAllInputs(p, literal, s, p.commands[i].inputs, t);
      }
    }
  }
}
