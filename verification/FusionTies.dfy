/** What equal topological indices do to the fusion pass: a kernel whose order puts a reader before its
    producer computes a wrong value, so that the pass is right for every sorted order exactly when no
    producer and consumer in one fuse set tie. */
module FusionTies {
  import opened Sequences
  import opened Commands
  import opened FuseRegions
  import opened FusedKernel
  import opened Fusion

  // --- A semantics that shows where a scalar comes from ---

  /** `mark` is not the value of any literal, and differs from `plain`. */
  ghost predicate Telling(p: Program, literal: Tensor -> Scalar, mark: Scalar, plain: Scalar)
  {
    mark != plain && forall t: Tensor :: IsLiteral(p, t) ==> literal(t) != mark
  }

  /** Element-wise commands pass the mark on, and nothing else produces it. */
  ghost function Marking(mark: Scalar, plain: Scalar): Semantics
  {
    Semantics(plain, (op, args) => if mark in args then mark else plain, (op, args, k) => plain)
  }

  function Fill(x: Scalar, n: nat): (v: seq<Scalar>)
    ensures |v| == n && forall i :: 0 <= i < n ==> v[i] == x
  {
    seq(n, i => x)
  }

  ghost function Clean(p: Program, literal: Tensor -> Scalar, plain: Scalar, t: Tensor): (v: seq<Scalar>)
    requires t < |p.sizes|
    ensures |v| == p.sizes[t]
  {
    if IsLiteral(p, t) then [literal(t)] else Fill(plain, p.sizes[t])
  }

  /** Literals hold their value, the tensors in `marked` the mark, and all others the plain scalar. */
  ghost function Painted(p: Program, literal: Tensor -> Scalar, mark: Scalar, plain: Scalar,
                         marked: set<Tensor>): (st: State)
    ensures StateOk(p, st)
    ensures forall t :: 0 <= t < |st| ==>
              st[t] == if t in marked then Fill(mark, p.sizes[t]) else Clean(p, literal, plain, t)
  {
    seq(|p.sizes|, t requires 0 <= t < |p.sizes| =>
      if t in marked then Fill(mark, p.sizes[t]) else Clean(p, literal, plain, t))
  }

  lemma PaintedLiterals(p: Program, literal: Tensor -> Scalar, mark: Scalar, plain: Scalar, marked: set<Tensor>)
    requires forall t :: t in marked ==> !IsLiteral(p, t)
    ensures LiteralsMatch(p, literal, Painted(p, literal, mark, plain, marked))
  {
  }

  lemma OutputsAreNotLiterals(p: Program, j: nat)
    requires WellFormed(p) && j < |p.commands|
    ensures p.commands[j].output < |p.sizes| && !IsLiteral(p, p.commands[j].output)
  {
    assert Shaped(p, p.commands[j]);
  }

  /** Some input of the command is marked. */
  ghost predicate ReadsMark(c: Command, marked: set<Tensor>)
  {
    exists i :: 0 <= i < |c.inputs| && c.inputs[i] in marked
  }

  /** An element-wise command shows the mark exactly when it reads a marked tensor. */
  lemma MarkedOutput(p: Program, literal: Tensor -> Scalar, mark: Scalar, plain: Scalar, marked: set<Tensor>,
                     c: Command)
    requires Telling(p, literal, mark, plain) && Shaped(p, c) && c.elementWise
    ensures Output(p, Marking(mark, plain), c, Painted(p, literal, mark, plain, marked)) ==
            Fill(if ReadsMark(c, marked) then mark else plain, p.sizes[c.output])
  {
    var sem, st := Marking(mark, plain), Painted(p, literal, mark, plain, marked);
    forall k: nat | k < p.sizes[c.output]
      ensures OutputElem(sem, c, st, k) == if ReadsMark(c, marked) then mark else plain
    {
      var args := ElemArgs(sem, st, c.inputs, k);
      forall i | 0 <= i < |args|
        ensures args[i] == mark <==> c.inputs[i] in marked
      {
        assert c.inputs[i] in c.inputs;
        ElemMarked(p, literal, mark, plain, marked, c.inputs[i], k);
      }
      if ReadsMark(c, marked) {
        var i :| 0 <= i < |c.inputs| && c.inputs[i] in marked;
        assert args[i] == mark;
      }
    }
  }

  lemma ElemMarked(p: Program, literal: Tensor -> Scalar, mark: Scalar, plain: Scalar, marked: set<Tensor>, t: Tensor,
                   k: nat)
    requires Telling(p, literal, mark, plain) && t < |p.sizes| && (p.sizes[t] == 1 || k < p.sizes[t])
    ensures Elem(Marking(mark, plain), Whole(Painted(p, literal, mark, plain, marked), t), k) == mark <==> t in marked
  {
  }

  /** Commands that are not element-wise never show the mark. */
  lemma PlainOutput(p: Program, literal: Tensor -> Scalar, mark: Scalar, plain: Scalar, marked: set<Tensor>, c: Command)
    requires Telling(p, literal, mark, plain) && Shaped(p, c) && !ReadsMark(c, marked)
    ensures Output(p, Marking(mark, plain), c, Painted(p, literal, mark, plain, marked)) ==
              Fill(plain, p.sizes[c.output])
  {
    if c.elementWise {
      MarkedOutput(p, literal, mark, plain, marked, c);
    }
  }

  // --- The original run ---

  /** A run is known from its states. */
  lemma {:induction false} RunFollows(p: Program, sem: Semantics, states: nat -> State, n: nat)
    requires WellFormed(p) && n <= |p.commands| && forall i :: 0 <= i <= n ==> StateOk(p, states(i))
    requires forall i :: 0 <= i < n ==> Follows(p, sem, states, i)
    ensures Run(p, sem, states(0), n) == states(n)
  {
    if n > 0 {
      RunFollows(p, sem, states, n - 1);
      assert Follows(p, sem, states, n - 1);
    }
  }

  ghost predicate Follows(p: Program, sem: Semantics, states: nat -> State, i: nat)
    requires WellFormed(p) && i < |p.commands| && StateOk(p, states(i))
  {
    Shaped(p, p.commands[i]) &&
    states(i + 1) == states(i)[p.commands[i].output := Output(p, sem, p.commands[i], states(i))]
  }

  /** Before it is written the tensor of `x` holds the mark, and nobody reads it; afterwards nothing is marked. */
  lemma OriginalRun(p: Program, literal: Tensor -> Scalar, mark: Scalar, plain: Scalar, x: nat, n: nat)
    requires WellFormed(p) && Telling(p, literal, mark, plain) && x < |p.commands| && n <= |p.commands|
    ensures Run(p, Marking(mark, plain), Painted(p, literal, mark, plain, {p.commands[x].output}), n) ==
            Painted(p, literal, mark, plain, Unwritten(p, x, n))
  {
    var states: nat -> State := (i: nat) => Painted(p, literal, mark, plain, Unwritten(p, x, i));
    forall i: nat | i < n
      ensures Follows(p, Marking(mark, plain), states, i)
    {
      NotYetRead(p, x, i);
      CleanStep(p, literal, mark, plain, Unwritten(p, x, i), i);
    }
    RunFollows(p, Marking(mark, plain), states, n);
  }

  /** The tensor of `x` as long as it has not been written. */
  ghost function Unwritten(p: Program, x: nat, n: nat): set<Tensor>
    requires x < |p.commands|
  {
    if n <= x then {p.commands[x].output} else {}
  }

  lemma NotYetRead(p: Program, x: nat, j: nat)
    requires WellFormed(p) && x < |p.commands| && j < |p.commands|
    ensures !ReadsMark(p.commands[j], Unwritten(p, x, j))
    ensures Unwritten(p, x, j) - {p.commands[j].output} == Unwritten(p, x, j + 1)
  {
  }

  /** A command that reads no mark writes the plain scalar everywhere. */
  lemma CleanStep(p: Program, literal: Tensor -> Scalar, mark: Scalar, plain: Scalar, marked: set<Tensor>, j: nat)
    requires WellFormed(p) && Telling(p, literal, mark, plain) && j < |p.commands| && !ReadsMark(p.commands[j], marked)
    ensures Shaped(p, p.commands[j])
    ensures var c, st := p.commands[j], Painted(p, literal, mark, plain, marked);
            st[c.output := Output(p, Marking(mark, plain), c, st)] ==
            Painted(p, literal, mark, plain, marked - {c.output})
  {
    assert Shaped(p, p.commands[j]);
    PlainOutput(p, literal, mark, plain, marked, p.commands[j]);
    OutputsAreNotLiterals(p, j);
    PaintedWrite(p, literal, mark, plain, marked, p.commands[j].output);
  }

  lemma PaintedWrite(p: Program, literal: Tensor -> Scalar, mark: Scalar, plain: Scalar, marked: set<Tensor>, t: Tensor)
    requires t < |p.sizes| && !IsLiteral(p, t)
    ensures Painted(p, literal, mark, plain, marked)[t := Fill(plain, p.sizes[t])] ==
            Painted(p, literal, mark, plain, marked - {t})
  {
  }

  // --- What a kernel loads ---

  /** A kernel input is read before any command of the order has written it. */
  lemma {:induction false} InputOrigin(p: Program, literal: Tensor -> Scalar, order: seq<nat>, t: Tensor)
    returns (b: nat)
    requires t in EmitAll(p, literal, order).inputs
    ensures b < |order| && order[b] < |p.commands| && t in p.commands[order[b]].inputs && !WrittenBy(p, order[..b], t)
  {
    var front, i := order[..|order| - 1], order[|order| - 1];
    var s := EmitAll(p, literal, front);
    if t in s.inputs {
      b := InputOrigin(p, literal, front, t);
      assert front[..b] == order[..b];
    } else {
      b := |order| - 1;
      ReadAllInputs(p, literal, s, p.commands[i].inputs, t);
      InScope(p, literal, front, t);
    }
  }

  /** Some reader of command `j` comes before it in the order. */
  ghost predicate Stale(p: Program, order: seq<nat>, j: nat)
  {
    exists b, c :: 0 <= b <= c < |order| && order[c] == j && Feeds(p, j, order[b])
  }

  /** A command whose tensor the kernel loads has a reader before it. */
  lemma LoadedIsStale(p: Program, literal: Tensor -> Scalar, order: seq<nat>, j: nat)
    requires j in order && j < |p.commands| && p.commands[j].output in EmitAll(p, literal, order).inputs
    ensures Stale(p, order, j)
  {
    var t := p.commands[j].output;
    var b := InputOrigin(p, literal, order, t);
    var c :| 0 <= c < |order| && order[c] == j;
    if c < b {
      WrittenEarlier(p, order, b, c);
    } else {
      assert Feeds(p, j, order[b]);
    }
  }

  lemma WrittenEarlier(p: Program, order: seq<nat>, b: nat, c: nat)
    requires c < b <= |order| && order[c] < |p.commands|
    ensures WrittenBy(p, order[..b], p.commands[order[c]].output)
  {
    assert order[..b][c] == order[c];
  }

  // --- A kernel explained by a state that keeps stale tensors as they are in memory ---

  /** Emitting a command whose tensor has a variable already leaves that variable alone. */
  lemma EmitStale(p: Program, literal: Tensor -> Scalar, sem: Semantics, st: State, s: Scope, c: Command, k: nat)
    requires StateOk(p, st) && LiteralsMatch(p, literal, st) && forall i :: 0 <= i < |c.inputs| ==> c.inputs[i] < |st|
    requires Sound(sem, st, s, k) && c.output in ReadAll(p, literal, s, c.inputs).vars
    ensures Sound(sem, st, Emit(p, literal, s, c), k)
  {
    ReadAllSound(p, literal, sem, st, s, c.inputs, k);
    var s1 := ReadAll(p, literal, s, c.inputs);
    assert forall i :: 0 <= i < |c.inputs| ==> c.inputs[i] in s1.vars;
    StaleSound(sem, st, s1, c, k);
  }

  lemma StaleSound(sem: Semantics, st: State, s: Scope, c: Command, k: nat)
    requires Sound(sem, st, s, k) && c.output in s.vars && forall i :: 0 <= i < |c.inputs| ==> c.inputs[i] in s.vars
    ensures Sound(sem, st, AddVar(s, c.output).(body := s.body + [Compute(s.nextVar, c.op, Names(s, c.inputs))]), k)
  {
    var instr := Compute(s.nextVar, c.op, Names(s, c.inputs));
    assert (s.body + [instr])[..|s.body|] == s.body;
    assert forall i :: 0 <= i < |s.body| ==> (s.body + [instr])[i] == s.body[i];
  }

  /** At offset `k` each command of the order is explained by `st`, except the stale ones. */
  ghost predicate Explains(p: Program, sem: Semantics, st: State, order: seq<nat>, j: nat, k: nat)
  {
    && j < |p.commands|
    && var c := p.commands[j];
       && Shaped(p, c) && c.elementWise && (p.sizes[c.output] == 1 || k < p.sizes[c.output])
       && (!Stale(p, order, j) ==> Whole(st, c.output) == Output(p, sem, c, st))
  }

  lemma {:induction false} OrderSound(
    p: Program, literal: Tensor -> Scalar, sem: Semantics, st: State, order: seq<nat>, m: nat, k: nat)
    requires WellFormed(p) && NoDup(order) && m <= |order| && StateOk(p, st) && LiteralsMatch(p, literal, st)
    requires forall i :: 0 <= i < |order| ==> Explains(p, sem, st, order, order[i], k)
    ensures Sound(sem, st, EmitAll(p, literal, order[..m]), k)
    decreases m
  {
    if m > 0 {
      OrderSound(p, literal, sem, st, order, m - 1, k);
      var front, j := order[..m - 1], order[m - 1];
      assert order[..m][..m - 1] == front;
      assert Explains(p, sem, st, order, j, k);
      var c := p.commands[j];
      assert forall i :: 0 <= i < |c.inputs| ==> c.inputs[i] in c.inputs;
      if Stale(p, order, j) {
        StaleInScope(p, literal, order, m - 1);
        EmitStale(p, literal, sem, st, EmitAll(p, literal, front), c, k);
      } else {
        OutputSeen(p, sem, st, c, k);
        EmitSound(p, literal, sem, st, EmitAll(p, literal, front), c, k);
      }
    }
  }

  /** By the time a stale command is emitted its tensor has a variable. */
  lemma StaleInScope(p: Program, literal: Tensor -> Scalar, order: seq<nat>, m: nat)
    requires WellFormed(p) && NoDup(order) && m < |order| && order[m] < |p.commands| && Stale(p, order, order[m])
    ensures p.commands[order[m]].output in
            ReadAll(p, literal, EmitAll(p, literal, order[..m]), p.commands[order[m]].inputs).vars
  {
    var j := order[m];
    var b, c :| 0 <= b <= c < |order| && order[c] == j && Feeds(p, j, order[b]);
    assert c == m;
    var front, t := order[..m], p.commands[j].output;
    ReadAllScope(p, literal, EmitAll(p, literal, front), p.commands[j].inputs, t);
    if b < m {
      assert front[b] == order[b] && ReadBy(p, front, t);
      InScope(p, literal, front, t);
    }
  }

  // --- Slots that do not see the lost tensor ---

  /** The situation: `x` is erased from set `a`, and memory holds the mark in place of its tensor. */
  ghost predicate Losing(g: Pass, a: nat, x: nat)
  {
    PassOk(g) && a < |g.sets| && x in g.sets[a] && x != Last(g.sets[a]) && x < |g.program.commands|
  }

  ghost function Lost(g: Pass, x: nat): Tensor
    requires x < |g.program.commands|
  {
    g.program.commands[x].output
  }

  /** Only members of the set read the lost tensor. */
  lemma ReadersInside(g: Pass, a: nat, x: nat, j: nat)
    requires Losing(g, a, x) && j < |g.program.commands| && j !in g.sets[a]
    ensures Lost(g, x) !in g.program.commands[j].inputs && j != x
  {
    if Feeds(g.program, x, j) {
      ErasedReadersInside(g, a, x, j);
    }
  }

  lemma PlainSlot(g: Pass, literal: Tensor -> Scalar, mark: Scalar, plain: Scalar, a: nat, x: nat, j: nat)
    requires Losing(g, a, x) && Telling(g.program, literal, mark, plain) && j < |g.program.commands| && j !in g.sets[a]
    ensures var st := Painted(g.program, literal, mark, plain, {Lost(g, x)});
            StepOk(g.program, Plain(g.program.commands[j])) &&
            RunStep(g.program, Marking(mark, plain), Plain(g.program.commands[j]), st) == st
  {
    ReadersInside(g, a, x, j);
    assert !ReadsMark(g.program.commands[j], {Lost(g, x)});
    CleanStep(g.program, literal, mark, plain, {Lost(g, x)}, j);
    assert g.program.commands[j].output != Lost(g, x);
    assert {Lost(g, x)} - {g.program.commands[j].output} == {Lost(g, x)};
  }

  /** All members of any set are explained by the state without marks. */
  lemma CleanCovers(g: Pass, literal: Tensor -> Scalar, mark: Scalar, plain: Scalar, b: nat, order: seq<nat>, k: nat)
    requires PassOk(g) && Telling(g.program, literal, mark, plain) && b < |g.sets|
    requires forall y :: y in order <==> y in g.sets[b]
    requires Last(g.sets[b]) < |g.program.commands| && g.program.commands[Last(g.sets[b])].output < |g.program.sizes|
    requires k < g.program.sizes[g.program.commands[Last(g.sets[b])].output]
    ensures Covers(g.program, Marking(mark, plain), Painted(g.program, literal, mark, plain, {}), order, k)
  {
    var p, sem, st := g.program, Marking(mark, plain), Painted(g.program, literal, mark, plain, {});
    forall i | 0 <= i < |order|
      ensures order[i] < |p.commands|
      ensures var c := p.commands[order[i]];
              && Shaped(p, c) && c.elementWise && Whole(st, c.output) == Output(p, sem, c, st)
              && (p.sizes[c.output] == 1 || k < p.sizes[c.output])
    {
      assert order[i] in order;
      SetMember(g, b, order[i]);
      SizesInside(g, b, order[i]);
      PlainOutput(p, literal, mark, plain, {}, p.commands[order[i]]);
      OutputsAreNotLiterals(p, order[i]);
    }
  }

  /** The kernel of another set loads nothing that is lost, and writes what is there already. */
  lemma OtherKernel(g: Pass, literal: Tensor -> Scalar, mark: Scalar, plain: Scalar, a: nat, x: nat, b: nat,
                    order: seq<nat>, kernel: Kernel)
    requires Losing(g, a, x) && Telling(g.program, literal, mark, plain) && b < |g.sets| && b != a
    requires KernelOf(g.program, literal, g.sets[b], order, kernel)
    ensures var st := Painted(g.program, literal, mark, plain, {Lost(g, x)});
            StepOk(g.program, Fused(kernel)) && RunStep(g.program, Marking(mark, plain), Fused(kernel), st) == st
  {
    var p, lost := g.program, Lost(g, x);
    var st, final := Painted(p, literal, mark, plain, {lost}), Painted(p, literal, mark, plain, {});
    SingleStore(g, literal, b, order, kernel);
    var root := Last(g.sets[b]);
    OutputsAreNotLiterals(p, root);
    PaintedLiterals(p, literal, mark, plain, {});
    var out := p.commands[root].output;
    forall k: nat | k < p.sizes[out]
      ensures Covers(p, Marking(mark, plain), final, order, k)
    {
      CleanCovers(g, literal, mark, plain, b, order, k);
    }
    forall t | t in kernel.inputs
      ensures Whole(st, t) == Whole(final, t)
    {
      OtherInputs(g, literal, a, x, b, order, t);
    }
    KernelWrites(p, literal, Marking(mark, plain), order, kernel, out, final, st);
    assert root in g.sets[b] && root !in g.sets[a];
    ReadersInside(g, a, x, root);
    assert out != lost;
  }

  lemma OtherInputs(g: Pass, literal: Tensor -> Scalar, a: nat, x: nat, b: nat, order: seq<nat>, t: Tensor)
    requires Losing(g, a, x) && b < |g.sets| && b != a && (forall y :: y in order <==> y in g.sets[b])
    requires t in EmitAll(g.program, literal, order).inputs
    ensures t != Lost(g, x)
  {
    var i := InputOrigin(g.program, literal, order, t);
    assert order[i] in order;
    if order[i] in g.sets[a] {
      SameSet(g.sets, a, b, order[i]);
    } else {
      ReadersInside(g, a, x, order[i]);
    }
  }

  /** No slot but that of the root changes the state in which the tensor is lost. */
  lemma SlotKeeps(g: Pass, literal: Tensor -> Scalar, orders: seq<seq<nat>>, kernels: seq<Kernel>, steps: seq<Step>,
                  mark: Scalar, plain: Scalar, a: nat, x: nat, j: nat)
    requires Losing(g, a, x) && Telling(g.program, literal, mark, plain)
    requires Rewritten(g.program, literal, g.sets, orders, kernels, steps) && j < |steps| && j != Last(g.sets[a])
    ensures var st := Painted(g.program, literal, mark, plain, {Lost(g, x)});
            StepOk(g.program, steps[j]) && RunStep(g.program, Marking(mark, plain), steps[j], st) == st
  {
    if b: nat :| b < |g.sets| && j in g.sets[b] {
      if j == Last(g.sets[b]) {
        RootSlot(g.program, literal, g.sets, b, orders, kernels, steps);
        OtherKernel(g, literal, mark, plain, a, x, b, orders[b], kernels[b]);
      } else {
        MemberSlot(g.program, literal, g.sets, b, orders, kernels, steps, j);
      }
    } else {
      PlainSlot(g, literal, mark, plain, a, x, j);
    }
  }

  lemma {:induction false} StepsKeep(p: Program, sem: Semantics, steps: seq<Step>, st: State, i: nat)
    requires StateOk(p, st) && i <= |steps|
    requires forall j :: 0 <= j < i ==> StepOk(p, steps[j]) && RunStep(p, sem, steps[j], st) == st
    ensures StepsOk(p, steps[..i]) && RunSteps(p, sem, steps[..i], st) == st
    decreases i
  {
    if i > 0 {
      StepsKeep(p, sem, steps, st, i - 1);
      assert steps[..i] == steps[..i - 1] + [steps[i - 1]];
      RunAppend(p, sem, steps[..i - 1], steps[i - 1], st);
    }
  }

  /** Up to the slot of the root the lost tensor keeps the mark and nothing else gets it. */
  lemma UpToRoot(g: Pass, literal: Tensor -> Scalar, orders: seq<seq<nat>>, kernels: seq<Kernel>, steps: seq<Step>,
                 mark: Scalar, plain: Scalar, a: nat, x: nat, i: nat)
    requires Losing(g, a, x) && Telling(g.program, literal, mark, plain)
    requires Rewritten(g.program, literal, g.sets, orders, kernels, steps) && i <= Last(g.sets[a]) && i <= |steps|
    ensures var st := Painted(g.program, literal, mark, plain, {Lost(g, x)});
            StepsOk(g.program, steps[..i]) && RunSteps(g.program, Marking(mark, plain), steps[..i], st) == st
  {
    var st := Painted(g.program, literal, mark, plain, {Lost(g, x)});
    forall j: nat | j < i
      ensures StepOk(g.program, steps[j]) && RunStep(g.program, Marking(mark, plain), steps[j], st) == st
    {
      SlotKeeps(g, literal, orders, kernels, steps, mark, plain, a, x, j);
    }
    StepsKeep(g.program, Marking(mark, plain), steps, st, i);
  }

  // --- The kernel that loads the lost tensor ---

  /** Where the mark goes inside the kernel: from `x` through members that are not stale. */
  ghost predicate Marks(p: Program, order: seq<nat>, x: nat, j: nat)
    decreases j
  {
    j == x || (j < |p.commands| && j in order && !Stale(p, order, j) && FedByMark(p, order, x, j))
  }

  ghost predicate FedByMark(p: Program, order: seq<nat>, x: nat, j: nat)
    requires j < |p.commands|
    decreases j, 0
  {
    exists w: nat :: w < j && Feeds(p, w, j) && Marks(p, order, x, w)
  }

  ghost function MarkedTensors(p: Program, order: seq<nat>, x: nat): set<Tensor>
  {
    set w: nat | w < |p.commands| && Marks(p, order, x, w) :: p.commands[w].output
  }

  lemma ReadsMarkIff(p: Program, order: seq<nat>, x: nat, j: nat)
    requires WellFormed(p) && j < |p.commands|
    ensures ReadsMark(p.commands[j], MarkedTensors(p, order, x)) <==> FedByMark(p, order, x, j)
  {
    var c, marked := p.commands[j], MarkedTensors(p, order, x);
    if ReadsMark(c, marked) {
      var i :| 0 <= i < |c.inputs| && c.inputs[i] in marked;
      var w: nat :| w < |p.commands| && Marks(p, order, x, w) && p.commands[w].output == c.inputs[i];
      assert Feeds(p, w, j) && w < j;
    }
    if FedByMark(p, order, x, j) {
      var w: nat :| w < j && Feeds(p, w, j) && Marks(p, order, x, w);
      var i :| 0 <= i < |c.inputs| && c.inputs[i] == p.commands[w].output;
      assert c.inputs[i] in marked;
    }
  }

  lemma MarkedIff(p: Program, order: seq<nat>, x: nat, j: nat)
    requires WellFormed(p) && j < |p.commands|
    ensures p.commands[j].output in MarkedTensors(p, order, x) <==> Marks(p, order, x, j)
  {
    if p.commands[j].output in MarkedTensors(p, order, x) {
      var w: nat :| w < |p.commands| && Marks(p, order, x, w) && p.commands[w].output == p.commands[j].output;
      assert w == j;
    }
  }

  /** The painted state explains every member of the kernel that is not stale. */
  lemma MemberExplained(g: Pass, literal: Tensor -> Scalar, mark: Scalar, plain: Scalar, a: nat, x: nat,
                        order: seq<nat>, i: nat, k: nat)
    requires Losing(g, a, x) && Telling(g.program, literal, mark, plain) && Stale(g.program, order, x)
    requires (forall y :: y in order <==> y in g.sets[a]) && i < |order|
    requires Last(g.sets[a]) < |g.program.commands| && g.program.commands[Last(g.sets[a])].output < |g.program.sizes|
    requires k < g.program.sizes[g.program.commands[Last(g.sets[a])].output]
    ensures Explains(g.program, Marking(mark, plain),
                     Painted(g.program, literal, mark, plain, MarkedTensors(g.program, order, x)), order, order[i], k)
  {
    var p, j := g.program, order[i];
    assert j in order;
    SetMember(g, a, j);
    SizesInside(g, a, j);
    ReadsMarkIff(p, order, x, j);
    MarkedIff(p, order, x, j);
    MarkedOutput(p, literal, mark, plain, MarkedTensors(p, order, x), p.commands[j]);
    OutputsAreNotLiterals(p, j);
    assert !Stale(p, order, j) ==> j != x;
  }

  /** What the kernel loads looks the same in memory and in the painted state. */
  lemma InputsShown(g: Pass, literal: Tensor -> Scalar, mark: Scalar, plain: Scalar, a: nat, x: nat, order: seq<nat>,
                    t: Tensor)
    requires Losing(g, a, x) && t in EmitAll(g.program, literal, order).inputs
    ensures Whole(Painted(g.program, literal, mark, plain, {Lost(g, x)}), t) ==
            Whole(Painted(g.program, literal, mark, plain, MarkedTensors(g.program, order, x)), t)
  {
    var p, marked := g.program, MarkedTensors(g.program, order, x);
    MarkedIff(p, order, x, x);
    if t in marked && t != Lost(g, x) {
      var w: nat :| w < |p.commands| && Marks(p, order, x, w) && p.commands[w].output == t;
      LoadedIsStale(p, literal, order, w);
    }
  }

  lemma MarkedSetOk(p: Program, order: seq<nat>, x: nat)
    requires WellFormed(p)
    ensures forall t :: t in MarkedTensors(p, order, x) ==> !IsLiteral(p, t)
  {
    forall t | t in MarkedTensors(p, order, x)
      ensures !IsLiteral(p, t)
    {
      var w: nat :| w < |p.commands| && Marks(p, order, x, w) && p.commands[w].output == t;
      OutputsAreNotLiterals(p, w);
    }
  }

  /** When the mark reaches the root, the kernel stores it everywhere. */
  lemma KernelShowsMark(g: Pass, literal: Tensor -> Scalar, mark: Scalar, plain: Scalar, a: nat, x: nat,
                        order: seq<nat>, kernel: Kernel)
    requires Losing(g, a, x) && Telling(g.program, literal, mark, plain) && Stale(g.program, order, x)
    requires KernelOf(g.program, literal, g.sets[a], order, kernel) && Marks(g.program, order, x, Last(g.sets[a]))
    ensures Last(g.sets[a]) < |g.program.commands| && StepOk(g.program, Fused(kernel))
    ensures var p, st := g.program, Painted(g.program, literal, mark, plain, {Lost(g, x)});
            var out := p.commands[Last(g.sets[a])].output;
            out < |p.sizes|
            && RunStep(p, Marking(mark, plain), Fused(kernel), st) == st[out := Fill(mark, p.sizes[out])]
  {
    var p, sem, marked := g.program, Marking(mark, plain), MarkedTensors(g.program, order, x);
    var st, fake := Painted(p, literal, mark, plain, {Lost(g, x)}), Painted(p, literal, mark, plain, marked);
    SingleStore(g, literal, a, order, kernel);
    var root := Last(g.sets[a]);
    var out := p.commands[root].output;
    OutputsAreNotLiterals(p, root);
    MarkedIff(p, order, x, root);
    forall k: nat | k < p.sizes[out]
      ensures StoredElem(sem, kernel, st, k, kernel.stores[0]) == Elem(sem, fake[out], k)
    {
      MarkStored(g, literal, mark, plain, a, x, order, kernel, k);
    }
    StoredIs(p, sem, kernel, out, fake[out], st);
    RunSingle(p, sem, kernel, out, st);
  }

  /** With the marks that the stale reads spread, the kernel's instructions compute what they pretend to. */
  lemma FakeSound(g: Pass, literal: Tensor -> Scalar, mark: Scalar, plain: Scalar, a: nat, x: nat,
                  order: seq<nat>, k: nat)
    requires Losing(g, a, x) && Telling(g.program, literal, mark, plain) && Stale(g.program, order, x)
    requires NoDup(order) && forall y :: y in order <==> y in g.sets[a]
    requires k < g.program.sizes[g.program.commands[Last(g.sets[a])].output]
    ensures var fake := Painted(g.program, literal, mark, plain, MarkedTensors(g.program, order, x));
            Sound(Marking(mark, plain), fake, EmitAll(g.program, literal, order), k)
  {
    var p, sem, marked := g.program, Marking(mark, plain), MarkedTensors(g.program, order, x);
    var fake := Painted(p, literal, mark, plain, marked);
    MarkedSetOk(p, order, x);
    PaintedLiterals(p, literal, mark, plain, marked);
    forall i | 0 <= i < |order|
      ensures Explains(p, sem, fake, order, order[i], k)
    {
      MemberExplained(g, literal, mark, plain, a, x, order, i, k);
    }
    OrderSound(p, literal, sem, fake, order, |order|, k);
    assert order[..|order|] == order;
  }

  lemma MarkStored(g: Pass, literal: Tensor -> Scalar, mark: Scalar, plain: Scalar, a: nat, x: nat,
                   order: seq<nat>, kernel: Kernel, k: nat)
    requires Losing(g, a, x) && Telling(g.program, literal, mark, plain) && Stale(g.program, order, x)
    requires KernelOf(g.program, literal, g.sets[a], order, kernel)
    requires Last(g.sets[a]) < |g.program.commands| && g.program.commands[Last(g.sets[a])].output < |g.program.sizes|
    requires kernel.outputs == [g.program.commands[Last(g.sets[a])].output]
    requires k < g.program.sizes[g.program.commands[Last(g.sets[a])].output]
    ensures var p := g.program;
            var st := Painted(p, literal, mark, plain, {Lost(g, x)});
            var fake := Painted(p, literal, mark, plain, MarkedTensors(p, order, x));
            |kernel.stores| == 1 && StoredElem(Marking(mark, plain), kernel, st, k, kernel.stores[0]) ==
            Elem(Marking(mark, plain), fake[p.commands[Last(g.sets[a])].output], k)
  {
    var p, sem, marked := g.program, Marking(mark, plain), MarkedTensors(g.program, order, x);
    var st, fake := Painted(p, literal, mark, plain, {Lost(g, x)}), Painted(p, literal, mark, plain, marked);
    FakeSound(g, literal, mark, plain, a, x, order, k);
    forall t | t in kernel.inputs
      ensures Whole(st, t) == Whole(fake, t)
    {
      InputsShown(g, literal, mark, plain, a, x, order, t);
    }
    ExecAgrees(sem, fake, st, kernel.inputs, kernel.body, k);
    assert kernel.outputs[0] == p.commands[Last(g.sets[a])].output;
  }

  // --- The mark reaches the root ---

  /** `y` reads `x` and comes before it. */
  ghost predicate BadPair(p: Program, order: seq<nat>, x: nat, y: nat)
  {
    exists b, c :: 0 <= b <= c < |order| && order[c] == x && order[b] == y && Feeds(p, x, y)
  }

  lemma StaleHasReader(p: Program, order: seq<nat>, x: nat) returns (y: nat)
    requires Stale(p, order, x)
    ensures BadPair(p, order, x, y) && Feeds(p, x, y)
  {
    var b, c :| 0 <= b <= c < |order| && order[c] == x && Feeds(p, x, order[b]);
    y := order[b];
  }

  /** Among the readers that come too early there is a last one. */
  lemma {:induction false} LastReader(p: Program, order: seq<nat>, x0: nat, y0: nat) returns (x: nat, y: nat)
    requires BadPair(p, order, x0, y0)
    ensures BadPair(p, order, x, y) && forall u: nat, v: nat :: BadPair(p, order, u, v) ==> v <= y
    decreases |p.commands| - y0
  {
    if u: nat, v: nat :| BadPair(p, order, u, v) && v > y0 {
      x, y := LastReader(p, order, u, v);
    } else {
      x, y := x0, y0;
    }
  }

  lemma NotStaleFrom(p: Program, order: seq<nat>, x: nat, y: nat, j: nat)
    requires WellFormed(p) && (forall u: nat, v: nat :: BadPair(p, order, u, v) ==> v <= y) && j >= y
    ensures !Stale(p, order, j)
  {
    if Stale(p, order, j) {
      var v := StaleHasReader(p, order, j);
    }
  }

  lemma {:induction false} MarkClimbs(g: Pass, a: nat, order: seq<nat>, x: nat, y: nat, j: nat)
    requires PassOk(g) && a < |g.sets| && (forall z :: z in order <==> z in g.sets[a])
    requires (forall u: nat, v: nat :: BadPair(g.program, order, u, v) ==> v <= y) && y <= j
    requires j in g.sets[a] && Marks(g.program, order, x, j)
    ensures Marks(g.program, order, x, Last(g.sets[a]))
    decreases |g.program.commands| - j
  {
    var root := Last(g.sets[a]);
    SetMember(g, a, j);
    if j != root {
      SetRoot(g.succ, g.dom, g.legal, g.sets[a], j);
      MemberFeeds(g.succ, g.dom, g.legal, StrictTopo(g.program), root, j);
      var z := g.succ[j][0];
      assert z in g.succ[j] && Feeds(g.program, j, z) && j < z;
      ErasedReadersInside(g, a, j, z);
      SetMember(g, a, z);
      NotStaleFrom(g.program, order, x, y, z);
      assert FedByMark(g.program, order, x, z);
      MarkClimbs(g, a, order, x, y, z);
    }
  }

  /** A disordered kernel loses some tensor whose mark reaches its root. */
  lemma DisorderMarksRoot(g: Pass, a: nat, order: seq<nat>) returns (x: nat)
    requires PassOk(g) && a < |g.sets| && (forall z :: z in order <==> z in g.sets[a])
    requires !ProducersFirst(g.program, order)
    ensures Losing(g, a, x) && Stale(g.program, order, x) && Marks(g.program, order, x, Last(g.sets[a]))
  {
    var p := g.program;
    var b, c :| 0 <= b <= c < |order| && Feeds(p, order[c], order[b]);
    var y;
    x, y := LastReader(p, order, order[c], order[b]);
    var b', c' :| 0 <= b' <= c' < |order| && order[c'] == x && order[b'] == y && Feeds(p, x, y);
    assert order[c'] in order && order[b'] in order;
    RootUnread(g, a, order);
    SetMember(g, a, y);
    assert ReadBy(p, order, p.commands[x].output);
    NotStaleFrom(p, order, x, y, y);
    assert x < y && Marks(p, order, x, x);
    assert FedByMark(p, order, x, y);
    MarkClimbs(g, a, order, x, y, y);
  }

  // --- Both directions ---

  /** Steps that do not write a tensor leave it alone. */
  lemma {:induction false} StepsLeave(p: Program, sem: Semantics, steps: seq<Step>, st: State, m: nat, n: nat,
                                      t: Tensor)
    requires StateOk(p, st) && m <= n <= |steps| && StepsOk(p, steps) && t < |p.sizes|
    requires forall j :: m <= j < n ==> !Writes(steps[j], t)
    ensures StepsOk(p, steps[..m]) && StepsOk(p, steps[..n])
    ensures RunSteps(p, sem, steps[..n], st)[t] == RunSteps(p, sem, steps[..m], st)[t]
    decreases n
  {
    if m < n {
      StepsLeave(p, sem, steps, st, m, n - 1, t);
      assert steps[..n] == steps[..n - 1] + [steps[n - 1]];
      RunAppend(p, sem, steps[..n - 1], steps[n - 1], st);
      StepLeaves(p, sem, steps[n - 1], RunSteps(p, sem, steps[..n - 1], st), t);
    }
  }

  lemma StepLeaves(p: Program, sem: Semantics, step: Step, st: State, t: Tensor)
    requires StateOk(p, st) && StepOk(p, step) && t < |p.sizes| && !Writes(step, t)
    ensures RunStep(p, sem, step, st)[t] == st[t]
  {
    if step.Fused? {
      KernelLeaves(p, sem, step.kernel, st, |step.kernel.outputs|, t);
    }
  }

  lemma {:induction false} KernelLeaves(p: Program, sem: Semantics, kernel: Kernel, st: State, n: nat, t: Tensor)
    requires StateOk(p, st) && KernelOk(p, kernel) && n <= |kernel.outputs| && t < |p.sizes| && t !in kernel.outputs
    ensures RunKernel(p, sem, kernel, st, n)[t] == st[t]
  {
    if n > 0 {
      KernelLeaves(p, sem, kernel, st, n - 1, t);
    }
  }

  /** What one step writes is there at the end, if later steps do not write it and earlier ones changed nothing. */
  lemma StepsEnd(p: Program, sem: Semantics, steps: seq<Step>, st: State, m: nat, t: Tensor)
    requires StateOk(p, st) && StepsOk(p, steps) && m < |steps| && t < |p.sizes|
    requires StepsOk(p, steps[..m]) && RunSteps(p, sem, steps[..m], st) == st
    requires forall j :: m < j < |steps| ==> !Writes(steps[j], t)
    ensures RunSteps(p, sem, steps, st)[t] == RunStep(p, sem, steps[m], st)[t]
  {
    assert steps[..m + 1] == steps[..m] + [steps[m]];
    RunAppend(p, sem, steps[..m], steps[m], st);
    StepsLeave(p, sem, steps, st, m + 1, |steps|, t);
    assert steps[..|steps|] == steps;
  }

  lemma OnlyRootWrites(g: Pass, literal: Tensor -> Scalar, orders: seq<seq<nat>>, kernels: seq<Kernel>,
                       steps: seq<Step>, a: nat)
    requires PassOk(g) && Rewritten(g.program, literal, g.sets, orders, kernels, steps) && a < |g.sets|
    ensures Last(g.sets[a]) < |g.program.commands| && StepsOk(g.program, steps)
    ensures forall j :: Last(g.sets[a]) < j < |steps| ==> !Writes(steps[j], g.program.commands[Last(g.sets[a])].output)
  {
    RootSlot(g.program, literal, g.sets, a, orders, kernels, steps);
    forall j: nat | j < |steps|
      ensures StepOk(g.program, steps[j])
      ensures j != Last(g.sets[a]) ==> !Writes(steps[j], g.program.commands[Last(g.sets[a])].output)
    {
      SlotWrites(g, literal, orders, kernels, steps, j);
    }
  }

  /** The rewritten list ends with the mark in the tensor of the root. */
  lemma EndsMarked(g: Pass, literal: Tensor -> Scalar, orders: seq<seq<nat>>, kernels: seq<Kernel>, steps: seq<Step>,
                   mark: Scalar, plain: Scalar, a: nat, x: nat)
    requires Losing(g, a, x) && Telling(g.program, literal, mark, plain)
    requires Rewritten(g.program, literal, g.sets, orders, kernels, steps)
    requires Stale(g.program, orders[a], x) && Marks(g.program, orders[a], x, Last(g.sets[a]))
    ensures var p := g.program;
            var out := p.commands[Last(g.sets[a])].output;
            && StepsOk(p, steps) && out < |p.sizes|
            && RunSteps(p, Marking(mark, plain), steps, Painted(p, literal, mark, plain, {Lost(g, x)}))[out] ==
               Fill(mark, p.sizes[out])
  {
    var root := Last(g.sets[a]);
    OnlyRootWrites(g, literal, orders, kernels, steps, a);
    RootSlot(g.program, literal, g.sets, a, orders, kernels, steps);
    UpToRoot(g, literal, orders, kernels, steps, mark, plain, a, x, root);
    KernelShowsMark(g, literal, mark, plain, a, x, orders[a], kernels[a]);
    StepsEnd(g.program, Marking(mark, plain), steps, Painted(g.program, literal, mark, plain, {Lost(g, x)}), root,
             g.program.commands[root].output);
  }

  /** One difference is enough. */
  lemma DifferenceShows(p: Program, literal: Tensor -> Scalar, sem: Semantics, st: State, steps: seq<Step>, t: Tensor)
    requires WellFormed(p) && StateOk(p, st) && LiteralsMatch(p, literal, st) && StepsOk(p, steps) && t < |p.sizes|
    requires StillDefined(p, Survivors(steps), t)
    requires RunSteps(p, sem, steps, st)[t] != Run(p, sem, st, |p.commands|)[t]
    ensures !Preserves(p, literal, Survivors(steps))
  {
    SurvivorsRun(p, sem, steps, st);
  }

  /** A rewriting whose kernel reads a tensor before producing it does not preserve the meaning. */
  lemma DisorderLoses(g: Pass, literal: Tensor -> Scalar, orders: seq<seq<nat>>, kernels: seq<Kernel>, steps: seq<Step>,
                      mark: Scalar, plain: Scalar, a: nat)
    requires PassOk(g) && Rewritten(g.program, literal, g.sets, orders, kernels, steps) && a < |g.sets|
    requires Telling(g.program, literal, mark, plain) && !ProducersFirst(g.program, orders[a])
    requires Nonempty(g.program)
    ensures !Preserves(g.program, literal, Survivors(steps))
  {
    var p, sem, root := g.program, Marking(mark, plain), Last(g.sets[a]);
    var x := DisorderMarksRoot(g, a, orders[a]);
    var st := Painted(p, literal, mark, plain, {Lost(g, x)});
    OutputsAreNotLiterals(p, x);
    PaintedLiterals(p, literal, mark, plain, {Lost(g, x)});
    EndsMarked(g, literal, orders, kernels, steps, mark, plain, a, x);
    RootDefined(g, literal, orders, kernels, steps, a);
    RunEndsClean(g, literal, mark, plain, x, root);
    var out := p.commands[root].output;
    assert Fill(mark, p.sizes[out])[0] == mark && Fill(plain, p.sizes[out])[0] == plain;
    DifferenceShows(p, literal, sem, st, steps, out);
  }

  ghost predicate Nonempty(p: Program)
  {
    forall t :: 0 <= t < |p.sizes| ==> p.sizes[t] > 0
  }

  lemma RunEndsClean(g: Pass, literal: Tensor -> Scalar, mark: Scalar, plain: Scalar, x: nat, j: nat)
    requires WellFormed(g.program) && Telling(g.program, literal, mark, plain)
    requires x < |g.program.commands| && j < |g.program.commands|
    ensures g.program.commands[j].output < |g.program.sizes|
    ensures Run(g.program, Marking(mark, plain), Painted(g.program, literal, mark, plain, {Lost(g, x)}),
                |g.program.commands|)[g.program.commands[j].output] ==
            Fill(plain, g.program.sizes[g.program.commands[j].output])
  {
    OriginalRun(g.program, literal, mark, plain, x, |g.program.commands|);
    OutputsAreNotLiterals(g.program, j);
  }

  lemma RootDefined(g: Pass, literal: Tensor -> Scalar, orders: seq<seq<nat>>, kernels: seq<Kernel>, steps: seq<Step>,
                    a: nat)
    requires PassOk(g) && Rewritten(g.program, literal, g.sets, orders, kernels, steps) && a < |g.sets|
    ensures Last(g.sets[a]) < |g.program.commands|
    ensures StillDefined(g.program, Survivors(steps), g.program.commands[Last(g.sets[a])].output)
  {
    var root, list := Last(g.sets[a]), Survivors(steps);
    RootSlot(g.program, literal, g.sets, a, orders, kernels, steps);
    SingleStore(g, literal, a, orders[a], kernels[a]);
    assert steps[root] in list;
    var i :| 0 <= i < |list| && list[i] == steps[root];
    assert kernels[a].outputs[0] == g.program.commands[root].output;
    assert Writes(list[i], g.program.commands[root].output);
  }

  /** One rewriting preserves the meaning exactly when all its kernels have producers first. */
  lemma PreservesIff(g: Pass, literal: Tensor -> Scalar, orders: seq<seq<nat>>, kernels: seq<Kernel>, steps: seq<Step>,
                     mark: Scalar, plain: Scalar)
    requires PassOk(g) && Rewritten(g.program, literal, g.sets, orders, kernels, steps)
    requires Telling(g.program, literal, mark, plain)
    requires Nonempty(g.program)
    ensures Preserves(g.program, literal, Survivors(steps)) <==> AllProducersFirst(g.program, orders)
  {
    if AllProducersFirst(g.program, orders) {
      FusionPreservesMeaning(g, literal, orders, kernels, steps);
    } else {
      var a: nat :| a < |orders| && !ProducersFirst(g.program, orders[a]);
      DisorderLoses(g, literal, orders, kernels, steps, mark, plain, a);
    }
  }
}
