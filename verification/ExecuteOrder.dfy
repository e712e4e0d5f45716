/** `Variable::getExecuteOrder`: the expressions behind some outputs, inputs first. */
module ExecuteOrder {
  import opened Wrappers
  import opened Sequences
  import opened ExprGraph

  // --- What an order is ---

  /** An output depends on `e`. */
  ghost predicate Wanted(exprs: seq<Expr>, outputs: seq<Option<Var>>, e: nat)
    requires GraphOk(exprs)
  {
    exists i :: 0 <= i < |outputs| && outputs[i].Some? && DependsOn(exprs, outputs[i].value.expr, e)
  }

  /** The inputs of an expression are in `done`. */
  ghost predicate InputsIn(exprs: seq<Expr>, e: nat, done: seq<nat>)
  {
    e < |exprs| && forall k :: 0 <= k < |InputsOf(exprs[e])| ==> InputsOf(exprs[e])[k].expr in done
  }

  ghost predicate InputsFirst(exprs: seq<Expr>, order: seq<nat>)
  {
    forall i :: 0 <= i < |order| ==> InputsIn(exprs, order[i], order[..i])
  }

  /** Exactly the wanted expressions, each once, inputs first. */
  ghost predicate OrderOk(exprs: seq<Expr>, outputs: seq<Option<Var>>, order: seq<nat>)
    requires GraphOk(exprs)
  {
    && NoDup(order) && InputsFirst(exprs, order)
    && forall e: nat :: e in order <==> Wanted(exprs, outputs, e)
  }

  // --- The search ---

  /** `want` are the wanted expressions, `roots` the outputs seen so far. */
  ghost predicate SearchOk(
    exprs: seq<Expr>, want: set<nat>, roots: set<nat>, stack: seq<nat>, flags: seq<bool>, order: seq<nat>)
  {
    && |flags| == |exprs| && NoDup(order) && InputsFirst(exprs, order)
    && (forall i :: 0 <= i < |stack| ==> stack[i] in want)
    && (forall i :: 0 <= i < |order| ==> order[i] in want)
    && (forall e :: 0 <= e < |flags| ==> (flags[e] <==> e in order))
    && (forall r :: r in roots ==> r in stack || r in order)
  }

  /** The wanted set is closed under inputs and stays inside the graph. */
  ghost predicate WantOk(exprs: seq<Expr>, want: set<nat>)
  {
    forall e :: e in want ==> e < |exprs| && InputsWanted(exprs, e, want)
  }

  ghost predicate InputsWanted(exprs: seq<Expr>, e: nat, want: set<nat>)
    requires e < |exprs|
  {
    forall k :: 0 <= k < |InputsOf(exprs[e])| ==> InputsOf(exprs[e])[k].expr in want
  }

  lemma Emit(
    exprs: seq<Expr>, want: set<nat>, roots: set<nat>, stack: seq<nat>, flags: seq<bool>, order: seq<nat>, e: nat)
    requires SearchOk(exprs, want, roots, stack, flags, order)
    requires e in want && e < |flags| && !flags[e] && InputsIn(exprs, e, order)
    ensures SearchOk(exprs, want, roots, stack, flags[e := true], order + [e])
  {
    var order' := order + [e];
    forall i | 0 <= i < |order'|
      ensures InputsIn(exprs, order'[i], order'[..i])
    {
      if i < |order| {
        assert InputsIn(exprs, order[i], order[..i]);
        assert order'[..i] == order[..i];
      } else {
        assert order'[..i] == order;
      }
    }
    forall x | 0 <= x < |flags|
      ensures flags[e := true][x] <==> x in order'
    {
      assert x in order' <==> x in order || x == e;
    }
    assert forall r :: r in order ==> r in order';
  }

  lemma Pop(exprs: seq<Expr>, want: set<nat>, roots: set<nat>, stack: seq<nat>, flags: seq<bool>, order: seq<nat>)
    requires SearchOk(exprs, want, roots, stack, flags, order) && stack != []
    requires stack[|stack| - 1] < |flags| && flags[stack[|stack| - 1]]
    ensures SearchOk(exprs, want, roots, stack[..|stack| - 1], flags, order)
  {
    var top := stack[|stack| - 1];
    assert top in order;
    forall r | r in roots
      ensures r in stack[..|stack| - 1] || r in order
    {
      if r !in order {
        assert r in stack && r != top;
      }
    }
  }

  lemma Push(
    exprs: seq<Expr>, want: set<nat>, roots: set<nat>, stack: seq<nat>, flags: seq<bool>, order: seq<nat>, e: nat)
    requires SearchOk(exprs, want, roots, stack, flags, order) && e in want
    ensures SearchOk(exprs, want, roots, stack + [e], flags, order)
    ensures SearchOk(exprs, want, roots + {e}, stack + [e], flags, order)
  {
    assert (stack + [e])[|stack|] == e;
    assert forall r :: r in stack ==> r in stack + [e];
  }

  // --- Termination ---

  ghost function Unvisited(flags: seq<bool>): set<nat>
  {
    set e: nat | e < |flags| && !flags[e]
  }

  ghost function Flagged(stack: seq<nat>, flags: seq<bool>): nat
  {
    if stack == [] then 0
    else
      var top := stack[|stack| - 1];
      Flagged(stack[..|stack| - 1], flags) + if top < |flags| && flags[top] then 1 else 0
  }

  ghost function Top(stack: seq<nat>): nat
  {
    if stack == [] then 0 else stack[|stack| - 1] + 1
  }

  lemma VisitShrinks(flags: seq<bool>, e: nat)
    requires e < |flags| && !flags[e]
    ensures Unvisited(flags[e := true]) < Unvisited(flags)
  {
    assert e in Unvisited(flags) && e !in Unvisited(flags[e := true]);
  }

  lemma PushKeepsFlagged(stack: seq<nat>, flags: seq<bool>, e: nat)
    requires e < |flags| && !flags[e]
    ensures Flagged(stack + [e], flags) == Flagged(stack, flags)
  {
    assert (stack + [e])[..|stack|] == stack;
  }

  // --- Depth first ---

  /** `done` after a depth-first visit of `e`: its inputs from the first to the last, then `e` itself. */
  ghost function Visit(exprs: seq<Expr>, e: nat, done: seq<nat>): seq<nat>
    requires GraphOk(exprs) && e < |exprs|
    decreases e, 1, 0
  {
    if e in done then done else Visits(exprs, e, 0, done) + [e]
  }

  /** The inputs of `e` from the one numbered `k` on. */
  ghost function Visits(exprs: seq<Expr>, e: nat, k: nat, done: seq<nat>): seq<nat>
    requires GraphOk(exprs) && e < |exprs| && k <= |InputsOf(exprs[e])|
    decreases e, 0, |InputsOf(exprs[e])| - k
  {
    if k == |InputsOf(exprs[e])| then done
    else
      assert ExprOk(exprs, e) && VarOk(exprs, InputsOf(exprs[e])[k], e);
      Visits(exprs, e, k + 1, Visit(exprs, InputsOf(exprs[e])[k].expr, done))
  }

  ghost predicate InGraph(exprs: seq<Expr>, stack: seq<nat>)
  {
    forall i :: 0 <= i < |stack| ==> stack[i] < |exprs|
  }

  /** The visits that a stack stands for, from the top down. */
  ghost function Finish(exprs: seq<Expr>, stack: seq<nat>, done: seq<nat>): seq<nat>
    requires GraphOk(exprs) && InGraph(exprs, stack)
    decreases |stack|
  {
    if stack == [] then done
    else Finish(exprs, stack[..|stack| - 1], Visit(exprs, stack[|stack| - 1], done))
  }

  /** A visit adds `e` at the end, unless it is there, and otherwise only smaller numbers. */
  ghost predicate Added(done: seq<nat>, done': seq<nat>, bound: nat)
  {
    done <= done' && forall i :: |done| <= i < |done'| ==> done'[i] < bound
  }

  lemma {:induction false} VisitAdds(exprs: seq<Expr>, e: nat, done: seq<nat>)
    requires GraphOk(exprs) && e < |exprs|
    ensures Added(done, Visit(exprs, e, done), e + 1) && e in Visit(exprs, e, done)
    decreases e, 1, 0
  {
    if e !in done {
      VisitsAdd(exprs, e, 0, done);
    }
  }

  lemma {:induction false} VisitsAdd(exprs: seq<Expr>, e: nat, k: nat, done: seq<nat>)
    requires GraphOk(exprs) && e < |exprs| && k <= |InputsOf(exprs[e])|
    ensures Added(done, Visits(exprs, e, k, done), e)
    decreases e, 0, |InputsOf(exprs[e])| - k
  {
    if k < |InputsOf(exprs[e])| {
      assert ExprOk(exprs, e) && VarOk(exprs, InputsOf(exprs[e])[k], e);
      var x := InputsOf(exprs[e])[k].expr;
      VisitAdds(exprs, x, done);
      VisitsAdd(exprs, e, k + 1, Visit(exprs, x, done));
    }
  }

  /** Inputs that are done are passed over. */
  lemma {:induction false} VisitsPass(exprs: seq<Expr>, e: nat, j: nat, k: nat, done: seq<nat>)
    requires GraphOk(exprs) && e < |exprs| && j <= k <= |InputsOf(exprs[e])|
    requires forall i :: j <= i < k ==> InputsOf(exprs[e])[i].expr in done
    ensures Visits(exprs, e, j, done) == Visits(exprs, e, k, done)
    decreases k - j
  {
    if j < k {
      VisitsPass(exprs, e, j + 1, k, done);
    }
  }

  /** Visiting the first input that is not done ahead of `e` changes nothing. */
  lemma VisitAhead(exprs: seq<Expr>, e: nat, k: nat, done: seq<nat>)
    requires GraphOk(exprs) && e < |exprs| && e !in done && k < |InputsOf(exprs[e])|
    requires InputsOf(exprs[e])[k].expr < e
    requires forall i :: 0 <= i < k ==> InputsOf(exprs[e])[i].expr in done
    ensures Visit(exprs, e, Visit(exprs, InputsOf(exprs[e])[k].expr, done)) == Visit(exprs, e, done)
  {
    var x := InputsOf(exprs[e])[k].expr;
    var done' := Visit(exprs, x, done);
    VisitAdds(exprs, x, done);
    assert e !in done';
    assert forall y :: y in done ==> y in done';
    VisitsPass(exprs, e, 0, k, done);
    VisitsPass(exprs, e, 0, k + 1, done');
  }

  lemma VisitLast(exprs: seq<Expr>, e: nat, done: seq<nat>)
    requires GraphOk(exprs) && e < |exprs| && e !in done && InputsIn(exprs, e, done)
    ensures Visit(exprs, e, done) == done + [e]
  {
    VisitsPass(exprs, e, 0, |InputsOf(exprs[e])|, done);
  }

  lemma FinishTop(exprs: seq<Expr>, stack: seq<nat>, e: nat, done: seq<nat>)
    requires GraphOk(exprs) && InGraph(exprs, stack) && e < |exprs|
    ensures Finish(exprs, stack + [e], done) == Finish(exprs, stack, Visit(exprs, e, done))
  {
    assert (stack + [e])[..|stack|] == stack;
  }

  /** The constants among the first `k` outputs, each once. */
  ghost function Constants(exprs: seq<Expr>, outputs: seq<Option<Var>>, k: nat): seq<nat>
    requires OutputsOk(exprs, outputs) && k <= |outputs|
  {
    if k == 0 then []
    else
      var done := Constants(exprs, outputs, k - 1);
      if NewConstant(exprs, outputs, k - 1, done) then done + [outputs[k - 1].value.expr] else done
  }

  ghost predicate NewConstant(exprs: seq<Expr>, outputs: seq<Option<Var>>, i: nat, done: seq<nat>)
    requires OutputsOk(exprs, outputs) && i < |outputs|
  {
    outputs[i].Some? && exprs[outputs[i].value.expr] == Leaf(false) && outputs[i].value.expr !in done
  }

  /** The others, in the order in which they are put on the stack. */
  ghost function Others(exprs: seq<Expr>, outputs: seq<Option<Var>>, k: nat): (r: seq<nat>)
    requires OutputsOk(exprs, outputs) && k <= |outputs|
    ensures InGraph(exprs, r)
  {
    if k == 0 then []
    else
      var rest := Others(exprs, outputs, k - 1);
      if outputs[k - 1].Some? && !NewConstant(exprs, outputs, k - 1, Constants(exprs, outputs, k - 1)) then
        rest + [outputs[k - 1].value.expr]
      else rest
  }

  ghost predicate OutputsOk(exprs: seq<Expr>, outputs: seq<Option<Var>>)
  {
    forall i :: 0 <= i < |outputs| && outputs[i].Some? ==> outputs[i].value.expr < |exprs|
  }

  /** Constants first, then depth first from the last output to the first. */
  ghost function DepthFirst(exprs: seq<Expr>, outputs: seq<Option<Var>>): seq<nat>
    requires GraphOk(exprs) && OutputsOk(exprs, outputs)
  {
    Finish(exprs, Others(exprs, outputs, |outputs|), Constants(exprs, outputs, |outputs|))
  }

  // --- The program ---

  /** The inputs of `e` before the one numbered `k` are visited, and that one, `x`, is not. */
  ghost predicate FirstOpen(exprs: seq<Expr>, e: nat, flags: seq<bool>, k: nat, x: nat)
    requires e < |exprs| && k < |InputsOf(exprs[e])|
  {
    && InputsOf(exprs[e])[k].expr == x
    && forall i :: 0 <= i < k ==> InputsOf(exprs[e])[i].expr < |flags| && flags[InputsOf(exprs[e])[i].expr]
  }

  /** The first input that is not visited. */
  method FindUnvisited(exprs: seq<Expr>, e: nat, visited: array<bool>) returns (next: Option<nat>)
    requires GraphOk(exprs) && visited.Length == |exprs| && e < |exprs|
    ensures next.Some? ==> next.value < e && !visited[next.value]
    ensures next.Some? ==> exists k: nat :: k < |InputsOf(exprs[e])| && FirstOpen(exprs, e, visited[..], k, next.value)
    ensures next.None? ==> forall k :: 0 <= k < |InputsOf(exprs[e])| ==>
                             InputsOf(exprs[e])[k].expr < |exprs| && visited[InputsOf(exprs[e])[k].expr]
  {
    var inputs := InputsOf(exprs[e]);
    assert ExprOk(exprs, e);
    for k := 0 to |inputs|
      invariant forall i :: 0 <= i < k ==> inputs[i].expr < |exprs| && visited[inputs[i].expr]
    {
      assert VarOk(exprs, inputs[k], e);
      if !visited[inputs[k].expr] {
        assert FirstOpen(exprs, e, visited[..], k, inputs[k].expr);
        return Some(inputs[k].expr);
      }
    }
    return None;
  }

  /** One turn of the search. */
  method Turn(
    exprs: seq<Expr>, stack: seq<nat>, visited: array<bool>, order: seq<nat>, ghost want: set<nat>,
    ghost roots: set<nat>)
    returns (stack': seq<nat>, order': seq<nat>)
    requires GraphOk(exprs) && WantOk(exprs, want) && stack != [] && visited.Length == |exprs|
    requires SearchOk(exprs, want, roots, stack, visited[..], order) && InGraph(exprs, stack)
    modifies visited
    ensures SearchOk(exprs, want, roots, stack', visited[..], order') && InGraph(exprs, stack')
    ensures Finish(exprs, stack', order') == Finish(exprs, stack, order)
    ensures || Unvisited(visited[..]) < Unvisited(old(visited[..]))
            || (visited[..] == old(visited[..]) && Flagged(stack', visited[..]) < Flagged(stack, visited[..]))
            || (&& visited[..] == old(visited[..]) && Flagged(stack', visited[..]) == Flagged(stack, visited[..])
                && Top(stack') < Top(stack))
  {
    ghost var flags := visited[..];
    var e := stack[|stack| - 1];
    assert e in want && stack == stack[..|stack| - 1] + [e];
    FinishTop(exprs, stack[..|stack| - 1], e, order);
    if visited[e] {
      Pop(exprs, want, roots, stack, flags, order);
      return stack[..|stack| - 1], order;
    }
    var next := FindUnvisited(exprs, e, visited);
    if next.Some? {
      assert InputsWanted(exprs, e, want);
      Push(exprs, want, roots, stack, flags, order, next.value);
      PushKeepsFlagged(stack, flags, next.value);
      OpenAhead(exprs, e, flags, order, next.value);
      FinishTop(exprs, stack, next.value, order);
      FinishTop(exprs, stack[..|stack| - 1], e, Visit(exprs, next.value, order));
      return stack + [next.value], order;
    }
    AllInputsDone(exprs, flags, order, e);
    VisitLast(exprs, e, order);
    Emit(exprs, want, roots, stack, flags, order, e);
    VisitShrinks(flags, e);
    visited[e] := true;
    assert visited[..] == flags[e := true];
    Pop(exprs, want, roots, stack, visited[..], order + [e]);
    return stack[..|stack| - 1], order + [e];
  }

  lemma OpenAhead(exprs: seq<Expr>, e: nat, flags: seq<bool>, order: seq<nat>, x: nat)
    requires GraphOk(exprs) && |flags| == |exprs| && e < |exprs| && !flags[e] && x < e
    requires forall x :: 0 <= x < |flags| ==> (flags[x] <==> x in order)
    requires exists k: nat :: k < |InputsOf(exprs[e])| && FirstOpen(exprs, e, flags, k, x)
    ensures Visit(exprs, e, Visit(exprs, x, order)) == Visit(exprs, e, order)
  {
    var k: nat :| k < |InputsOf(exprs[e])| && FirstOpen(exprs, e, flags, k, x);
    VisitAhead(exprs, e, k, order);
  }

  lemma AllInputsDone(exprs: seq<Expr>, flags: seq<bool>, order: seq<nat>, e: nat)
    requires e < |exprs| && |flags| == |exprs| && forall x :: 0 <= x < |flags| ==> (flags[x] <==> x in order)
    requires forall k :: 0 <= k < |InputsOf(exprs[e])| ==>
               InputsOf(exprs[e])[k].expr < |exprs| && flags[InputsOf(exprs[e])[k].expr]
    ensures InputsIn(exprs, e, order)
  {
  }

  ghost function Roots(outputs: seq<Option<Var>>): set<nat>
  {
    set i | 0 <= i < |outputs| && outputs[i].Some? :: outputs[i].value.expr
  }

  /** Constants among the outputs go first; the others are put on the stack. */
  method Start(exprs: seq<Expr>, outputs: seq<Option<Var>>, visited: array<bool>, ghost want: set<nat>)
    returns (stack: seq<nat>, order: seq<nat>)
    requires visited.Length == |exprs| && forall e :: 0 <= e < |exprs| ==> !visited[e]
    requires Roots(outputs) <= want && (forall e :: e in want ==> e < |exprs|) && OutputsOk(exprs, outputs)
    modifies visited
    ensures SearchOk(exprs, want, Roots(outputs), stack, visited[..], order)
    ensures stack == Others(exprs, outputs, |outputs|) && order == Constants(exprs, outputs, |outputs|)
  {
    stack, order := [], [];
    for i := 0 to |outputs|
      invariant SearchOk(exprs, want, Roots(outputs[..i]), stack, visited[..], order)
      invariant stack == Others(exprs, outputs, i) && order == Constants(exprs, outputs, i)
    {
      RootsStep(outputs, i);
      if outputs[i].Some? {
        assert outputs[i].value.expr in Roots(outputs);
        stack, order := StartAt(exprs, outputs, visited, want, i, stack, order);
      }
    }
    assert outputs[..|outputs|] == outputs;
  }

  /** One output. */
  method StartAt(exprs: seq<Expr>, outputs: seq<Option<Var>>, visited: array<bool>, ghost want: set<nat>, i: nat,
                 stack: seq<nat>, order: seq<nat>)
    returns (stack': seq<nat>, order': seq<nat>)
    requires visited.Length == |exprs| && OutputsOk(exprs, outputs) && i < |outputs| && outputs[i].Some?
    requires outputs[i].value.expr in want && SearchOk(exprs, want, Roots(outputs[..i]), stack, visited[..], order)
    requires stack == Others(exprs, outputs, i) && order == Constants(exprs, outputs, i)
    modifies visited
    ensures SearchOk(exprs, want, Roots(outputs[..i]) + {outputs[i].value.expr}, stack', visited[..], order')
    ensures stack' == Others(exprs, outputs, i + 1) && order' == Constants(exprs, outputs, i + 1)
  {
    ghost var roots := Roots(outputs[..i]);
    var e := outputs[i].value.expr;
    stack', order' := stack, order;
    if exprs[e] == Leaf(false) && !visited[e] {
      Emit(exprs, want, roots, stack, visited[..], order, e);
      ghost var flags := visited[..];
      visited[e] := true;
      assert visited[..] == flags[e := true];
      order' := order + [e];
      assert order'[|order|] == e;
    } else {
      assert visited[e] == visited[..][e];
      Push(exprs, want, roots, stack, visited[..], order, e);
      stack' := stack + [e];
    }
  }

  lemma RootsStep(outputs: seq<Option<Var>>, i: nat)
    requires i < |outputs|
    ensures Roots(outputs[..i + 1]) ==
            if outputs[i].Some? then Roots(outputs[..i]) + {outputs[i].value.expr} else Roots(outputs[..i])
  {
    var a, b := Roots(outputs[..i]), Roots(outputs[..i + 1]);
    forall x | x in b
      ensures x in a || (outputs[i].Some? && x == outputs[i].value.expr)
    {
      var k :| 0 <= k < i + 1 && outputs[..i + 1][k].Some? && outputs[..i + 1][k].value.expr == x;
      assert k < i ==> outputs[..i][k] == outputs[k];
    }
    forall x | x in a
      ensures x in b
    {
      var k :| 0 <= k < i && outputs[..i][k].Some? && outputs[..i][k].value.expr == x;
      assert outputs[..i + 1][k] == outputs[k];
    }
    if outputs[i].Some? {
      assert outputs[..i + 1][i] == outputs[i];
    }
  }

  ghost function WantedSet(exprs: seq<Expr>, outputs: seq<Option<Var>>): (r: set<nat>)
    requires GraphOk(exprs)
    ensures forall e: nat :: e in r <==> e < |exprs| && Wanted(exprs, outputs, e)
  {
    set e: nat | e < |exprs| && Wanted(exprs, outputs, e)
  }

  lemma WantedClosed(exprs: seq<Expr>, outputs: seq<Option<Var>>)
    requires GraphOk(exprs) && OutputsOk(exprs, outputs)
    ensures WantOk(exprs, WantedSet(exprs, outputs)) && Roots(outputs) <= WantedSet(exprs, outputs)
  {
    var want := WantedSet(exprs, outputs);
    forall e, k | e in want && 0 <= k < |InputsOf(exprs[e])|
      ensures InputsOf(exprs[e])[k].expr in want
    {
      var i :| 0 <= i < |outputs| && outputs[i].Some? && DependsOn(exprs, outputs[i].value.expr, e);
      DependsOnInput(exprs, e, k);
      DependsTrans(exprs, outputs[i].value.expr, e, exprs[e].inputs[k].expr);
      assert ExprOk(exprs, e);
    }
    forall r | r in Roots(outputs)
      ensures r in want
    {
      var i :| 0 <= i < |outputs| && outputs[i].Some? && outputs[i].value.expr == r;
      assert DependsOn(exprs, outputs[i].value.expr, r);
    }
  }

  /** An order that holds `r` holds everything `r` depends on. */
  lemma {:induction false} OrderClosed(exprs: seq<Expr>, order: seq<nat>, r: nat, e: nat)
    requires GraphOk(exprs) && InputsFirst(exprs, order) && r in order && DependsOn(exprs, r, e)
    ensures e in order
    decreases r
  {
    if r != e {
      assert ExprOk(exprs, r);
      var k :| 0 <= k < |exprs[r].inputs| && DependsOn(exprs, exprs[r].inputs[k].expr, e);
      var i :| 0 <= i < |order| && order[i] == r;
      assert InputsIn(exprs, order[i], order[..i]);
      assert InputsOf(exprs[r])[k].expr in order[..i];
      OrderClosed(exprs, order, exprs[r].inputs[k].expr, e);
    }
  }

  lemma SearchDone(exprs: seq<Expr>, outputs: seq<Option<Var>>, flags: seq<bool>, order: seq<nat>)
    requires GraphOk(exprs) && SearchOk(exprs, WantedSet(exprs, outputs), Roots(outputs), [], flags, order)
    ensures OrderOk(exprs, outputs, order)
  {
    forall e: nat
      ensures e in order <==> Wanted(exprs, outputs, e)
    {
      if e in order {
        var i :| 0 <= i < |order| && order[i] == e;
        assert order[i] in WantedSet(exprs, outputs);
      } else if Wanted(exprs, outputs, e) {
        var i :| 0 <= i < |outputs| && outputs[i].Some? && DependsOn(exprs, outputs[i].value.expr, e);
        assert outputs[i].value.expr in Roots(outputs);
        OrderClosed(exprs, order, outputs[i].value.expr, e);
      }
    }
  }

  method Reset(visited: array<bool>, order: seq<nat>)
    requires forall e :: 0 <= e < visited.Length ==> (visited[e] <==> e in order)
    requires forall i :: 0 <= i < |order| ==> order[i] < visited.Length
    modifies visited
    ensures forall e :: 0 <= e < visited.Length ==> !visited[e]
  {
    for i := 0 to |order|
      invariant forall e :: 0 <= e < visited.Length && visited[e] ==> e in order[i..]
    {
      visited[order[i]] := false;
      assert order[i..] == [order[i]] + order[i + 1..];
    }
  }

  /** `visited` holds the flags of the expressions, which are all clear between calls. */
  method GetExecuteOrder(exprs: seq<Expr>, outputs: seq<Option<Var>>, visited: array<bool>) returns (order: seq<nat>)
    requires GraphOk(exprs) && OutputsOk(exprs, outputs)
    requires visited.Length == |exprs| && forall e :: 0 <= e < |exprs| ==> !visited[e]
    modifies visited
    ensures forall e :: 0 <= e < |exprs| ==> !visited[e]
    ensures OrderOk(exprs, outputs, order) && order == DepthFirst(exprs, outputs)
  {
    ghost var want := WantedSet(exprs, outputs);
    WantedClosed(exprs, outputs);
    var stack;
    stack, order := Start(exprs, outputs, visited, want);
    while stack != []
      invariant SearchOk(exprs, want, Roots(outputs), stack, visited[..], order) && InGraph(exprs, stack)
      invariant Finish(exprs, stack, order) == DepthFirst(exprs, outputs)
      decreases Unvisited(visited[..]), Flagged(stack, visited[..]), Top(stack)
    {
      stack, order := Turn(exprs, stack, visited, order, want, Roots(outputs));
    }
    SearchDone(exprs, outputs, visited[..], order);
    assert forall i :: 0 <= i < |order| ==> order[i] in want;
    Reset(visited, order);
  }
}
