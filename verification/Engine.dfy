/** The lazy expression engine. `Expr`, `Variable`, `Executor` and `ComputeCache` objects are rows of the
    fields below; every operation keeps `Valid()`, and a read that succeeds returns the plain evaluation on
    the current leaf contents. */
module Engine {
  import opened Wrappers
  import opened Sequences
  import opened ExprGraph
  import opened Links
  import opened Caches
  import opened Pipelines
  import opened Growth
  import opened Waits
  import opened Reshaping
  import opened CacheWalk
  import opened CacheReach
  import opened ComputeWalk
  import opened Invalidation
  import opened Closure

  class Engine {
    const sem: Semantics
    var exprs: seq<Expr>
    var content: seq<Value>
    var unwritten: seq<bool>
    var infoDirty: seq<bool>
    var home: seq<Option<nat>>
    var offset: seq<nat>
    var to: seq<seq<nat>>
    var caches: seq<Cache>

    function Now(): State
      reads this
    {
      State(exprs, content, unwritten, infoDirty, home, offset, to, caches)
    }

    ghost predicate Valid()
      reads this
    {
      Inv(sem, Now())
    }

    constructor (sem: Semantics)
      ensures Valid() && this.sem == sem
      ensures Now() == State([], [], [], [], [], [], [], [])
    {
      this.sem := sem;
      exprs, content, unwritten, infoDirty, home, offset, to, caches := [], [], [], [], [], [], [], [];
    }

    // --- Creating expressions ---

    /** A CONSTANT has its content from the start, an INPUT waits to be written. */
    method CreateLeaf(isInput: bool, x: Value) returns (e: nat)
      requires Valid()
      modifies this
      ensures Valid() && e == |old(exprs)|
      ensures exprs == old(exprs) + [Leaf(isInput)] && content == old(content) + [x]
      ensures unwritten == old(unwritten) + [isInput] && infoDirty == old(infoDirty) + [false]
      ensures home == old(home) + [None] && caches == old(caches)
      ensures old(Tidy(Now())) ==> Tidy(Now())
    {
      ghost var s := Now();
      e := |exprs|;
      exprs, content, unwritten := exprs + [Leaf(isInput)], content + [x], unwritten + [isInput];
      infoDirty, home, offset, to := infoDirty + [false], home + [None], offset + [0], to + [[]];
      assert to[..|s.to|] == s.to;
      AddKeeps(sem, s, Now(), Leaf(isInput));
      if Tidy(s) {
        AddKeepsTidy(s, Now(), Leaf(isInput));
      }
    }

    /** `Expr::create` with `_addLinkForInputs`. */
    method CreateOp(op: nat, inputs: seq<Var>, outputs: nat) returns (e: nat)
      requires Valid() && forall i :: 0 <= i < |inputs| ==> VarOk(exprs, inputs[i], |exprs|)
      modifies this
      ensures Valid() && e == |old(exprs)|
      ensures exprs == old(exprs) + [Op(op, inputs, outputs)] && content == old(content) + [sem.blank]
      ensures unwritten == old(unwritten) + [false] && infoDirty == old(infoDirty) + [true]
      ensures home == old(home) + [None] && caches == old(caches)
      ensures old(Tidy(Now())) ==> Tidy(Now())
    {
      ghost var s := Now();
      e := |exprs|;
      var links := AddLinks(to, inputs, e);
      exprs, content, unwritten := exprs + [Op(op, inputs, outputs)], content + [sem.blank], unwritten + [false];
      infoDirty, home, offset, to := infoDirty + [true], home + [None], offset + [0], links + [[]];
      assert to[..|s.to|] == links;
      AddKeeps(sem, s, Now(), Op(op, inputs, outputs));
      if Tidy(s) {
        AddKeepsTidy(s, Now(), Op(op, inputs, outputs));
      }
    }

    // --- Telling consumers ---

    /** The walk has been in `seen`, and does not go on there. */
    ghost predicate Tracks(s: State, how: Callback, seen: set<nat>)
      reads this
    {
      Now() == Effect(s, how, seen) && seen == Seen(Now(), how)
    }

    /** The callbacks of `informDirty` and of `resize`. */
    method Visit(x: nat, how: Callback, ghost seen: set<nat>, ghost s: State)
      returns (again: bool, how': Callback, ghost seen': set<nat>)
      requires Structure(s) && Tracks(s, how, seen) && x < |exprs|
      modifies this`caches, this`home, this`infoDirty
      ensures again == (x !in seen) && seen' == seen + {x}
      ensures how'.Inform? == how.Inform? && Tracks(s, how', seen')
    {
      again, how', seen' := false, how, seen + {x};
      match how
      case Inform(visited) =>
        if x in visited {
          assert seen + {x} == seen;
          return;
        }
        assert HomeOk(s, x);
        MarkOne(s, seen, x);
        if home[x].Some? {
          var c := home[x].value;
          caches := caches[c := caches[c].(contentDirty := true)];
        }
        again, how' := true, Inform(visited + {x});
      case Forget =>
        if infoDirty[x] {
          assert seen + {x} == seen;
          return;
        }
        ForgetOne(s, seen, x);
        infoDirty, home := infoDirty[x := true], home[x := None];
        again := true;
        assert Shapeless(Now()) == seen + {x};
    }

    /** `Expr::visitOutputs`: a consumer is offered to the callback at each position where it uses `e`,
        until the callback asks to go on. */
    method VisitOutputs(e: nat, how: Callback, ghost seen: set<nat>, ghost s: State)
      returns (how': Callback, ghost seen': set<nat>)
      requires Structure(s) && Tracks(s, how, seen) && e < |exprs|
      modifies this`caches, this`home, this`infoDirty
      ensures how'.Inform? == how.Inform? && Tracks(s, how', seen')
      ensures Visited(s, e, seen, seen') && ConsumersIn(s, e, seen')
      decreases |exprs| - e
    {
      how', seen' := how, seen;
      for k := 0 to |to[e]|
        invariant how'.Inform? == how.Inform? && Tracks(s, how', seen')
        invariant Visited(s, e, seen, seen')
        invariant forall j :: 0 <= j < k ==> s.to[e][j] in seen'
      {
        var x := to[e][k];
        ConsumerIsAbove(s.exprs, s.to, e, x);
        ghost var before := seen';
        var recurse := false;
        var inputs := exprs[x].inputs;
        for i := 0 to |inputs|
          invariant how'.Inform? == how.Inform? && Tracks(s, how', seen')
          invariant seen' == (if UsesDirectly(inputs[..i], e) then before + {x} else before)
          invariant recurse == (x in seen' && x !in before)
        {
          UsesStep(inputs, i, e);
          if inputs[i].expr == e && !recurse {
            recurse, how', seen' := Visit(x, how', seen', s);
          }
        }
        assert inputs[..|inputs|] == inputs;
        if recurse {
          how', seen' := VisitOutputs(x, how', seen', s);
          VisitedThrough(s, e, x, seen, before, seen');
        } else {
          assert seen' == before;
        }
      }
    }

    /** `Variable::writeMap`: refused for an op; otherwise the caches of all consumers become dirty. */
    method Write(l: nat, x: Value) returns (ok: bool, ghost dirty: set<nat>)
      requires Valid() && l < |exprs|
      modifies this`caches, this`content, this`unwritten, this`home, this`infoDirty
      ensures Valid() && ok == exprs[l].Leaf?
      ensures ok ==> AllConsumers(old(Now()), dirty, l) && Now() == Written(old(Now()), l, x, dirty)
      ensures !ok ==> Now() == old(Now())
      ensures forall e :: e in dirty ==> e < |exprs|
      ensures View(Now()).home == old(View(Now())).home && View(Now()).waits == old(View(Now())).waits
      ensures old(Tidy(Now())) ==> Tidy(Now())
    {
      dirty := {};
      if exprs[l].Op? {
        return false, dirty;
      }
      ghost var s := Now();
      var how := Inform({});
      StartEffect(s, how);
      StartClosed(s, how);
      how, dirty := VisitOutputs(l, how, {}, s);
      VisitsAllConsumers(s, l, {}, dirty);
      content, unwritten := content[l := x], unwritten[l := false];
      WriteKeeps(sem, s, l, x, dirty);
      WrittenLayout(s, l, x, dirty);
      SameShapeWaits(s, Now());
      if Tidy(s) {
        WriteKeepsTidy(s, l, x, dirty);
      }
      return true, dirty;
    }

    /** `Variable::resize` of a leaf to other dimensions: `x` is what the new memory holds. */
    method Reshape(l: nat, x: Value) returns (ghost gone: set<nat>)
      requires Valid() && l < |exprs| && exprs[l].Leaf?
      modifies this`caches, this`content, this`unwritten, this`home, this`infoDirty
      ensures Valid() && AllForget(old(Now()), gone, l) && Now() == Reshaped(old(Now()), l, x, gone)
      ensures old(Tidy(Now())) ==> Tidy(Now())
    {
      ghost var s0 := Now();
      content, unwritten := content[l := x], unwritten[l := true];
      ghost var s := Now();
      SameShapeSelf(s0);
      SameShapeKeeps(s0, s);
      var how := Forget;
      StartEffect(s, how);
      StartClosed(s, how);
      how, gone := VisitOutputs(l, how, Shapeless(s), s);
      VisitsAllConsumers(s, l, Shapeless(s), gone);
      ReshapeKeeps(sem, s0, l, x, gone);
      if Tidy(s0) {
        ReshapeKeepsTidy(s0, l, x, gone);
      }
    }

    // --- Making caches ---

    /** `Expr::requireInfo` when every shape can be inferred. */
    method RequireInfo(e: nat)
      requires Valid() && e < |exprs|
      modifies this`infoDirty
      ensures Valid() && Informed(old(Now()), Now(), e)
      ensures old(Tidy(Now())) ==> Tidy(Now())
      decreases e
    {
      ghost var s := Now();
      if !infoDirty[e] {
        AlreadyInformed(s, e);
        return;
      }
      assert InfoOk(s, e) && ExprOk(exprs, e);
      var inputs := exprs[e].inputs;
      for i := 0 to |inputs|
        invariant Valid() && InformedUpTo(s, Now(), e, i)
      {
        ghost var before := Now();
        RequireInfo(inputs[i].expr);
        InformOneMore(s, before, Now(), e, i);
      }
      InformLast(s, Now(), e);
      infoDirty := infoDirty[e := false];
      InformKeeps(sem, s, Now(), e);
      if Tidy(s) {
        InformKeepsTidy(s, Now());
      }
    }

    method OnlyOps(roots: seq<nat>) returns (ops: seq<nat>)
      requires forall i :: 0 <= i < |roots| ==> roots[i] < |exprs|
      ensures forall k :: 0 <= k < |ops| ==> ops[k] in roots && ops[k] < |exprs| && exprs[ops[k]].Op?
      ensures Elements(ops) == OpsAmong(exprs, roots)
    {
      ops := [];
      for i := 0 to |roots|
        invariant forall k :: 0 <= k < |ops| ==> ops[k] in roots && ops[k] < |exprs| && exprs[ops[k]].Op?
        invariant Elements(ops) == OpsAmong(exprs, roots[..i])
      {
        OpsAmongStep(exprs, roots, i, ops);
        if exprs[roots[i]].Op? {
          ops := ops + [roots[i]];
        }
      }
      assert roots[..|roots|] == roots;
    }

    /** The pipeline of the new cache, and its installation in all roots. */
    method Install(ops: seq<nat>) returns (p: Plan)
      requires Homed(Now())
      requires forall i :: 0 <= i < |ops| ==>
                 ops[i] < |exprs| && exprs[ops[i]].Op? && home[ops[i]].None? && InfoClean(Now(), ops[i])
      modifies this`home, this`offset, this`caches
      ensures Finished(old(Now()), Elements(ops), p) && Now() == Cached(sem, old(Now()), p)
    {
      p := BuildPipeline(Now(), ops);
      var s' := Cached(sem, Now(), p);
      home, offset, caches := s'.home, s'.offset, s'.caches;
    }

    /** `Executor::_makeCache`: leaves among the roots are skipped. */
    method MakeCache(roots: seq<nat>) returns (ghost p: Plan)
      requires Valid()
      requires forall i :: 0 <= i < |roots| ==> roots[i] < |exprs| && home[roots[i]].None? && InfoClean(Now(), roots[i])
      modifies this`home, this`offset, this`caches
      ensures Valid()
      ensures Made(sem, old(Now()), Now(), OpsAmong(exprs, roots), p)
      ensures View(Now()) == Prepared(old(View(Now())), OpsAmong(exprs, roots))
    {
      ghost var s := Now();
      p := Plan([], map[], [], 0, map[], [], {});
      var ops := OnlyOps(roots);
      HomesExist(s);
      if ops == [] {
        assert Elements(ops) == {};
      } else {
        assert ops[0] in Elements(ops);
        p := Install(ops);
      }
      MadeIsPrepared(sem, s, Now(), Elements(ops), p);
    }

    // --- Computing ---

    /** `ComputeCache::resize`: exactly the caches that `c` reaches through shape-dirty ones are resized, each once
        and after its inputs. */
    method Resize(c: nat) returns (ghost done: seq<nat>)
      requires Acyclic(caches) && c < |caches|
      modifies this`caches
      ensures Resized(sem, old(caches), caches, done) && Exactly(old(caches), ShapeDirty(old(caches)), c, done)
    {
      ghost var cs := caches;
      var stack: seq<nat>, visited: set<nat> := [c], {};
      ghost var expanded: set<nat> := {};
      done := [];
      ResizeStart(sem, cs, c);
      while stack != []
        invariant ResizeWalk(sem, cs, caches, c, stack, visited, expanded, done)
        decreases Unexpanded(|cs|, expanded), |stack|
      {
        var top := stack[|stack| - 1];
        if !caches[top].shapeDirty {
          ResizeSkip(sem, cs, caches, c, stack, visited, expanded, done);
          stack, visited := stack[..|stack| - 1], visited + {top};
        } else if !AllVisited(caches[top].inputs, visited) {
          ResizePush(sem, cs, caches, c, stack, visited, expanded, done);
          ExpandShrinks(|cs|, expanded, top);
          stack, expanded := stack + caches[top].inputs, expanded + {top};
        } else {
          ResizePop(sem, cs, caches, c, stack, visited, expanded, done);
          caches := caches[top := ResizeImpl(sem, caches[top])];
          stack, visited, done := stack[..|stack| - 1], visited + {top}, done + [top];
        }
      }
      ResizeEnd(sem, cs, caches, c, visited, expanded, done);
    }

    /** `Session::run`: the ops of the pipeline in order. */
    method RunSession(c: nat)
      requires Valid() && c < |caches| && InputsClean(Now(), c) && !caches[c].shapeDirty
      modifies this`caches
      ensures Valid() && SameShape(old(Now()), Now())
      ensures forall d :: 0 <= d < |caches| && d != c ==> caches[d] == old(caches)[d]
      ensures !caches[c].contentDirty && !caches[c].shapeDirty
    {
      ghost var s := Now();
      var pipe := caches[c].pipeline;
      var tensors := caches[c].tensors;
      for j := 0 to |pipe|
        invariant Now() == s && |tensors| == |s.caches[c].tensors|
        invariant RightUpTo(sem, s, c, tensors, j)
      {
        var args := RefValues(sem, Now(), pipe, tensors, pipe[j].inputs);
        EntryRuns(sem, s, c, tensors, j);
        tensors := WriteOut(sem, pipe[j], args, tensors);
      }
      RunKeeps(sem, s, c, tensors);
      caches := caches[c := caches[c].(tensors := tensors, contentDirty := false)];
    }

    /** One turn of the second loop of `ComputeCache::compute`. */
    method ComputeTurn(
      ghost cs: seq<Cache>, ghost c: nat, stack: seq<nat>, visited: set<nat>, ghost expanded: set<nat>,
      ghost ran: seq<nat>)
      returns (stack': seq<nat>, visited': set<nat>, ghost expanded': set<nat>, ghost ran': seq<nat>)
      requires Valid() && RunWalk(cs, caches, c, stack, visited, expanded, ran) && stack != []
      modifies this`caches
      ensures Valid() && SameShape(old(Now()), Now())
      ensures RunWalk(cs, caches, c, stack', visited', expanded', ran')
      ensures || Unexpanded(|cs|, expanded') < Unexpanded(|cs|, expanded)
              || (expanded' == expanded && |stack'| < |stack|)
    {
      stack', visited', expanded', ran' := stack, visited, expanded, ran;
      var top := stack[|stack| - 1];
      ghost var s := Now();
      SameShapeSelf(s);
      if caches[top].shapeDirty {
        CachesAcyclic(s);
        ghost var done := Resize(top);
        ShapeImpliesContent(s);
        ResizeKeeps(sem, s, caches, done);
        RunResize(sem, cs, s.caches, c, stack, visited, expanded, ran, caches, done);
      }
      ghost var s1 := Now();
      if !caches[top].contentDirty {
        RunPop(cs, caches, c, stack, visited, expanded, ran);
        stack', visited' := stack[..|stack| - 1], visited + {top};
      } else if !AllVisited(caches[top].inputs, visited) {
        RunPush(cs, caches, c, stack, visited, expanded, ran);
        ExpandShrinks(|cs|, expanded, top);
        stack', expanded' := stack + caches[top].inputs, expanded + {top};
      } else {
        VisitedInputsClean(s1, top, visited);
        RunSession(top);
        SameShapeTrans(s, s1, Now());
        RunDone(cs, s1.caches, c, stack, visited, expanded, ran, caches);
        stack', visited', ran' := stack[..|stack| - 1], visited + {top}, ran + [top];
      }
    }

    /** `ComputeCache::compute`: fails exactly when an INPUT leaf below is unwritten, and changes nothing then;
        otherwise exactly the sessions that `c` reaches through dirty caches run, once and after their inputs. */
    method Compute(c: nat) returns (ok: bool, ghost ran: seq<nat>)
      requires Valid() && c < |caches|
      modifies this`caches
      ensures Valid() && SameShape(old(Now()), Now())
      ensures ok <==> !Blocked(old(caches), unwritten, c)
      ensures if ok then !caches[c].contentDirty && Computed(old(caches), caches, c, ran)
              else caches == old(caches) && ran == []
      ensures View(Now()) == old(View(Now())) && (old(Tidy(Now())) ==> Tidy(Now()))
    {
      ghost var cs := caches;
      CachesAcyclic(Now());
      SameShapeSelf(Now());
      RunStart(cs, c);
      SameShapeWaits(Now(), Now());
      ok := CheckReady(caches, unwritten, c);
      ran := [];
      if !ok {
        return;
      }
      var stack: seq<nat>, visited: set<nat> := [c], {};
      ghost var expanded: set<nat> := {};
      while stack != []
        invariant Valid() && SameShape(old(Now()), Now())
        invariant RunWalk(cs, caches, c, stack, visited, expanded, ran)
        decreases Unexpanded(|cs|, expanded), |stack|
      {
        ghost var before := Now();
        stack, visited, expanded, ran := ComputeTurn(cs, c, stack, visited, expanded, ran);
        SameShapeTrans(old(Now()), before, Now());
      }
      RunEnd(cs, caches, c, visited, expanded, ran);
      SameShapeWaits(old(Now()), Now());
      if old(Tidy(Now())) {
        ComputeKeepsTidy(old(Now()), Now(), ran);
      }
    }

    // --- Reading ---

    /** The ops among the variables that have no cache, with their shapes. */
    method UncachedRoots(vars: seq<Var>) returns (roots: seq<nat>)
      requires Valid() && forall i :: 0 <= i < |vars| ==> VarOk(exprs, vars[i], |exprs|)
      modifies this`infoDirty
      ensures Valid() && Now() == old(Now()).(infoDirty := infoDirty) && (old(Tidy(Now())) ==> Tidy(Now()))
      ensures forall k :: 0 <= k < |roots| ==>
                roots[k] < |exprs| && exprs[roots[k]].Op? && home[roots[k]].None? && InfoClean(Now(), roots[k])
      ensures Elements(roots) == Uncached(View(Now()), vars)
    {
      ghost var s := Now();
      roots := [];
      for i := 0 to |vars|
        invariant Valid() && Now() == s.(infoDirty := infoDirty) && (Tidy(s) ==> Tidy(Now()))
        invariant forall k :: 0 <= k < |roots| ==>
                    roots[k] < |exprs| && exprs[roots[k]].Op? && home[roots[k]].None? && InfoClean(Now(), roots[k])
        invariant Elements(roots) == Uncached(View(s), vars[..i])
      {
        var e := vars[i].expr;
        UncachedStep(View(s), vars, i, roots);
        if exprs[e].Op? && e !in roots && home[e].None? {
          ghost var before := Now();
          RequireInfo(e);
          StillClean(before, Now(), e, roots);
          roots := roots + [e];
        }
      }
      assert vars[..|vars|] == vars;
    }

    /** `Variable::prepareCompute`: one cache for all the given variables that have none. */
    method Prepare(vars: seq<Var>) returns (ghost mid: State, ghost p: Plan)
      requires Valid() && forall i :: 0 <= i < |vars| ==> VarOk(exprs, vars[i], |exprs|)
      modifies this`infoDirty, this`home, this`offset, this`caches
      ensures Valid() && View(Now()) == Prepared(old(View(Now())), Uncached(old(View(Now())), vars))
      ensures Structure(mid) && mid == old(Now()).(infoDirty := mid.infoDirty)
      ensures Made(sem, mid, Now(), Uncached(old(View(Now())), vars), p)
      ensures |vars| <= 1 && old(Tidy(Now())) ==> Tidy(Now())
    {
      var roots := UncachedRoots(vars);
      mid := Now();
      p := MakeCache(roots);
      OpsOnly(exprs, roots);
      if |vars| <= 1 && Tidy(mid) && Elements(roots) != {} {
        UncachedFew(View(mid), vars);
        MadeTidy(sem, mid, Now(), Elements(roots), vars[0].expr, p);
      }
    }

    /** The turn of one variable in `Variable::compute`. */
    method ComputeOne(v: Var) returns (ghost ran: seq<nat>)
      requires Valid() && VarOk(exprs, v, |exprs|)
      modifies this`caches
      ensures Valid() && View(Now()) == old(View(Now())) && (old(Tidy(Now())) ==> Tidy(Now()))
      ensures Turned(home, unwritten, v, old(caches), caches, ran)
    {
      var e := v.expr;
      ran := [];
      assert HomeOk(Now(), e);
      if exprs[e].Op? && home[e].Some? {
        var ok;
        ok, ran := Compute(home[e].value);
      }
    }

    /** `Variable::compute`: prepares the variables and then computes their caches one after the other, whatever
        comes of it. `trace` are the caches before the first turn and after each. */
    method ComputeVars(vars: seq<Var>) returns (ghost trace: seq<seq<Cache>>, ghost rans: seq<seq<nat>>)
      requires Valid() && forall i :: 0 <= i < |vars| ==> VarOk(exprs, vars[i], |exprs|)
      modifies this`infoDirty, this`home, this`offset, this`caches
      ensures Valid() && View(Now()) == Prepared(old(View(Now())), Uncached(old(View(Now())), vars))
      ensures TurnedAll(home, unwritten, vars, |vars|, trace, rans)
      ensures old(caches) <= trace[0] && caches == trace[|vars|]
      ensures |trace[0]| == |old(caches)| + if Uncached(old(View(Now())), vars) == {} then 0 else 1
      ensures |vars| <= 1 && old(Tidy(Now())) ==> Tidy(Now())
    {
      ghost var mid, p := Prepare(vars);
      ghost var s := Now();
      MadeGrows(sem, mid, s, Uncached(View(mid), vars), p);
      trace, rans := [caches], [];
      for i := 0 to |vars|
        invariant Valid() && View(Now()) == View(s) && (Tidy(s) ==> Tidy(Now()))
        invariant TurnedAll(home, unwritten, vars, i, trace, rans)
        invariant exprs == s.exprs && trace[0] == s.caches && caches == trace[i]
      {
        ghost var ran := ComputeOne(vars[i]);
        TurnedMore(home, unwritten, vars, i, trace, rans, caches, ran);
        trace, rans := trace + [caches], rans + [ran];
      }
    }

    /** The part of `readInternal` before it computes: the op gets its shape and, if it has none, a cache. */
    method GiveHome(e: nat) returns (ghost mid: State, ghost p: Plan)
      requires Valid() && e < |exprs| && exprs[e].Op?
      modifies this`infoDirty, this`home, this`offset, this`caches
      ensures Valid() && home[e].Some? && home[e].value < |caches|
      ensures View(Now()) == if old(home)[e].None? then Prepared(old(View(Now())), {e}) else old(View(Now()))
      ensures Answers(View(Now()), e) <==> Answers(old(View(Now())), e)
      ensures if old(home)[e].None? then |caches| == |old(caches)| + 1 && old(caches) <= caches
              else caches == old(caches)
      ensures old(home)[e].None? ==>
                Structure(mid) && mid == old(Now()).(infoDirty := mid.infoDirty) && Made(sem, mid, Now(), {e}, p)
      ensures old(Tidy(Now())) ==> Tidy(Now())
    {
      ghost var s := Now();
      RequireInfo(e);
      mid, p := Now(), Plan([], map[], [], 0, map[], [], {});
      StillClean(s, mid, e, []);
      if home[e].None? {
        p := MakeCache([e]);
        OneRoot(exprs, e);
        PreparedAnswers(View(mid), e);
        if Tidy(mid) && mid.home[e].None? {
          MadeTidy(sem, mid, Now(), {e}, e, p);
        }
      }
      assert HomeOk(Now(), e);
    }

    /** The part of `readInternal` that computes. */
    method Fetch(v: Var) returns (r: Option<Value>, ghost ran: seq<nat>)
      requires Valid() && VarOk(exprs, v, |exprs|) && exprs[v.expr].Op?
      requires home[v.expr].Some? && home[v.expr].value < |caches|
      modifies this`caches
      ensures Valid() && SameShape(old(Now()), Now()) && View(Now()) == old(View(Now()))
      ensures if r.Some? then Computed(old(caches), caches, home[v.expr].value, ran)
              else caches == old(caches) && ran == []
      ensures old(Tidy(Now())) ==> Tidy(Now())
      ensures r.Some? <==> Answers(View(Now()), v.expr)
      ensures r.Some? ==> r.value == Eval(sem, exprs, content, v) && AllWritten(exprs, unwritten, v.expr)
      ensures r.Some? ==> Clean(caches, home[v.expr].value)
    {
      var e := v.expr;
      var c := home[e].value;
      HomeAnswers(Now(), e, c);
      var ok;
      ok, ran := Compute(c);
      if !ok {
        return None, ran;
      }
      HomeAnswers(Now(), e, c);
      CacheRefRight(sem, Now(), c, offset[e] + v.index, v);
      HomeWritten(Now(), e, c);
      return Some(caches[c].tensors[offset[e] + v.index]), ran;
    }

    /** `Variable::readInternal`: there is a value exactly when nothing that the read waits for is unwritten, and
        then it is the plain evaluation on the current leaf contents. Of the caches, among them a new one if the
        expression had none, exactly those run that its cache needs. A cache made on the way reads the caches of
        the inputs of its expression, and is clean with them. */
    method Read(v: Var) returns (r: Option<Value>, ghost before: seq<Cache>, ghost ran: seq<nat>)
      requires Valid() && VarOk(exprs, v, |exprs|)
      modifies this`infoDirty, this`home, this`offset, this`caches
      ensures Valid() && View(Now()) == Prepared(old(View(Now())), Uncached(old(View(Now())), [v]))
      ensures r.Some? <==> Answers(old(View(Now())), v.expr)
      ensures r.Some? ==> r.value == Eval(sem, exprs, content, v) && AllWritten(exprs, unwritten, v.expr)
      ensures old(caches) <= before
      ensures |before| == |old(caches)| + if exprs[v.expr].Op? && old(home)[v.expr].None? then 1 else 0
      ensures if r.Some? && exprs[v.expr].Op?
              then home[v.expr].Some? && Computed(before, caches, home[v.expr].value, ran)
              else caches == before && ran == []
      ensures r.Some? && exprs[v.expr].Op? && old(home)[v.expr].None? ==> NewlyRead(old(Now()), Now(), v.expr)
      ensures old(Tidy(Now())) ==> Tidy(Now())
    {
      ghost var s := Now();
      UncachedOne(View(s), v);
      if exprs[v.expr].Leaf? {
        LeafAnswers(s, v.expr);
        return if exprs[v.expr].isInput && unwritten[v.expr] then None else Some(content[v.expr]), caches, [];
      }
      ghost var mid, p := GiveHome(v.expr);
      ghost var s1 := Now();
      before := caches;
      r, ran := Fetch(v);
      if r.Some? && s.home[v.expr].None? {
        NewlyReadHolds(sem, s, mid, s1, Now(), v.expr, p, ran);
      }
    }
  }

  /** The cache of the variable, if it has one, is computed unless it waits for an unwritten leaf. */
  ghost predicate Turned(
    home: seq<Option<nat>>, unwritten: seq<bool>, v: Var, cs: seq<Cache>, cs': seq<Cache>, ran: seq<nat>)
  {
    && v.expr < |home|
    && if home[v.expr].Some? && !Blocked(cs, unwritten, home[v.expr].value)
       then Computed(cs, cs', home[v.expr].value, ran)
       else cs' == cs && ran == []
  }

  /** The first `n` variables have had their turns. */
  ghost predicate TurnedAll(home: seq<Option<nat>>, unwritten: seq<bool>, vars: seq<Var>, n: nat,
                            trace: seq<seq<Cache>>, rans: seq<seq<nat>>)
  {
    && n <= |vars| && |trace| == n + 1 && |rans| == n
    && forall i :: 0 <= i < n ==> Turned(home, unwritten, vars[i], trace[i], trace[i + 1], rans[i])
  }

  lemma TurnedMore(home: seq<Option<nat>>, unwritten: seq<bool>, vars: seq<Var>, n: nat,
                   trace: seq<seq<Cache>>, rans: seq<seq<nat>>, cs: seq<Cache>, ran: seq<nat>)
    requires n < |vars| && TurnedAll(home, unwritten, vars, n, trace, rans)
    requires Turned(home, unwritten, vars[n], trace[n], cs, ran)
    ensures TurnedAll(home, unwritten, vars, n + 1, trace + [cs], rans + [ran])
  {
  }

  lemma MadeGrows(sem: Semantics, s: State, s': State, roots: set<nat>, p: Plan)
    requires Sized(s) && Made(sem, s, s', roots, p)
    ensures s.caches <= s'.caches && |s'.caches| == |s.caches| + if roots == {} then 0 else 1
  {
  }

  // --- Preparing ---

  function OpsAmong(exprs: seq<Expr>, roots: seq<nat>): set<nat>
  {
    set i | 0 <= i < |roots| && roots[i] < |exprs| && exprs[roots[i]].Op? :: roots[i]
  }

  lemma OpsAmongStep(exprs: seq<Expr>, roots: seq<nat>, i: nat, ops: seq<nat>)
    requires i < |roots| && roots[i] < |exprs| && Elements(ops) == OpsAmong(exprs, roots[..i])
    ensures OpsAmong(exprs, roots[..i + 1]) ==
            if exprs[roots[i]].Op? then Elements(ops + [roots[i]]) else Elements(ops)
  {
    var a, b := roots[..i], roots[..i + 1];
    forall e
      ensures e in OpsAmong(exprs, b) <==> e in OpsAmong(exprs, a) || (e == roots[i] && exprs[e].Op?)
    {
      if e in OpsAmong(exprs, a) {
        var k :| 0 <= k < |a| && a[k] == e && a[k] < |exprs| && exprs[a[k]].Op?;
        assert b[k] == e;
      }
      if e == roots[i] {
        assert b[i] == e;
      }
      if e in OpsAmong(exprs, b) {
        var k :| 0 <= k < |b| && b[k] == e && b[k] < |exprs| && exprs[b[k]].Op?;
        assert k < i ==> a[k] == e;
      }
    }
  }

  lemma OpsOnly(exprs: seq<Expr>, roots: seq<nat>)
    requires forall k :: 0 <= k < |roots| ==> roots[k] < |exprs| && exprs[roots[k]].Op?
    ensures OpsAmong(exprs, roots) == Elements(roots)
  {
    forall e
      ensures e in OpsAmong(exprs, roots) <==> e in Elements(roots)
    {
      if e in Elements(roots) {
        var k :| 0 <= k < |roots| && roots[k] == e;
        assert roots[k] in OpsAmong(exprs, roots);
      }
    }
  }

  lemma UncachedStep(p: Plain, vars: seq<Var>, i: nat, roots: seq<nat>)
    requires PlainOk(p) && i < |vars| && vars[i].expr < |p.exprs| && Elements(roots) == Uncached(p, vars[..i])
    ensures var e := vars[i].expr;
            Uncached(p, vars[..i + 1]) ==
            if p.exprs[e].Op? && e !in roots && p.home[e].None? then Elements(roots + [e]) else Elements(roots)
  {
    var a, b, x := vars[..i], vars[..i + 1], vars[i].expr;
    forall e: nat
      ensures e in Uncached(p, b) <==>
              e in Uncached(p, a) || (e == x && e < |p.exprs| && p.exprs[e].Op? && p.home[e].None?)
    {
      if e in Uncached(p, a) {
        var k :| 0 <= k < |a| && a[k].expr == e;
        assert b[k].expr == e;
      }
      if e == x {
        assert b[i].expr == e;
      }
      if e in Uncached(p, b) {
        var k :| 0 <= k < |b| && b[k].expr == e;
        assert k < i ==> a[k].expr == e;
      }
    }
    assert x in roots <==> x in Elements(roots);
  }

  lemma StillClean(s: State, s': State, e: nat, roots: seq<nat>)
    requires Sized(s) && e < |s.exprs| && Informed(s, s', e) && Sized(s')
    requires forall k :: 0 <= k < |roots| ==> InfoClean(s, roots[k])
    ensures InfoClean(s', e) && forall k :: 0 <= k < |roots| ==> InfoClean(s', roots[k])
  {
    assert DependsOn(s.exprs, e, e);
  }

  lemma OneRoot(exprs: seq<Expr>, e: nat)
    requires e < |exprs| && exprs[e].Op?
    ensures OpsAmong(exprs, [e]) == {e}
  {
    assert [e][0] == e;
  }

  lemma UncachedOne(p: Plain, v: Var)
    requires PlainOk(p) && v.expr < |p.exprs|
    ensures Uncached(p, [v]) == if p.exprs[v.expr].Op? && p.home[v.expr].None? then {v.expr} else {}
  {
    assert [v][0] == v;
  }

  lemma UncachedFew(p: Plain, vars: seq<Var>)
    requires PlainOk(p) && |vars| <= 1 && Uncached(p, vars) != {}
    ensures |vars| == 1 && vars[0].expr < |p.exprs| && Uncached(p, vars) == {vars[0].expr}
  {
    if |vars| == 1 {
      var e :| e in Uncached(p, vars);
      assert vars == [vars[0]];
      UncachedOne(p, vars[0]);
    }
  }

  /** A new cache with one root. */
  lemma MadeTidy(sem: Semantics, s: State, s': State, roots: set<nat>, r: nat, p: Plan)
    requires Inv(sem, s) && Tidy(s) && r < |s.exprs| && (roots == {} || roots == {r})
    requires Made(sem, s, s', roots, p) && Sized(s')
    ensures Tidy(s')
  {
    if roots != {} {
      CacheKeepsTidy(sem, s, r, p);
    }
  }

  // --- What a read waits for ---

  lemma HomeAnswers(s: State, e: nat, c: nat)
    requires Structure(s) && e < |s.exprs| && s.home[e] == Some(c) && c < |s.caches|
    ensures Answers(View(s), e) <==> !Blocked(s.caches, s.unwritten, c)
  {
    assert HomeOk(s, e);
    BlockedIff(s.caches, s.unwritten, c);
    forall l: nat
      ensures Awaits(View(s), e, l) <==> WaitsFor(s.caches, c, l)
    {
    }
  }

  lemma PreparedAnswers(p: Plain, e: nat)
    requires PlainOk(p) && e < |p.exprs| && p.exprs[e].Op? && p.home[e].None?
    ensures Answers(Prepared(p, {e}), e) <==> Answers(p, e)
  {
    forall l: nat
      ensures Awaits(Prepared(p, {e}), e, l) <==> Awaits(p, e, l)
    {
      PreparedAwaits(p, e, l);
    }
  }

  /** The cache made for `e` is clean, and so are those that it reads, among them the caches of its inputs. */
  ghost predicate NewlyRead(s: State, s': State, e: nat)
  {
    && e < |s.exprs| && s.exprs[e].Op? && e < |s'.home| && s'.home[e] == Some(|s.caches|)
    && Clean(s'.caches, |s.caches|) && InputsClean(s', |s.caches|)
    && forall i :: 0 <= i < |s.exprs[e].inputs| && s.exprs[e].inputs[i].expr < |s.home|
                   && s.home[s.exprs[e].inputs[i].expr].Some? ==>
         s.home[s.exprs[e].inputs[i].expr].value in s'.caches[|s.caches|].inputs
  }

  lemma NewlyReadHolds(
    sem: Semantics, s: State, mid: State, s1: State, s2: State, e: nat, p: Plan, ran: seq<nat>)
    requires Structure(mid) && mid == s.(infoDirty := mid.infoDirty)
    requires e < |mid.exprs| && mid.exprs[e].Op? && mid.home[e].None? && Made(sem, mid, s1, {e}, p)
    requires SameShape(s1, s2) && RunLog(s1.caches, s2.caches, ran) && Clean(s2.caches, |s.caches|)
    ensures NewlyRead(s, s2, e)
  {
    var c := |s.caches|;
    DstAreRoots(mid, {e}, p);
    HomesExist(mid);
    assert s1.caches[c] == NewCache(sem, p) && SameCache(s1.caches[c], s2.caches[c]);
    RanAfterInputs(s1.caches, s2.caches, ran, c);
    forall i | 0 <= i < |s.exprs[e].inputs| && s.exprs[e].inputs[i].expr < |s.home|
               && s.home[s.exprs[e].inputs[i].expr].Some?
      ensures s.home[s.exprs[e].inputs[i].expr].value in s2.caches[c].inputs
    {
      InputIsRead(mid, {e}, p, e, i);
    }
    forall k | 0 <= k < |s2.caches[c].inputs|
      ensures s2.caches[c].inputs[k] < |s2.caches| && !s2.caches[s2.caches[c].inputs[k]].contentDirty
    {
      assert Clean(s2.caches, s1.caches[c].inputs[k]);
    }
  }

  /** A cache that has become clean has clean inputs. */
  lemma RanAfterInputs(cs0: seq<Cache>, cs: seq<Cache>, ran: seq<nat>, c: nat)
    requires RunLog(cs0, cs, ran) && c < |cs0| && cs0[c].contentDirty && Clean(cs, c)
    ensures forall k :: 0 <= k < |cs0[c].inputs| ==> Clean(cs, cs0[c].inputs[k])
  {
    var i :| 0 <= i < |ran| && ran[i] == c;
    assert InputsDone(cs0, ran, i);
    forall k | 0 <= k < |cs0[c].inputs|
      ensures Clean(cs, cs0[c].inputs[k])
    {
      var d := cs0[c].inputs[k];
      assert d in ran[..i] || Clean(cs0, d);
      if d in ran[..i] {
        var j :| 0 <= j < i && ran[j] == d;
      }
    }
  }

  lemma LeafAnswers(s: State, e: nat)
    requires Sized(s) && e < |s.exprs| && s.exprs[e].Leaf?
    ensures Answers(View(s), e) <==> !(s.exprs[e].isInput && s.unwritten[e])
    ensures Answers(View(s), e) ==> AllWritten(s.exprs, s.unwritten, e)
  {
    if Answers(View(s), e) {
      assert s.unwritten[e] ==> !Awaits(View(s), e, e);
      LeafWritten(s, e);
    }
  }

  lemma LeafWritten(s: State, e: nat)
    requires Sized(s) && e < |s.exprs| && s.exprs[e].Leaf? && (s.exprs[e].isInput ==> !s.unwritten[e])
    ensures AllWritten(s.exprs, s.unwritten, e)
  {
    forall l: nat | l < |s.exprs| && s.exprs[l] == Leaf(true) && DependsOn(s.exprs, e, l)
      ensures !s.unwritten[l]
    {
      LeafDepends(s.exprs, e, l);
    }
  }

  lemma HomeWritten(s: State, e: nat, c: nat)
    requires Structure(s) && e < |s.exprs| && s.home[e] == Some(c) && c < |s.caches|
    requires !Blocked(s.caches, s.unwritten, c)
    ensures AllWritten(s.exprs, s.unwritten, e)
  {
    assert HomeOk(s, e);
    var j: nat :| HomeEntry(s, e, c, j);
    forall l: nat | l < |s.exprs| && s.exprs[l] == Leaf(true) && DependsOn(s.exprs, e, l)
      ensures !s.unwritten[l]
    {
      ReachedWritten(s, c, j, l);
    }
  }

  lemma CachesAcyclic(s: State)
    requires Structure(s)
    ensures Acyclic(s.caches)
  {
    forall c | 0 <= c < |s.caches|
      ensures Below(s.caches[c].inputs, c)
    {
      assert CacheOk(s, c);
    }
  }

  lemma ShapeImpliesContent(s: State)
    requires Structure(s)
    ensures forall c :: 0 <= c < |s.caches| && s.caches[c].shapeDirty ==> s.caches[c].contentDirty
  {
    forall c | 0 <= c < |s.caches| && s.caches[c].shapeDirty
      ensures s.caches[c].contentDirty
    {
      assert CacheOk(s, c);
    }
  }

  lemma SameShapeSelf(s: State)
    requires Structure(s)
    ensures SameShape(s, s)
  {
    forall c | 0 <= c < |s.caches|
      ensures SameCache(s.caches[c], s.caches[c])
    {
      assert CacheOk(s, c);
    }
  }

  lemma SameShapeTrans(a: State, b: State, c: State)
    requires SameShape(a, b) && SameShape(b, c)
    ensures SameShape(a, c)
  {
    forall d | 0 <= d < |a.caches|
      ensures SameCache(a.caches[d], c.caches[d])
    {
      assert SameCache(a.caches[d], b.caches[d]) && SameCache(b.caches[d], c.caches[d]);
    }
  }

  lemma VisitedInputsClean(s: State, c: nat, visited: set<nat>)
    requires c < |s.caches| && AllVisited(s.caches[c].inputs, visited)
    requires forall x :: x in visited ==> Clean(s.caches, x)
    ensures InputsClean(s, c)
  {
    forall k | 0 <= k < |s.caches[c].inputs|
      ensures Clean(s.caches, s.caches[c].inputs[k])
    {
    }
  }

  lemma WrittenLayout(s: State, l: nat, x: Value, dirty: set<nat>)
    requires Structure(s) && l < |s.exprs|
    ensures SameShape(s, Written(s, l, x, dirty))
  {
    forall d | 0 <= d < |s.caches|
      ensures SameCache(s.caches[d], Written(s, l, x, dirty).caches[d])
    {
      assert CacheOk(s, d);
    }
  }
}
