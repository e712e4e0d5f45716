/** The walk of `Expr::visitOutputs` with its two callbacks. `Variable::informDirty` enters no expression twice,
    and `Expr::setInfoDirty` none that has lost its shape already; both reach all consumers of a leaf. */
module Invalidation {
  import opened Wrappers
  import opened ExprGraph
  import opened Links
  import opened Caches
  import opened Reshaping

  /** `Inform` makes the caches of consumers dirty and keeps the visited flags, `Forget` drops their shapes and
      their caches. */
  datatype Callback = Inform(visited: set<nat>) | Forget

  /** What has no shape. */
  function Shapeless(s: State): (r: set<nat>)
    ensures forall x: nat :: x in r <==> x < |s.infoDirty| && s.infoDirty[x]
  {
    set x: nat | x < |s.infoDirty| && s.infoDirty[x]
  }

  /** Where the callback does not go on. */
  function Seen(s: State, how: Callback): set<nat>
  {
    match how case Inform(visited) => visited case Forget => Shapeless(s)
  }

  /** The state when the walk has been in `seen`. */
  function Effect(s: State, how: Callback, seen: set<nat>): State
  {
    match how
    case Inform(_) => s.(caches := MarkAll(s, seen))
    case Forget => Forgotten(s, seen)
  }

  /** The walk starts with nothing visited. */
  predicate Starts(how: Callback)
  {
    how.Inform? ==> how.visited == {}
  }

  lemma StartEffect(s: State, how: Callback)
    requires Structure(s) && Starts(how)
    ensures Effect(s, how, Seen(s, how)) == s
  {
    match how
    case Inform(_) =>
      assert MarkAll(s, {}) == s.caches;
    case Forget =>
      var s' := Forgotten(s, Shapeless(s));
      forall e: nat | e < |s.exprs|
        ensures s'.home[e] == s.home[e] && s'.infoDirty[e] == s.infoDirty[e]
      {
        assert InfoOk(s, e);
      }
      assert s'.home == s.home && s'.infoDirty == s.infoDirty;
  }

  ghost predicate ConsumersIn(s: State, e: nat, seen: set<nat>)
    requires e < |s.to|
  {
    forall k :: 0 <= k < |s.to[e]| ==> s.to[e][k] in seen
  }

  /** `x` was reached from `e` and its own consumers have been visited. */
  ghost predicate Reached(s: State, e: nat, x: nat, seen: set<nat>)
    requires Sized(s)
  {
    e < x < |s.exprs| && DependsOn(s.exprs, x, e) && ConsumersIn(s, x, seen)
  }

  /** Visiting on behalf of `e` has taken the visited set from `a` to `b`. */
  ghost predicate Visited(s: State, e: nat, a: set<nat>, b: set<nat>)
    requires Sized(s)
  {
    a <= b && forall x :: x in b && x !in a ==> Reached(s, e, x, b)
  }

  /** A direct consumer `x` of `e` and everything visited on behalf of `x` count as visited for `e`. */
  lemma VisitedThrough(s: State, e: nat, x: nat, a: set<nat>, b: set<nat>, c: set<nat>)
    requires Structure(s) && e < |s.exprs| && x in s.to[e] && x < |s.exprs|
    requires Visited(s, e, a, b) && Visited(s, x, b + {x}, c) && ConsumersIn(s, x, c)
    ensures Visited(s, e, a, c)
  {
    ConsumerIsAbove(s.exprs, s.to, e, x);
    forall y | y in c && y !in a
      ensures Reached(s, e, y, c)
    {
      if y in b {
        assert Reached(s, e, y, b);
      } else if y != x {
        assert Reached(s, x, y, c);
        DependsTrans(s.exprs, y, x, e);
      }
    }
  }

  /** Whoever uses what the walk takes for visited is taken for visited too. */
  ghost predicate ClosedUp(s: State, a: set<nat>)
  {
    forall x :: x in a ==> x < |s.to| && ConsumersIn(s, x, a)
  }

  lemma StartClosed(s: State, how: Callback)
    requires Structure(s) && Starts(how)
    ensures ClosedUp(s, Seen(s, how))
  {
    forall x | x in Seen(s, how)
      ensures x < |s.to| && ConsumersIn(s, x, Seen(s, how))
    {
      forall k | 0 <= k < |s.to[x]|
        ensures s.to[x][k] in Shapeless(s)
      {
        var y := s.to[x][k];
        ConsumerIsAbove(s.exprs, s.to, x, y);
        assert InfoOk(s, y);
        var i :| 0 <= i < |s.exprs[y].inputs| && s.exprs[y].inputs[i].expr == x;
        assert !s.infoDirty[y] ==> InfoClean(s, InputsOf(s.exprs[y])[i].expr);
      }
    }
  }

  /** Nothing is missed, although consumers that count as visited are not entered. */
  lemma {:induction false} NothingMissed(s: State, l: nat, a: set<nat>, seen: set<nat>, e: nat)
    requires Structure(s) && ClosedUp(s, a) && Visited(s, l, a, seen) && l < |s.exprs| && ConsumersIn(s, l, seen)
    requires e < |s.exprs| && e != l && DependsOn(s.exprs, e, l)
    ensures e in seen
    decreases e
  {
    assert ExprOk(s.exprs, e);
    var i :| 0 <= i < |s.exprs[e].inputs| && DependsOn(s.exprs, s.exprs[e].inputs[i].expr, l);
    var d := s.exprs[e].inputs[i].expr;
    assert VarOk(s.exprs, s.exprs[e].inputs[i], e);
    InputIsLinked(s.exprs, s.to, e, i);
    if d != l {
      NothingMissed(s, l, a, seen, d);
      if d in a {
        assert ConsumersIn(s, d, a);
      } else {
        assert Reached(s, l, d, seen);
      }
    }
  }

  /** Afterwards exactly the consumers of `l` have been added. */
  lemma VisitsAllConsumers(s: State, l: nat, a: set<nat>, seen: set<nat>)
    requires Structure(s) && ClosedUp(s, a) && Visited(s, l, a, seen) && l < |s.exprs| && ConsumersIn(s, l, seen)
    ensures forall e: nat :: e < |s.exprs| ==> (e in seen <==> e in a || (e != l && DependsOn(s.exprs, e, l)))
    ensures forall e :: e in seen ==> e < |s.exprs|
  {
    forall e: nat | e < |s.exprs|
      ensures e in seen <==> e in a || (e != l && DependsOn(s.exprs, e, l))
    {
      if e in seen && e !in a {
        assert Reached(s, l, e, seen);
      } else if e !in a && e != l && DependsOn(s.exprs, e, l) {
        NothingMissed(s, l, a, seen, e);
      }
    }
    forall e | e in seen
      ensures e < |s.exprs|
    {
      assert e !in a ==> Reached(s, l, e, seen);
    }
  }

  /** Marking one more expression. */
  lemma MarkOne(s: State, seen: set<nat>, x: nat)
    requires x < |s.home| && (s.home[x].Some? ==> s.home[x].value < |s.caches|)
    ensures MarkAll(s, seen + {x}) ==
            if s.home[x].Some?
            then MarkAll(s, seen)[s.home[x].value := MarkAll(s, seen)[s.home[x].value].(contentDirty := true)]
            else MarkAll(s, seen)
  {
    var a, b := MarkAll(s, seen), MarkAll(s, seen + {x});
    forall c | 0 <= c < |b|
      ensures b[c] == if s.home[x] == Some(c) then a[c].(contentDirty := true) else a[c]
    {
      if LivesIn(s, seen, c) {
        var e :| e in seen && e < |s.home| && s.home[e] == Some(c);
        assert e in seen + {x};
      }
      if s.home[x] == Some(c) {
        assert x in seen + {x};
      }
    }
  }

  lemma ForgetOne(s: State, seen: set<nat>, x: nat)
    requires x < |s.home| == |s.infoDirty|
    ensures Forgotten(s, seen + {x}) ==
            Forgotten(s, seen).(home := Forgotten(s, seen).home[x := None],
                                infoDirty := Forgotten(s, seen).infoDirty[x := true])
  {
    var a, b := Forgotten(s, seen), Forgotten(s, seen + {x});
    assert b.home == a.home[x := None];
    assert b.infoDirty == a.infoDirty[x := true];
  }
}
