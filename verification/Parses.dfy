/** A parse that is fixed step by step: each token is right at the place that the tokens before it lead to. */
module Parses {
  /** Where a parse starts, where a token leads, and which tokens are right at a place. */
  datatype Rules<!P, !T> = Rules(start: P, next: (P, T) -> P, right: (P, T) -> bool)

  /** The place behind the tokens. */
  ghost function Replay<P, T>(rules: Rules<P, T>, tokens: seq<T>): P
  {
    if tokens == [] then rules.start
    else rules.next(Replay(rules, tokens[..|tokens| - 1]), tokens[|tokens| - 1])
  }

  ghost predicate Chosen<P, T>(rules: Rules<P, T>, tokens: seq<T>, k: nat)
    requires k < |tokens|
  {
    rules.right(Replay(rules, tokens[..k]), tokens[k])
  }

  /** The tokens lead to place `p`, and each is right at its own place. */
  ghost predicate ParsesTo<P, T>(rules: Rules<P, T>, tokens: seq<T>, p: P)
  {
    Replay(rules, tokens) == p && forall k :: 0 <= k < |tokens| ==> Chosen(rules, tokens, k)
  }

  lemma ParseMore<P, T>(rules: Rules<P, T>, tokens: seq<T>, p: P, t: T)
    requires ParsesTo(rules, tokens, p) && rules.right(p, t)
    ensures ParsesTo(rules, tokens + [t], rules.next(p, t))
  {
    var tokens' := tokens + [t];
    assert tokens'[..|tokens|] == tokens;
    forall k | 0 <= k < |tokens'|
      ensures Chosen(rules, tokens', k)
    {
      if k < |tokens| {
        assert Chosen(rules, tokens, k) && tokens'[..k] == tokens[..k];
      }
    }
  }

  /** The last token was right where the ones before it lead. */
  lemma ParseLess<P, T>(rules: Rules<P, T>, tokens: seq<T>, p: P)
    requires ParsesTo(rules, tokens, p) && tokens != []
    ensures var init, t := tokens[..|tokens| - 1], tokens[|tokens| - 1];
            var p0 := Replay(rules, init);
            ParsesTo(rules, init, p0) && rules.right(p0, t) && p == rules.next(p0, t)
  {
    var init := tokens[..|tokens| - 1];
    assert Chosen(rules, tokens, |tokens| - 1);
    forall k | 0 <= k < |init|
      ensures Chosen(rules, init, k)
    {
      assert Chosen(rules, tokens, k) && init[..k] == tokens[..k];
    }
  }

  /** What holds at the start and is kept by each right token holds of every parse. */
  lemma {:induction false} ParseKeeps<P(!new), T(!new)>(rules: Rules<P, T>, keeps: (seq<T>, P) -> bool,
                                                        tokens: seq<T>, p: P)
    requires ParsesTo(rules, tokens, p) && keeps([], rules.start)
    requires forall s: seq<T>, q: P, t: T :: keeps(s, q) && rules.right(q, t) ==> keeps(s + [t], rules.next(q, t))
    ensures keeps(tokens, p)
  {
    if tokens != [] {
      var init, t := tokens[..|tokens| - 1], tokens[|tokens| - 1];
      ParseLess(rules, tokens, p);
      ParseKeeps(rules, keeps, init, Replay(rules, init));
      assert tokens == init + [t];
    }
  }

  /** What the tokens come to in the output. */
  function Joined<T, B>(form: T -> seq<B>, tokens: seq<T>): seq<B>
  {
    if tokens == [] then [] else Joined(form, tokens[..|tokens| - 1]) + form(tokens[|tokens| - 1])
  }

  lemma JoinedMore<T, B>(form: T -> seq<B>, tokens: seq<T>, t: T)
    ensures Joined(form, tokens + [t]) == Joined(form, tokens) + form(t)
  {
    assert (tokens + [t])[..|tokens|] == tokens;
  }

  /** At most one token is right at a place. */
  ghost predicate Determined<P(!new), T(!new)>(rules: Rules<P, T>)
  {
    forall p: P, t: T, t': T :: rules.right(p, t) && rules.right(p, t') ==> t == t'
  }

  /** No token is right at the end. */
  ghost predicate Final<P, T(!new)>(rules: Rules<P, T>, p: P)
  {
    forall t: T :: !rules.right(p, t)
  }

  /** As far as both go, two parses agree. */
  lemma {:induction false} ParsesAgree<P(!new), T(!new)>(rules: Rules<P, T>, s: seq<T>, p: P, t: seq<T>, q: P, k: nat)
    requires Determined(rules) && ParsesTo(rules, s, p) && ParsesTo(rules, t, q) && k <= |s| && k <= |t|
    ensures s[..k] == t[..k]
  {
    if k > 0 {
      ParsesAgree(rules, s, p, t, q, k - 1);
      assert Chosen(rules, s, k - 1) && Chosen(rules, t, k - 1);
      assert s[..k] == s[..k - 1] + [s[k - 1]] && t[..k] == t[..k - 1] + [t[k - 1]];
    }
  }

  /** Where one parse stops, the next token of a longer one is right. */
  lemma GoesOn<P(!new), T(!new)>(rules: Rules<P, T>, s: seq<T>, p: P, t: seq<T>, q: P)
    requires Determined(rules) && ParsesTo(rules, s, p) && ParsesTo(rules, t, q) && |s| < |t|
    ensures rules.right(p, t[|s|])
  {
    ParsesAgree(rules, s, p, t, q, |s|);
    assert s[..|s|] == s && Chosen(rules, t, |s|);
  }

  /** There is only one complete parse. */
  lemma ParseUnique<P(!new), T(!new)>(rules: Rules<P, T>, s: seq<T>, p: P, t: seq<T>, q: P)
    requires Determined(rules) && ParsesTo(rules, s, p) && ParsesTo(rules, t, q) && Final(rules, p) && Final(rules, q)
    ensures s == t
  {
    if |s| < |t| {
      GoesOn(rules, s, p, t, q);
    }
    if |t| < |s| {
      GoesOn(rules, t, q, s, p);
    }
    ParsesAgree(rules, s, p, t, q, |s|);
    assert s[..|s|] == s && t[..|t|] == t;
  }
}
