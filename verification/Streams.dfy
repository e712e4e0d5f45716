/** Byte streams with a read position. */
module Streams {
  import opened Bits

  /** `chunk` lies in the stream at `pos`. */
  ghost predicate Lies(s: seq<byte>, pos: nat, chunk: seq<byte>)
  {
    pos + |chunk| <= |s| && s[pos..pos + |chunk|] == chunk
  }

  lemma LiesSplit(s: seq<byte>, pos: nat, a: seq<byte>, b: seq<byte>)
    requires Lies(s, pos, a + b)
    ensures Lies(s, pos, a) && Lies(s, pos + |a|, b)
  {
    var c := s[pos..pos + |a + b|];
    assert s[pos..pos + |a|] == c[..|a|] == a;
    assert s[pos + |a|..pos + |a| + |b|] == c[|a|..] == b;
  }

  lemma LiesHead(s: seq<byte>, pos: nat, b: byte, rest: seq<byte>)
    requires Lies(s, pos, [b] + rest)
    ensures pos < |s| && s[pos] == b && Lies(s, pos + 1, rest)
  {
    LiesSplit(s, pos, [b], rest);
    assert s[pos..pos + 1][0] == b;
  }
}
