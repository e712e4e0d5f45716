/** The two levels of the compressed stream above single bits: tokens, and the codes that spell them. */
module Tokens {
  import opened Wrappers
  import opened Bits
  import opened Inflate

  /** A match carries the indices of its length code and its distance code. */
  datatype Token = Literal(b: byte) | Match(len: nat, dist: nat, l: nat, d: nat)

  /** Code word and length of a literal/length symbol. */
  function Code(n: nat): (r: (nat, nat))
    requires n <= 287
  {
    if n <= 143 then (0x30 + n, 8)
    else if n <= 255 then (0x190 + n - 144, 9)
    else if n <= 279 then (n - 256, 7)
    else (0xc0 + n - 280, 8)
  }

  function CodeBits(n: nat): seq<bool>
    requires n <= 287
  {
    Msb(Code(n).0, Code(n).1)
  }

  predicate InRange(x: nat, base: nat, extra: nat)
  {
    base <= x < base + Pow2(extra)
  }

  function Expand(t: Token, out: seq<byte>): seq<byte>
  {
    match t
    case Literal(b) => out + [b]
    case Match(len, dist, _, _) => if 1 <= dist <= |out| then CopyMatch(out, len, dist) else out
  }

  // --- Reading back what was written ---

  lemma ReadBackLsb(bits: seq<bool>, pos: nat, x: nat, n: nat)
    requires At(bits, pos, Lsb(x, n)) && x < Pow2(n)
    ensures ReadLsb(bits, pos, n) == Some(x)
  {
    LsbRoundTrip(bits, pos, x, n);
  }

  lemma ReadBackMsb(bits: seq<bool>, pos: nat, x: nat, n: nat, m: nat)
    requires At(bits, pos, Msb(x, n)) && x < Pow2(n) && m <= n
    ensures ReadMsb(bits, pos, m) == Some(High(x, n - m))
  {
    MsbPrefix(bits, pos, x, n, m);
  }

  /** The fixed code is prefix-free and the decoder inverts it, whatever follows. */
  lemma DecodeCode(bits: seq<bool>, pos: nat, n: nat)
    requires n <= 287 && At(bits, pos, CodeBits(n))
    ensures DecodeSymbol(bits, pos) == Some((n, pos + Code(n).1))
  {
    var (c, len) := Code(n);
    Pow2Small();
    ReadBackMsb(bits, pos, c, len, len);
    ReadBackMsb(bits, pos, c, len, 7);
    assert High(c, 0) == c;
    if len >= 8 {
      assert High(c, 1) == c / 2;
      ReadBackMsb(bits, pos, c, len, 8);
    }
    if len == 9 {
      assert High(c, 2) == High(c / 2, 1) == c / 2 / 2;
    }
  }

  /** A value above its base, in `extra` bits. */
  function ExtraBits(x: nat, base: nat, extra: nat): seq<bool>
  {
    Lsb(if base <= x then x - base else 0, extra)
  }

  lemma ReadBackExtra(bits: seq<bool>, pos: nat, x: nat, base: nat, extra: nat)
    requires InRange(x, base, extra) && At(bits, pos, ExtraBits(x, base, extra))
    ensures ReadExtra(bits, pos, base, extra) == Some((x, pos + extra))
  {
    ReadBackLsb(bits, pos, x - base, extra);
  }

  /** A five-bit code followed by its extra bits. */
  lemma ReadBackCoded(bits: seq<bool>, pos: nat, d: nat, x: nat, base: nat, extra: nat)
    requires d <= 29 && InRange(x, base, extra) && At(bits, pos, Msb(d, 5) + ExtraBits(x, base, extra))
    ensures ReadMsb(bits, pos, 5) == Some(d) && ReadExtra(bits, pos + 5, base, extra) == Some((x, pos + 5 + extra))
  {
    AtSplit(bits, pos, Msb(d, 5), ExtraBits(x, base, extra));
    Pow2Small();
    ReadBackMsb(bits, pos, d, 5, 5);
    ReadBackExtra(bits, pos + 5, x, base, extra);
  }

  // --- Whole streams, over any code ---

  /** A way of writing symbols, lengths and distances as bits, and which lengths and distances
      each code covers. */
  datatype Coder = Coder(
    symbol: nat -> seq<bool>,
    length: (nat, nat) -> seq<bool>,
    distance: (nat, nat) -> seq<bool>,
    lengthOk: (nat, nat) -> bool,
    distanceOk: (nat, nat) -> bool)

  /** A token that can follow the output `out`. */
  predicate Fits(c: Coder, t: Token, out: seq<byte>)
  {
    t.Match? ==> t.l <= 28 && c.lengthOk(t.l, t.len) && t.d <= 29 && c.distanceOk(t.d, t.dist) && 1 <= t.dist <= |out|
  }

  ghost predicate InvertsSymbol(f: Format, c: Coder, bits: seq<bool>, pos: nat, n: nat)
  {
    n <= 285 && At(bits, pos, c.symbol(n)) ==>
      c.symbol(n) != [] && f.symbol(bits, pos) == Some((n, pos + |c.symbol(n)|))
  }

  ghost predicate InvertsLength(f: Format, c: Coder, bits: seq<bool>, pos: nat, l: nat, len: nat)
  {
    l <= 28 && c.lengthOk(l, len) && At(bits, pos, c.length(l, len)) ==>
      f.length(bits, pos, l + 257) == Some((len, pos + |c.length(l, len)|))
  }

  ghost predicate InvertsDistance(f: Format, c: Coder, bits: seq<bool>, pos: nat, d: nat, dist: nat)
  {
    d <= 29 && c.distanceOk(d, dist) && At(bits, pos, c.distance(d, dist)) ==>
      f.distance(bits, pos) == Some((dist, pos + |c.distance(d, dist)|))
  }

  /** The decoder's readers undo the coder's writers, whatever follows in the stream. */
  ghost predicate Inverts(f: Format, c: Coder)
  {
    && (forall bits: seq<bool>, pos: nat, n: nat :: InvertsSymbol(f, c, bits, pos, n))
    && (forall bits: seq<bool>, pos: nat, l: nat, len: nat :: InvertsLength(f, c, bits, pos, l, len))
    && (forall bits: seq<bool>, pos: nat, d: nat, dist: nat :: InvertsDistance(f, c, bits, pos, d, dist))
  }

  function TokenBits(c: Coder, t: Token): seq<bool>
  {
    match t
    case Literal(b) => c.symbol(b)
    case Match(len, dist, l, d) => c.symbol(l + 257) + (c.length(l, len) + c.distance(d, dist))
  }

  /** Wherever `w` occurs, decoding through it turns the output `out` into `out'`. */
  ghost predicate Spells(f: Format, out: seq<byte>, w: seq<bool>, out': seq<byte>)
  {
    forall bits: seq<bool>, pos: nat :: At(bits, pos, w) ==>
      DecodeSymbols(f, bits, pos, out) == DecodeSymbols(f, bits, pos + |w|, out')
  }

  lemma SpellsNothing(f: Format, out: seq<byte>)
    ensures Spells(f, out, [], out)
  {
  }

  lemma SpellsConcat(f: Format, o1: seq<byte>, w: seq<bool>, o2: seq<byte>, w': seq<bool>, o3: seq<byte>)
    requires Spells(f, o1, w, o2) && Spells(f, o2, w', o3)
    ensures Spells(f, o1, w + w', o3)
  {
    forall bits: seq<bool>, pos: nat | At(bits, pos, w + w')
      ensures DecodeSymbols(f, bits, pos, o1) == DecodeSymbols(f, bits, pos + |w + w'|, o3)
    {
      AtSplit(bits, pos, w, w');
      assert pos + |w + w'| == pos + |w| + |w'|;
    }
  }

  /** Given what the parts of a match decode to, the decoder copies and continues. */
  lemma DecodeParts(f: Format, bits: seq<bool>, pos: nat, out: seq<byte>,
                    symbol: nat, p1: nat, len: nat, p2: nat, dist: nat, p3: nat)
    requires f.symbol(bits, pos) == Some((symbol, p1)) && symbol > 256 && pos < p1 <= |bits|
    requires f.length(bits, p1, symbol) == Some((len, p2))
    requires f.distance(bits, p2) == Some((dist, p3)) && pos < p3 <= |bits| && 1 <= dist <= |out|
    ensures DecodeSymbols(f, bits, pos, out) == DecodeSymbols(f, bits, p3, CopyMatch(out, len, dist))
  {
  }

  /** The three parts of a match, read in turn. */
  lemma MatchParts(f: Format, c: Coder, t: Token, out: seq<byte>, bits: seq<bool>, pos: nat)
    requires Inverts(f, c) && t.Match? && Fits(c, t, out) && At(bits, pos, TokenBits(c, t))
    ensures var p1 := pos + |c.symbol(t.l + 257)|;
            var p2 := p1 + |c.length(t.l, t.len)|;
            var p3 := p2 + |c.distance(t.d, t.dist)|;
            && f.symbol(bits, pos) == Some((t.l + 257, p1)) && pos < p1 <= p2 <= p3 <= |bits|
            && f.length(bits, p1, t.l + 257) == Some((t.len, p2)) && f.distance(bits, p2) == Some((t.dist, p3))
            && p3 == pos + |TokenBits(c, t)|
  {
    var w1, w2, w3 := c.symbol(t.l + 257), c.length(t.l, t.len), c.distance(t.d, t.dist);
    AtSplit(bits, pos, w1, w2 + w3);
    AtSplit(bits, pos + |w1|, w2, w3);
    assert InvertsSymbol(f, c, bits, pos, t.l + 257);
    assert InvertsLength(f, c, bits, pos + |w1|, t.l, t.len);
    assert InvertsDistance(f, c, bits, pos + |w1| + |w2|, t.d, t.dist);
  }

  lemma SpellsMatch(f: Format, c: Coder, t: Token, out: seq<byte>, bits: seq<bool>, pos: nat)
    requires Inverts(f, c) && t.Match? && Fits(c, t, out) && At(bits, pos, TokenBits(c, t))
    ensures DecodeSymbols(f, bits, pos, out) ==
            DecodeSymbols(f, bits, pos + |TokenBits(c, t)|, CopyMatch(out, t.len, t.dist))
  {
    MatchParts(f, c, t, out, bits, pos);
    var p1 := pos + |c.symbol(t.l + 257)|;
    var p2 := p1 + |c.length(t.l, t.len)|;
    DecodeParts(f, bits, pos, out, t.l + 257, p1, t.len, p2, t.dist, p2 + |c.distance(t.d, t.dist)|);
  }

  /** Each token spells its own expansion. */
  lemma SpellsToken(f: Format, c: Coder, t: Token, out: seq<byte>)
    requires Inverts(f, c) && Fits(c, t, out)
    ensures Spells(f, out, TokenBits(c, t), Expand(t, out))
  {
    forall bits: seq<bool>, pos: nat | At(bits, pos, TokenBits(c, t))
      ensures DecodeSymbols(f, bits, pos, out) == DecodeSymbols(f, bits, pos + |TokenBits(c, t)|, Expand(t, out))
    {
      match t
      case Literal(b) => assert InvertsSymbol(f, c, bits, pos, b);
      case Match(_, _, _, _) => SpellsMatch(f, c, t, out, bits, pos);
    }
  }

  // --- The fixed code ---

  function SymbolBits(n: nat): seq<bool>
  {
    if n <= 287 then CodeBits(n) else []
  }

  function LengthBits(l: nat, len: nat): seq<bool>
  {
    ExtraBits(len, LengthBase(l), LengthExtra(l))
  }

  function DistanceBits(d: nat, dist: nat): seq<bool>
  {
    Msb(d, 5) + ExtraBits(dist, DistBase(d), DistExtra(d))
  }

  predicate LengthOk(l: nat, len: nat)
  {
    InRange(len, LengthBase(l), LengthExtra(l))
  }

  predicate DistanceOk(d: nat, dist: nat)
  {
    InRange(dist, DistBase(d), DistExtra(d))
  }

  const FIXED_CODER := Coder(SymbolBits, LengthBits, DistanceBits, LengthOk, DistanceOk)

  lemma FixedSymbol(bits: seq<bool>, pos: nat, n: nat)
    ensures InvertsSymbol(FIXED, FIXED_CODER, bits, pos, n)
  {
    if n <= 285 && At(bits, pos, SymbolBits(n)) {
      DecodeCode(bits, pos, n);
    }
  }

  lemma LengthBack(bits: seq<bool>, pos: nat, l: nat, len: nat, base: nat, extra: nat)
    requires l <= 28 && base == LengthBase(l) && extra == LengthExtra(l) && InRange(len, base, extra)
    requires At(bits, pos, ExtraBits(len, base, extra))
    ensures DecodeLength(bits, pos, l + 257) == Some((len, pos + extra))
  {
    ReadBackExtra(bits, pos, len, base, extra);
  }

  lemma FixedLength(bits: seq<bool>, pos: nat, l: nat, len: nat)
    ensures InvertsLength(FIXED, FIXED_CODER, bits, pos, l, len)
  {
    if l <= 28 && LengthOk(l, len) && At(bits, pos, LengthBits(l, len)) {
      LengthBack(bits, pos, l, len, LengthBase(l), LengthExtra(l));
    }
  }

  lemma DistanceBack(bits: seq<bool>, pos: nat, d: nat, dist: nat, base: nat, extra: nat)
    requires d <= 29 && base == DistBase(d) && extra == DistExtra(d) && InRange(dist, base, extra)
    requires At(bits, pos, Msb(d, 5) + ExtraBits(dist, base, extra))
    ensures DecodeDistance(bits, pos) == Some((dist, pos + 5 + extra))
  {
    ReadBackCoded(bits, pos, d, dist, base, extra);
  }

  lemma CodedLength(d: nat, x: nat, base: nat, extra: nat)
    ensures |Msb(d, 5) + ExtraBits(x, base, extra)| == 5 + extra
  {
  }

  lemma DistanceAt(bits: seq<bool>, pos: nat, d: nat, dist: nat)
    requires d <= 29 && DistanceOk(d, dist) && At(bits, pos, DistanceBits(d, dist))
    ensures DecodeDistance(bits, pos) == Some((dist, pos + |DistanceBits(d, dist)|))
  {
    DistanceBack(bits, pos, d, dist, DistBase(d), DistExtra(d));
    CodedLength(d, dist, DistBase(d), DistExtra(d));
  }

  lemma FixedDistanceAt(bits: seq<bool>, pos: nat, d: nat, dist: nat)
    requires d <= 29 && FIXED_CODER.distanceOk(d, dist) && At(bits, pos, FIXED_CODER.distance(d, dist))
    ensures FIXED.distance(bits, pos) == Some((dist, pos + |FIXED_CODER.distance(d, dist)|))
  {
    DistanceAt(bits, pos, d, dist);
  }

  lemma FixedDistance(bits: seq<bool>, pos: nat, d: nat, dist: nat)
    ensures InvertsDistance(FIXED, FIXED_CODER, bits, pos, d, dist)
  {
    if d <= 29 && FIXED_CODER.distanceOk(d, dist) && At(bits, pos, FIXED_CODER.distance(d, dist)) {
      FixedDistanceAt(bits, pos, d, dist);
    }
  }

  /** The fixed tables of section 3.2.6 invert the compressor's code words. */
  lemma FixedInverts()
    ensures Inverts(FIXED, FIXED_CODER)
  {
    forall bits: seq<bool>, pos: nat, n: nat
      ensures InvertsSymbol(FIXED, FIXED_CODER, bits, pos, n)
    {
      FixedSymbol(bits, pos, n);
    }
    forall bits: seq<bool>, pos: nat, l: nat, len: nat
      ensures InvertsLength(FIXED, FIXED_CODER, bits, pos, l, len)
    {
      FixedLength(bits, pos, l, len);
    }
    forall bits: seq<bool>, pos: nat, d: nat, dist: nat
      ensures InvertsDistance(FIXED, FIXED_CODER, bits, pos, d, dist)
    {
      FixedDistance(bits, pos, d, dist);
    }
  }

  // --- Matches ---

  /** `data` repeats at `i` the `len` bytes found at `loc`. */
  ghost predicate Repeats(data: seq<byte>, loc: nat, i: nat, len: nat)
  {
    loc < i && i + len <= |data| && forall k :: i <= k < i + len ==> data[k] == data[k - i + loc]
  }

  /** A match that repeats earlier data expands to the data itself, also where it overlaps. */
  lemma MatchExpands(data: seq<byte>, i: nat, loc: nat, len: nat)
    requires Repeats(data, loc, i, len)
    ensures CopyMatch(data[..i], len, i - loc) == data[..i + len]
  {
    var r := CopyMatch(data[..i], len, i - loc);
    CopyRepeats(data[..i], len, i - loc);
    assert r[..i] == data[..i];
    forall k | i <= k < i + len
      ensures r[k] == r[k - (i - loc)] && data[k] == data[k - (i - loc)]
    {
    }
    CopiesAgree(data, r, i, i - loc, i + len);
    assert r[..i + len] == r;
  }

  lemma {:induction false} CopyRepeats(out: seq<byte>, len: nat, dist: nat)
    requires 1 <= dist <= |out|
    ensures var r := CopyMatch(out, len, dist);
            && |r| == |out| + len && r[..|out|] == out
            && forall k :: |out| <= k < |r| ==> r[k] == r[k - dist]
    decreases len
  {
    if len > 0 {
      var next := out + [out[|out| - dist]];
      CopyRepeats(next, len - 1, dist);
      var r := CopyMatch(next, len - 1, dist);
      assert r[..|out|] == r[..|next|][..|out|] == out;
      assert r[|out|] == r[..|next|][|out|] && r[|out| - dist] == r[..|out|][|out| - dist];
    }
  }

  lemma {:induction false} CopiesAgree(data: seq<byte>, r: seq<byte>, i: nat, dist: nat, n: nat)
    requires 1 <= dist <= i <= n <= |data| && n <= |r| && r[..i] == data[..i]
    requires forall k :: i <= k < n ==> r[k] == r[k - dist] && data[k] == data[k - dist]
    ensures r[..n] == data[..n]
    decreases n
  {
    if n > i {
      CopiesAgree(data, r, i, dist, n - 1);
      assert r[n - 1 - dist] == r[..n - 1][n - 1 - dist] == data[n - 1 - dist];
      assert r[..n] == r[..n - 1] + [r[n - 1]];
      assert data[..n] == data[..n - 1] + [data[n - 1]];
    }
  }
}
