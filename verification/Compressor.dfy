/** The match finder and the main loop of `stbi_zlib_compress`, proved against the decompressor. */
module Compressor {
  import opened Wrappers
  import opened Bits
  import opened Inflate
  import opened Tokens
  import opened Parses
  import opened Zlib
  import AdlerSum

  const ZHASH := 16384

  const LENGTHC: seq<nat> :=
    [3, 4, 5, 6, 7, 8, 9, 10, 11, 13, 15, 17, 19, 23, 27, 31, 35, 43, 51, 59, 67, 83, 99, 115, 131, 163, 195, 227,
     258, 259]
  const LENGTHEB: seq<nat> :=
    [0, 0, 0, 0, 0, 0, 0, 0, 1, 1, 1, 1, 2, 2, 2, 2, 3, 3, 3, 3, 4, 4, 4, 4, 5, 5, 5, 5, 0]
  const DISTC: seq<nat> :=
    [1, 2, 3, 4, 5, 7, 9, 13, 17, 25, 33, 49, 65, 97, 129, 193, 257, 385, 513, 769, 1025, 1537, 2049, 3073, 4097, 6145,
     8193, 12289, 16385, 24577, 32768]
  const DISTEB: seq<nat> :=
    [0, 0, 0, 0, 1, 1, 2, 2, 3, 3, 4, 4, 5, 5, 6, 6, 7, 7, 8, 8, 9, 9, 10, 10, 11, 11, 12, 12, 13, 13]

  // --- Matching ---

  /** `stbiw__zhash`: the hash of three bytes, in 32-bit arithmetic. */
  function Hash(a: byte, b: byte, c: byte): nat
  {
    var h0 := (a as bv32) + ((b as bv32) << 8) + ((c as bv32) << 16);
    var h1 := h0 ^ (h0 << 3);
    var h2 := h1 + (h1 >> 5);
    var h3 := h2 ^ (h2 << 4);
    var h4 := h3 + (h3 >> 17);
    var h5 := h4 ^ (h4 << 25);
    var h6 := h5 + (h5 >> 6);
    h6 as nat
  }

  /** Any hash will do for what follows. */
  type Hasher = (byte, byte, byte) -> nat

  /** `n` is how far the data at `i` repeats the data at `loc`, capped at 258 and at the end of the data. */
  ghost predicate LongestRepeat(data: seq<byte>, loc: nat, i: nat, n: nat)
  {
    Repeats(data, loc, i, n) && n <= 258 && (n == 258 || i + n == |data| || data[loc + n] != data[i + n])
  }

  /** `stbiw__zlib_countm`. */
  method CountMatch(data: seq<byte>, loc: nat, i: nat) returns (n: nat)
    requires loc < i <= |data|
    ensures LongestRepeat(data, loc, i, n)
  {
    n := 0;
    while n < |data| - i && n < 258 && data[loc + n] == data[i + n]
      invariant Repeats(data, loc, i, n) && n <= 258
    {
      n := n + 1;
    }
  }

  ghost predicate Earlier(list: seq<nat>, i: nat)
  {
    forall k :: 0 <= k < |list| ==> list[k] < i
  }

  /** A candidate worth considering: its position and the length it matches. */
  ghost predicate Candidate(data: seq<byte>, list: seq<nat>, i: nat, window: nat, k: nat, n: nat)
  {
    0 <= k < |list| && list[k] + window > i && LongestRepeat(data, list[k], i, n)
  }

  /** The longest match of at least three bytes among the stored positions inside the window, and the newest of
      the longest ones. */
  ghost predicate Found(data: seq<byte>, i: nat, list: seq<nat>, best: nat, loc: Option<nat>)
  {
    && (loc.Some? ==> 3 <= best && (exists k: nat :: Newest(data, i, list, best, |list|, k) && list[k] == loc.value))
    && (forall k: nat, n: nat :: Candidate(data, list, i, 32768, k, n) ==> if loc.Some? then n <= best else n < 3)
  }

  /** Candidate `k` has length `best`, and none after it up to `m` does. */
  ghost predicate Newest(data: seq<byte>, i: nat, list: seq<nat>, best: nat, m: nat, k: nat)
  {
    && k < m && Candidate(data, list, i, 32768, k, best)
    && forall j: nat :: k < j < m ==> !Candidate(data, list, i, 32768, j, best)
  }

  /** Some stored position matches for longer than `best`. */
  ghost predicate Better(data: seq<byte>, next: nat, list: seq<nat>, best: nat)
  {
    exists k: nat, e: nat :: Candidate(data, list, next, 32768, k, e) && e > best
  }

  method FindMatch(data: seq<byte>, i: nat, list: seq<nat>) returns (best: nat, loc: Option<nat>)
    requires i <= |data| && Earlier(list, i)
    ensures Found(data, i, list, best, loc)
  {
    best, loc := 3, None;
    for j := 0 to |list|
      invariant 3 <= best
      invariant loc.Some? ==> exists k: nat :: Newest(data, i, list, best, j, k) && list[k] == loc.value
      invariant forall k: nat, n: nat :: k < j && Candidate(data, list, i, 32768, k, n) ==>
                  if loc.Some? then n <= best else n < 3
      invariant loc.None? ==> best == 3
    {
      if list[j] as int > i - 32768 {
        var d := CountMatch(data, list[j], i);
        assert Candidate(data, list, i, 32768, j, d);
        forall n: nat | Candidate(data, list, i, 32768, j, n)
          ensures n == d
        {
          LongestUnique(data, list[j], i, n, d);
        }
        if d >= best {
          best, loc := d, Some(list[j]);
          assert Newest(data, i, list, best, j + 1, j);
        }
      }
    }
  }

  lemma LongestUnique(data: seq<byte>, loc: nat, i: nat, m: nat, n: nat)
    requires LongestRepeat(data, loc, i, m) && LongestRepeat(data, loc, i, n)
    ensures m == n
  {
  }

  /** Lazy matching: some stored position matches the data at `next` for longer than `best`. */
  method BetterNext(data: seq<byte>, next: nat, list: seq<nat>, best: nat) returns (better: bool)
    requires next <= |data| && Earlier(list, next)
    ensures better <==> Better(data, next, list, best)
  {
    better := false;
    for j := 0 to |list|
      invariant forall k: nat, e: nat :: k < j && Candidate(data, list, next, 32768, k, e) ==> e <= best
    {
      if list[j] as int > (next - 1) - 32767 {
        var e := CountMatch(data, list[j], next);
        assert Candidate(data, list, next, 32768, j, e);
        if e > best {
          return true;
        }
        forall n: nat | Candidate(data, list, next, 32768, j, n)
          ensures n == e
        {
          LongestUnique(data, list[j], next, n, e);
        }
      }
    }
  }

  // --- Tables ---

  /** The compressor's length tables are those of section 3.2.5 of RFC 1951 with one more entry at the end. */
  lemma SameTables()
    ensures LENGTHC == LENGTH_BASE + [259] && LENGTHEB == LENGTH_EXTRA
    ensures DISTC == DIST_BASE + [32768] && DISTEB == DIST_EXTRA
  {
  }

  /** Each row reaches no further than its extra bits can express. */
  lemma LengthReach(j: nat)
    requires j <= 28
    ensures LENGTHEB[j] <= 5 && LENGTHC[j + 1] <= LENGTHC[j] + Pow2(LENGTHEB[j])
  {
    RowReach(LENGTHC[j], LENGTHC[j + 1], LENGTHEB[j]);
  }

  /** The sizes of rows with up to 13 extra bits. */
  lemma RowReach(a: nat, b: nat, n: nat)
    requires n <= 13
    requires b <= a + if n < 7 then [1, 2, 4, 8, 16, 32, 64][n] else [128, 256, 512, 1024, 2048, 4096, 8192][n - 7]
    ensures b <= a + Pow2(n)
  {
    Pow2Small();
  }

  lemma DistReach(j: nat)
    requires j <= 29
    ensures DISTEB[j] <= 13 && DISTC[j + 1] <= DISTC[j] + Pow2(DISTEB[j])
  {
    RowReach(DISTC[j], DISTC[j + 1], DISTEB[j]);
  }

  lemma LengthTable(j: nat, len: nat)
    requires j <= 28 && LENGTHC[j] <= len < LENGTHC[j + 1]
    ensures LengthOk(j, len) && LENGTHC[j] == LengthBase(j) && LENGTHEB[j] == LengthExtra(j) <= 5
  {
    SameTables();
    LengthReach(j);
  }

  lemma DistTable(j: nat, dist: nat)
    requires j <= 29 && DISTC[j] <= dist < DISTC[j + 1]
    ensures DistanceOk(j, dist) && DISTC[j] == DistBase(j) && DISTEB[j] == DistExtra(j) <= 13
  {
    SameTables();
    DistReach(j);
  }

  // --- The main loop ---

  ghost predicate TableOk(table: array<seq<nat>>, i: nat)
    reads table
  {
    table.Length == ZHASH && forall h :: 0 <= h < ZHASH ==> Earlier(table[h], i)
  }

  function HashAt(hash: Hasher, data: seq<byte>, i: nat): (h: nat)
    requires i + 2 < |data|
    ensures h < ZHASH
  {
    hash(data[i], data[i + 1], data[i + 2]) % ZHASH
  }

  /** The lists after `i` has been added to the one of its hash, which is halved first when it is full. */
  function Entered(lists: seq<seq<nat>>, h: nat, i: nat, quality: nat): (r: seq<seq<nat>>)
    requires h < |lists|
  {
    lists[h := (if |lists[h]| == 2 * quality then lists[h][quality..] else lists[h]) + [i]]
  }

  /** Looks `i` up and stores it: the matches come from the list as it was before storing. */
  method Lookup(hash: Hasher, table: array<seq<nat>>, data: seq<byte>, i: nat, quality: nat)
    returns (best: nat, loc: Option<nat>)
    requires TableOk(table, i) && i + 3 < |data| && quality >= 5
    modifies table
    ensures TableOk(table, i + 1) && table[..] == Entered(old(table[..]), HashAt(hash, data, i), i, quality)
    ensures Found(data, i, old(table[..])[HashAt(hash, data, i)], best, loc)
    ensures loc.Some? ==> MatchOk(data, i, best, loc.value)
  {
    var h := HashAt(hash, data, i);
    best, loc := FindMatch(data, i, table[h]);
    if loc.Some? {
      FoundIsMatch(data, i, table[h], best, loc);
    }
    Store(table, h, i, quality);
  }

  /** A match that the format can express. */
  ghost predicate MatchOk(data: seq<byte>, i: nat, best: nat, loc: nat)
  {
    loc < i && i - loc <= 32767 && 3 <= best <= 258 && LongestRepeat(data, loc, i, best)
  }

  lemma FoundIsMatch(data: seq<byte>, i: nat, list: seq<nat>, best: nat, loc: Option<nat>)
    requires Found(data, i, list, best, loc) && loc.Some? && Earlier(list, i)
    ensures MatchOk(data, i, best, loc.value)
  {
  }

  method Store(table: array<seq<nat>>, h: nat, i: nat, quality: nat)
    requires TableOk(table, i) && h < ZHASH
    modifies table
    ensures TableOk(table, i + 1) && table[..] == Entered(old(table[..]), h, i, quality)
  {
    if |table[h]| == 2 * quality {
      table[h] := table[h][quality..];
    }
    table[h] := table[h] + [i];
  }

  /** The linear search for the row that covers `x`. */
  method FindRow(table: seq<nat>, x: nat) returns (j: nat)
    requires |table| >= 2 && table[0] <= x < table[|table| - 1]
    ensures j + 1 < |table| && table[j] <= x < table[j + 1]
  {
    j := 0;
    while x as int > table[j + 1] as int - 1
      invariant j + 1 < |table| && table[j] <= x
      decreases |table| - j
    {
      j := j + 1;
    }
  }

  /** Extra bits are written only when there are any. */
  method WriteExtra(w: BitWriter, x: nat, base: nat, extra: nat)
    requires w.Valid() && InRange(x, base, extra) && extra <= 24
    modifies w
    ensures w.Valid() && w.Stream() == old(w.Stream()) + ExtraBits(x, base, extra)
  {
    if extra > 0 {
      w.Add(x - base, extra);
    } else {
      assert w.Stream() + ExtraBits(x, base, 0) == w.Stream();
    }
  }

  method WriteLength(w: BitWriter, len: nat) returns (l: nat)
    requires w.Valid() && 3 <= len <= 258
    modifies w
    ensures w.Valid() && l <= 28 && LENGTHC[l] <= len < LENGTHC[l + 1] && LengthOk(l, len)
    ensures w.Stream() == old(w.Stream()) + (SymbolBits(l + 257) + LengthBits(l, len))
  {
    l := FindRow(LENGTHC, len);
    LengthTable(l, len);
    w.AddSymbol(l + 257);
    WriteExtra(w, len, LENGTHC[l], LENGTHEB[l]);
    Associate(old(w.Stream()), SymbolBits(l + 257), LengthBits(l, len));
  }

  method WriteDistance(w: BitWriter, dist: nat) returns (d: nat)
    requires w.Valid() && 1 <= dist <= 32767
    modifies w
    ensures w.Valid() && d <= 29 && DISTC[d] <= dist < DISTC[d + 1] && DistanceOk(d, dist)
    ensures w.Stream() == old(w.Stream()) + DistanceBits(d, dist)
  {
    d := FindRow(DISTC, dist);
    DistTable(d, dist);
    Pow2Small();
    w.AddReversed(d, 5);
    WriteExtra(w, dist, DISTC[d], DISTEB[d]);
    Associate(old(w.Stream()), Msb(d, 5), ExtraBits(dist, DISTC[d], DISTEB[d]));
  }

  /** The codes of a match are those whose rows cover its length and its distance. */
  ghost predicate CodesFit(t: Token)
  {
    && t.Match? && t.l <= 28 && LENGTHC[t.l] <= t.len < LENGTHC[t.l + 1]
    && t.d <= 29 && DISTC[t.d] <= t.dist < DISTC[t.d + 1]
  }

  /** Spells one match: length code, extra bits, distance code, extra bits. */
  method WriteMatch(w: BitWriter, len: nat, dist: nat, ghost out: seq<byte>) returns (ghost t: Token)
    requires w.Valid() && 3 <= len <= 258 && 1 <= dist <= 32767 && dist <= |out|
    modifies w
    ensures w.Valid() && CodesFit(t) && t.len == len && t.dist == dist && Fits(FIXED_CODER, t, out)
    ensures w.Stream() == old(w.Stream()) + TokenBits(FIXED_CODER, t)
  {
    var l, d := WritePair(w, len, dist);
    t := Match(len, dist, l, d);
    MatchBits(old(w.Stream()), t, out);
  }

  method WritePair(w: BitWriter, len: nat, dist: nat) returns (l: nat, d: nat)
    requires w.Valid() && 3 <= len <= 258 && 1 <= dist <= 32767
    modifies w
    ensures w.Valid() && CodesFit(Match(len, dist, l, d)) && LengthOk(l, len) && DistanceOk(d, dist)
    ensures w.Stream() == old(w.Stream()) + (SymbolBits(l + 257) + LengthBits(l, len)) + DistanceBits(d, dist)
  {
    l := WriteLength(w, len);
    d := WriteDistance(w, dist);
  }

  /** The parts of a match in the order in which they are written. */
  lemma MatchBits(before: seq<bool>, t: Token, out: seq<byte>)
    requires t.Match? && 3 <= t.len <= 258 && 1 <= t.dist <= 32767 && t.dist <= |out|
    requires t.l <= 28 && t.d <= 29 && LengthOk(t.l, t.len) && DistanceOk(t.d, t.dist)
    ensures Fits(FIXED_CODER, t, out)
    ensures before + (SymbolBits(t.l + 257) + LengthBits(t.l, t.len)) + DistanceBits(t.d, t.dist) ==
            before + TokenBits(FIXED_CODER, t)
  {
    var w1, w2, w3 := SymbolBits(t.l + 257), LengthBits(t.l, t.len), DistanceBits(t.d, t.dist);
    Associate(w1, w2, w3);
    Associate(before, w1 + w2, w3);
  }

  // --- The choice at each position ---

  /** The match to use at `i`, if any: none when the next byte starts a longer one. */
  method Choose(hash: Hasher, table: array<seq<nat>>, data: seq<byte>, i: nat, quality: nat)
    returns (best: nat, loc: Option<nat>)
    requires TableOk(table, i) && i + 3 < |data| && quality >= 5
    modifies table
    ensures TableOk(table, i + 1) && table[..] == Entered(old(table[..]), HashAt(hash, data, i), i, quality)
    ensures loc.Some? ==> MatchOk(data, i, best, loc.value)
    ensures ChosenAt(data, i, old(table[..])[HashAt(hash, data, i)], table[..][HashAt(hash, data, i + 1)], best, loc)
  {
    best, loc := Lookup(hash, table, data, i, quality);
    if loc.Some? {
      var better := BetterNext(data, i + 1, table[HashAt(hash, data, i + 1)], best);
      if better {
        loc := None;
      }
    }
  }

  /** The match found at `i` is used unless the next byte starts a longer one. */
  ghost predicate ChosenAt(data: seq<byte>, i: nat, list: seq<nat>, next: seq<nat>, best: nat, loc: Option<nat>)
  {
    if loc.Some? then Found(data, i, list, best, loc) && !Better(data, i + 1, next, best)
    else
      exists found: Option<nat> ::
        Found(data, i, list, best, found) && (found.None? || Better(data, i + 1, next, best))
  }

  // --- The parse ---

  /** Where the parse stands: the position and the lists of stored positions. */
  datatype Place = Place(pos: nat, lists: seq<seq<nat>>)

  function TokenLength(t: Token): nat
  {
    match t case Literal(_) => 1 case Match(len, _, _, _) => len
  }

  /** The last three bytes are neither looked up nor stored. */
  predicate Searched(data: seq<byte>, p: Place)
  {
    p.pos + 3 < |data| && |p.lists| == ZHASH
  }

  function Next(hash: Hasher, data: seq<byte>, quality: nat, p: Place, t: Token): Place
  {
    Place(p.pos + TokenLength(t),
          if Searched(data, p) then Entered(p.lists, HashAt(hash, data, p.pos), p.pos, quality) else p.lists)
  }

  /** `t` is the match that the choice fixes, or a literal where it fixes none. */
  ghost predicate TokenFor(data: seq<byte>, i: nat, list: seq<nat>, next: seq<nat>, t: Token)
    requires i < |data|
  {
    match t
    case Literal(b) => b == data[i] && exists best: nat :: ChosenAt(data, i, list, next, best, None)
    case Match(len, dist, _, _) => dist <= i && CodesFit(t) && ChosenAt(data, i, list, next, len, Some(i - dist))
  }

  /** `t` is what the choice at this place comes to: the match it fixes, or a literal where it fixes none. */
  ghost predicate TokenAt(hash: Hasher, data: seq<byte>, quality: nat, p: Place, t: Token)
  {
    && p.pos < |data|
    && if Searched(data, p)
       then
         TokenFor(data, p.pos, p.lists[HashAt(hash, data, p.pos)],
                  Entered(p.lists, HashAt(hash, data, p.pos), p.pos, quality)[HashAt(hash, data, p.pos + 1)], t)
       else t == Literal(data[p.pos])
  }

  ghost function ParseRules(hash: Hasher, data: seq<byte>, quality: nat): Rules<Place, Token>
  {
    Rules(Place(0, seq(ZHASH, _ => [])),
          (p, t) => Next(hash, data, quality, p, t),
          (p, t) => TokenAt(hash, data, quality, p, t))
  }

  function TokensBits(tokens: seq<Token>): seq<bool>
  {
    Joined(t => TokenBits(FIXED_CODER, t), tokens)
  }

  /** The stream goes on with the bits of the tokens. */
  ghost predicate Written(stream: seq<bool>, before: seq<bool>, tokens: seq<Token>)
  {
    stream == before + TokensBits(tokens)
  }

  /** One more token at the end. */
  lemma Extend(stream: seq<bool>, before: seq<bool>, tokens: seq<Token>, t: Token)
    requires Written(stream, before, tokens)
    ensures Written(stream + TokenBits(FIXED_CODER, t), before, tokens + [t])
  {
    TokensBitsMore(tokens, t);
    Associate(before, TokensBits(tokens), TokenBits(FIXED_CODER, t));
  }

  lemma TokensBitsMore(tokens: seq<Token>, t: Token)
    ensures TokensBits(tokens + [t]) == TokensBits(tokens) + TokenBits(FIXED_CODER, t)
  {
    JoinedMore(t => TokenBits(FIXED_CODER, t), tokens, t);
  }

  /** The literal branch. */
  method PutLiteral(w: BitWriter, b: byte, ghost before: seq<bool>, ghost tokens: seq<Token>)
    requires w.Valid() && Written(w.Stream(), before, tokens)
    modifies w
    ensures w.Valid() && Written(w.Stream(), before, tokens + [Literal(b)])
  {
    ghost var stream := w.Stream();
    w.AddSymbol(b);
    Extend(stream, before, tokens, Literal(b));
  }

  /** The match branch. */
  method PutMatch(w: BitWriter, data: seq<byte>, i: nat, loc: nat, len: nat, ghost before: seq<bool>,
                  ghost tokens: seq<Token>)
    returns (ghost t: Token)
    requires w.Valid() && Written(w.Stream(), before, tokens) && MatchOk(data, i, len, loc)
    modifies w
    ensures MatchToken(t, len, i - loc)
    ensures w.Valid() && Written(w.Stream(), before, tokens + [t])
  {
    ghost var stream := w.Stream();
    t := WriteMatch(w, len, i - loc, data[..i]);
    Extend(stream, before, tokens, t);
  }

  ghost predicate MatchToken(t: Token, len: nat, dist: int)
  {
    CodesFit(t) && t.len == len && t.dist == dist
  }

  /** Where the parse stands while the choice at `p` is written: the position is looked up and stored already. */
  ghost predicate Choosing(hash: Hasher, data: seq<byte>, quality: nat, p: Place, entered: seq<seq<nat>>, best: nat,
                           loc: Option<nat>)
  {
    && Searched(data, p) && entered == Entered(p.lists, HashAt(hash, data, p.pos), p.pos, quality)
    && ChosenAt(data, p.pos, p.lists[HashAt(hash, data, p.pos)], entered[HashAt(hash, data, p.pos + 1)], best, loc)
  }

  /** Writes the match that was chosen. */
  method PutChosen(hash: Hasher, w: BitWriter, data: seq<byte>, quality: nat, ghost p: Place, i: nat,
                   ghost entered: seq<seq<nat>>, best: nat, loc: Option<nat>, ghost before: seq<bool>,
                   ghost tokens: seq<Token>)
    returns (ghost tokens': seq<Token>)
    requires w.Valid() && p.pos == i && Written(w.Stream(), before, tokens)
    requires ParsesTo(ParseRules(hash, data, quality), tokens, p)
    requires Choosing(hash, data, quality, p, entered, best, loc) && loc.Some? && MatchOk(data, i, best, loc.value)
    modifies w
    ensures w.Valid() && Written(w.Stream(), before, tokens')
    ensures ParsesTo(ParseRules(hash, data, quality), tokens', Place(i + best, entered))
  {
    ghost var t := PutMatch(w, data, i, loc.value, best, before, tokens);
    MatchIsToken(hash, data, quality, p, entered, best, loc.value, t);
    ParseMore(ParseRules(hash, data, quality), tokens, p, t);
    tokens' := tokens + [t];
  }

  /** Writes a literal where no match was chosen. */
  method PutUnmatched(hash: Hasher, w: BitWriter, data: seq<byte>, quality: nat, ghost p: Place, i: nat,
                      ghost entered: seq<seq<nat>>, ghost best: nat, ghost loc: Option<nat>,
                      ghost before: seq<bool>, ghost tokens: seq<Token>)
    returns (ghost tokens': seq<Token>)
    requires w.Valid() && p.pos == i < |data| && Written(w.Stream(), before, tokens)
    requires ParsesTo(ParseRules(hash, data, quality), tokens, p)
    requires Choosing(hash, data, quality, p, entered, best, loc) && loc.None?
    modifies w
    ensures w.Valid() && Written(w.Stream(), before, tokens')
    ensures ParsesTo(ParseRules(hash, data, quality), tokens', Place(i + 1, entered))
  {
    PutLiteral(w, data[i], before, tokens);
    LiteralIsToken(hash, data, quality, p, entered, best);
    ParseMore(ParseRules(hash, data, quality), tokens, p, Literal(data[i]));
    tokens' := tokens + [Literal(data[i])];
  }

  lemma MatchIsToken(hash: Hasher, data: seq<byte>, quality: nat, p: Place, entered: seq<seq<nat>>, best: nat,
                     loc: nat, t: Token)
    requires Choosing(hash, data, quality, p, entered, best, Some(loc)) && loc <= p.pos
    requires MatchToken(t, best, p.pos - loc)
    ensures TokenAt(hash, data, quality, p, t) && Next(hash, data, quality, p, t) == Place(p.pos + best, entered)
  {
  }

  lemma LiteralIsToken(hash: Hasher, data: seq<byte>, quality: nat, p: Place, entered: seq<seq<nat>>, best: nat)
    requires Choosing(hash, data, quality, p, entered, best, None)
    ensures TokenAt(hash, data, quality, p, Literal(data[p.pos]))
    ensures Next(hash, data, quality, p, Literal(data[p.pos])) == Place(p.pos + 1, entered)
  {
  }

  /** Writes what was chosen. */
  method PutChoice(hash: Hasher, w: BitWriter, data: seq<byte>, quality: nat, ghost p: Place, i: nat,
                   ghost entered: seq<seq<nat>>, best: nat, loc: Option<nat>, ghost before: seq<bool>,
                   ghost tokens: seq<Token>)
    returns (i': nat, ghost tokens': seq<Token>)
    requires w.Valid() && p.pos == i && Written(w.Stream(), before, tokens)
    requires ParsesTo(ParseRules(hash, data, quality), tokens, p)
    requires Choosing(hash, data, quality, p, entered, best, loc) && (loc.Some? ==> MatchOk(data, i, best, loc.value))
    modifies w
    ensures i < i' <= |data| && w.Valid() && Written(w.Stream(), before, tokens')
    ensures ParsesTo(ParseRules(hash, data, quality), tokens', Place(i', entered))
  {
    if loc.Some? {
      tokens' := PutChosen(hash, w, data, quality, p, i, entered, best, loc, before, tokens);
      i' := i + best;
    } else {
      tokens' := PutUnmatched(hash, w, data, quality, p, i, entered, best, loc, before, tokens);
      i' := i + 1;
    }
  }

  /** One round of the loop: search, store, look one byte ahead, then write a match or a literal. */
  method CompressAt(hash: Hasher, w: BitWriter, table: array<seq<nat>>, data: seq<byte>, i: nat, quality: nat,
                    ghost before: seq<bool>, ghost tokens: seq<Token>)
    returns (i': nat, ghost tokens': seq<Token>)
    requires w.Valid() && TableOk(table, i) && i + 3 < |data| && quality >= 5
    requires Written(w.Stream(), before, tokens)
    requires ParsesTo(ParseRules(hash, data, quality), tokens, Place(i, table[..]))
    modifies w, table
    ensures i < i' <= |data| && TableOk(table, i')
    ensures w.Valid() && Written(w.Stream(), before, tokens')
    ensures ParsesTo(ParseRules(hash, data, quality), tokens', Place(i', table[..]))
  {
    ghost var p := Place(i, table[..]);
    var best, loc := Choose(hash, table, data, i, quality);
    ghost var entered := table[..];
    i', tokens' := PutChoice(hash, w, data, quality, p, i, entered, best, loc, before, tokens);
    assert table[..] == entered;
  }

  /** The main loop: matches and literals up to the last three bytes. */
  method WriteFront(hash: Hasher, w: BitWriter, data: seq<byte>, quality: nat)
    returns (i: nat, ghost tokens: seq<Token>, ghost lists: seq<seq<nat>>)
    requires w.Valid() && quality >= 5
    modifies w
    ensures w.Valid() && Written(w.Stream(), old(w.Stream()), tokens)
    ensures ParsesTo(ParseRules(hash, data, quality), tokens, Place(i, lists)) && i <= |data| <= i + 3
  {
    var table := new seq<nat>[ZHASH](_ => []);
    tokens, i := [], 0;
    ghost var before := w.Stream();
    assert before + [] == before;
    assert table[..] == seq(ZHASH, _ => []);
    while i < |data| - 3
      invariant 0 <= i <= |data| && fresh(table) && TableOk(table, i)
      invariant w.Valid() && Written(w.Stream(), before, tokens)
      invariant ParsesTo(ParseRules(hash, data, quality), tokens, Place(i, table[..]))
    {
      i, tokens := CompressAt(hash, w, table, data, i, quality, before, tokens);
    }
    lists := table[..];
  }

  /** The tokens are the whole parse of the data. */
  ghost predicate Parse(hash: Hasher, data: seq<byte>, quality: nat, tokens: seq<Token>)
  {
    exists p: Place :: p.pos == |data| && ParsesTo(ParseRules(hash, data, quality), tokens, p)
  }

  lemma LastIsLiteral(hash: Hasher, data: seq<byte>, quality: nat, p: Place)
    requires p.pos < |data| <= p.pos + 3
    ensures TokenAt(hash, data, quality, p, Literal(data[p.pos]))
    ensures Next(hash, data, quality, p, Literal(data[p.pos])) == Place(p.pos + 1, p.lists)
  {
  }

  /** One of the last bytes. */
  method WriteLast(hash: Hasher, w: BitWriter, data: seq<byte>, quality: nat, i: nat, ghost lists: seq<seq<nat>>,
                   ghost before: seq<bool>, ghost tokens: seq<Token>)
    returns (ghost tokens': seq<Token>)
    requires w.Valid() && Written(w.Stream(), before, tokens) && i < |data| <= i + 3
    requires ParsesTo(ParseRules(hash, data, quality), tokens, Place(i, lists))
    modifies w
    ensures w.Valid() && Written(w.Stream(), before, tokens')
    ensures ParsesTo(ParseRules(hash, data, quality), tokens', Place(i + 1, lists))
  {
    PutLiteral(w, data[i], before, tokens);
    LastIsLiteral(hash, data, quality, Place(i, lists));
    ParseMore(ParseRules(hash, data, quality), tokens, Place(i, lists), Literal(data[i]));
    tokens' := tokens + [Literal(data[i])];
  }

  /** The whole loop: the bits it writes are those of the parse. */
  method WriteBody(hash: Hasher, w: BitWriter, data: seq<byte>, quality: nat) returns (ghost tokens: seq<Token>)
    requires w.Valid() && quality >= 5
    modifies w
    ensures w.Valid() && w.Stream() == old(w.Stream()) + TokensBits(tokens)
    ensures Parse(hash, data, quality, tokens)
  {
    ghost var before := w.Stream();
    var i;
    ghost var lists;
    i, tokens, lists := WriteFront(hash, w, data, quality);
    while i < |data|
      invariant i <= |data| <= i + 3 && w.Valid() && Written(w.Stream(), before, tokens)
      invariant ParsesTo(ParseRules(hash, data, quality), tokens, Place(i, lists))
    {
      tokens := WriteLast(hash, w, data, quality, i, lists, before, tokens);
      i := i + 1;
    }
    ghost var end := Place(i, lists);
    assert ParsesTo(ParseRules(hash, data, quality), tokens, end) && end.pos == |data|;
  }

  // --- There is one parse ---

  lemma FoundUnique(data: seq<byte>, i: nat, list: seq<nat>, best: nat, loc: Option<nat>, best': nat,
                    loc': Option<nat>)
    requires Found(data, i, list, best, loc) && Found(data, i, list, best', loc')
    ensures loc == loc' && (loc.Some? ==> best == best')
  {
    if loc.Some? {
      var k: nat :| Newest(data, i, list, best, |list|, k) && list[k] == loc.value;
      assert Candidate(data, list, i, 32768, k, best);
    }
    if loc'.Some? {
      var k: nat :| Newest(data, i, list, best', |list|, k) && list[k] == loc'.value;
      assert Candidate(data, list, i, 32768, k, best');
    }
  }

  lemma ChosenUnique(data: seq<byte>, i: nat, list: seq<nat>, next: seq<nat>, best: nat, loc: Option<nat>, best': nat,
                     loc': Option<nat>)
    requires ChosenAt(data, i, list, next, best, loc) && ChosenAt(data, i, list, next, best', loc')
    ensures loc == loc' && (loc.Some? ==> best == best')
  {
    var found := if loc.Some? then loc
                 else var f :| Found(data, i, list, best, f) && (f.None? || Better(data, i + 1, next, best)); f;
    var found' := if loc'.Some? then loc'
                  else var f :| Found(data, i, list, best', f) && (f.None? || Better(data, i + 1, next, best')); f;
    FoundUnique(data, i, list, best, found, best', found');
  }

  ghost predicate Sorted(table: seq<nat>)
  {
    forall j :: 0 <= j < |table| - 1 ==> table[j] <= table[j + 1]
  }

  lemma {:induction false} SortedFar(table: seq<nat>, j: nat, k: nat)
    requires Sorted(table) && j <= k < |table|
    ensures table[j] <= table[k]
  {
    if j < k {
      SortedFar(table, j, k - 1);
      assert table[k - 1] <= table[k - 1 + 1];
    }
  }

  /** Only one row covers `x`. */
  lemma RowUnique(table: seq<nat>, x: nat, j: nat, k: nat)
    requires Sorted(table) && j < |table| - 1 && k < |table| - 1
    requires table[j] <= x < table[j + 1] && table[k] <= x < table[k + 1]
    ensures j == k
  {
    if j < k {
      SortedFar(table, j + 1, k);
    } else if k < j {
      SortedFar(table, k + 1, j);
    }
  }

  lemma TablesSorted()
    ensures Sorted(LENGTHC) && Sorted(DISTC)
  {
  }

  /** The length and the distance of a match fix its codes. */
  lemma CodesUnique(t: Token, t': Token)
    requires CodesFit(t) && CodesFit(t') && t.len == t'.len && t.dist == t'.dist
    ensures t == t'
  {
    TablesSorted();
    RowUnique(LENGTHC, t.len, t.l, t'.l);
    RowUnique(DISTC, t.dist, t.d, t'.d);
  }

  lemma TokenUnique(hash: Hasher, data: seq<byte>, quality: nat, p: Place, t: Token, t': Token)
    requires TokenAt(hash, data, quality, p, t) && TokenAt(hash, data, quality, p, t')
    ensures t == t'
  {
    if Searched(data, p) {
      var list := p.lists[HashAt(hash, data, p.pos)];
      var next := Entered(p.lists, HashAt(hash, data, p.pos), p.pos, quality)[HashAt(hash, data, p.pos + 1)];
      var best, loc := Choice(data, p.pos, list, next, t);
      var best', loc' := Choice(data, p.pos, list, next, t');
      ChosenUnique(data, p.pos, list, next, best, loc, best', loc');
      if t.Match? {
        CodesUnique(t, t');
      }
    }
  }

  /** The choice behind a token. */
  lemma Choice(data: seq<byte>, i: nat, list: seq<nat>, next: seq<nat>, t: Token) returns (best: nat, loc: Option<nat>)
    requires i < |data| && TokenFor(data, i, list, next, t)
    ensures ChosenAt(data, i, list, next, best, loc) && (t.Match? <==> loc.Some?)
    ensures match t case Literal(b) => b == data[i] case Match(len, dist, _, _) => len == best && dist == i - loc.value
  {
    match t
    case Literal(_) => best, loc :| ChosenAt(data, i, list, next, best, loc) && loc.None?;
    case Match(len, dist, _, _) => best, loc := len, Some(i - dist);
  }

  /** All parses of the same data are the same. */
  lemma ParseUnique(hash: Hasher, data: seq<byte>, quality: nat, tokens: seq<Token>, tokens': seq<Token>)
    requires Parse(hash, data, quality, tokens) && Parse(hash, data, quality, tokens')
    ensures tokens == tokens'
  {
    var rules := ParseRules(hash, data, quality);
    var p: Place :| p.pos == |data| && ParsesTo(rules, tokens, p);
    var q: Place :| q.pos == |data| && ParsesTo(rules, tokens', q);
    forall p: Place, t: Token, t': Token | rules.right(p, t) && rules.right(p, t')
      ensures t == t'
    {
      TokenUnique(hash, data, quality, p, t, t');
    }
    Parses.ParseUnique(rules, tokens, p, tokens', q);
  }

  // --- What a parse stands for ---

  /** A match that is right at its place repeats the data. */
  lemma MatchRepeats(hash: Hasher, data: seq<byte>, quality: nat, p: Place, t: Token)
    requires TokenAt(hash, data, quality, p, t) && t.Match?
    ensures CodesFit(t) && t.dist <= p.pos && Repeats(data, p.pos - t.dist, p.pos, t.len)
  {
    var list := p.lists[HashAt(hash, data, p.pos)];
    var k: nat :| Newest(data, p.pos, list, t.len, |list|, k) && list[k] == p.pos - t.dist;
  }

  lemma CodesExpress(t: Token, out: seq<byte>)
    requires CodesFit(t) && 1 <= t.dist <= |out|
    ensures Fits(FIXED_CODER, t, out)
  {
    LengthTable(t.l, t.len);
    DistTable(t.d, t.dist);
  }

  /** So it expands to the data there. */
  lemma RightMatch(data: seq<byte>, i: nat, t: Token)
    requires t.Match? && t.dist <= i && Repeats(data, i - t.dist, i, t.len)
    ensures i + t.len <= |data| && Expand(t, data[..i]) == data[..i + t.len]
  {
    MatchExpands(data, i, i - t.dist, t.len);
  }

  lemma RightToken(hash: Hasher, data: seq<byte>, quality: nat, p: Place, t: Token)
    requires TokenAt(hash, data, quality, p, t)
    ensures p.pos + TokenLength(t) <= |data| && Fits(FIXED_CODER, t, data[..p.pos])
    ensures Expand(t, data[..p.pos]) == data[..p.pos + TokenLength(t)]
  {
    match t
    case Literal(b) => assert data[..p.pos] + [b] == data[..p.pos + 1];
    case Match(_, _, _, _) =>
      MatchRepeats(hash, data, quality, p, t);
      CodesExpress(t, data[..p.pos]);
      RightMatch(data, p.pos, t);
  }

  /** Decoding the bits of the tokens gives the first `i` bytes. */
  ghost predicate SpelledTo(data: seq<byte>, tokens: seq<Token>, i: nat)
  {
    i <= |data| && Spells(FIXED, [], TokensBits(tokens), data[..i])
  }

  /** A right token takes the decoder from its place to the next. */
  lemma SpellsMore(hash: Hasher, data: seq<byte>, quality: nat, tokens: seq<Token>, p: Place, t: Token)
    requires SpelledTo(data, tokens, p.pos) && TokenAt(hash, data, quality, p, t)
    ensures SpelledTo(data, tokens + [t], p.pos + TokenLength(t))
  {
    RightToken(hash, data, quality, p, t);
    TokensBitsMore(tokens, t);
    FixedInverts();
    SpellsToken(FIXED, FIXED_CODER, t, data[..p.pos]);
    SpellsConcat(FIXED, [], TokensBits(tokens), data[..p.pos], TokenBits(FIXED_CODER, t),
                 data[..p.pos + TokenLength(t)]);
  }

  lemma NothingSpelled(data: seq<byte>)
    ensures SpelledTo(data, [], 0)
  {
    SpellsNothing(FIXED, []);
  }

  /** Decoding the bits of a parse gives back the data that it covers. */
  lemma ParseSpells(hash: Hasher, data: seq<byte>, quality: nat, tokens: seq<Token>, p: Place)
    requires ParsesTo(ParseRules(hash, data, quality), tokens, p)
    ensures SpelledTo(data, tokens, p.pos)
  {
    var keeps := SpelledUpTo(data);
    SpellsEach(hash, data, quality, keeps);
    ParseKeeps(ParseRules(hash, data, quality), keeps, tokens, p);
  }

  ghost function SpelledUpTo(data: seq<byte>): (seq<Token>, Place) -> bool
  {
    (s: seq<Token>, p: Place) => SpelledTo(data, s, p.pos)
  }

  lemma SpellsEach(hash: Hasher, data: seq<byte>, quality: nat, keeps: (seq<Token>, Place) -> bool)
    requires keeps == SpelledUpTo(data)
    ensures keeps([], ParseRules(hash, data, quality).start)
    ensures forall s: seq<Token>, p: Place, t: Token :: keeps(s, p) && ParseRules(hash, data, quality).right(p, t) ==>
              keeps(s + [t], ParseRules(hash, data, quality).next(p, t))
  {
    NothingSpelled(data);
    forall s: seq<Token>, p: Place, t: Token | keeps(s, p) && TokenAt(hash, data, quality, p, t)
      ensures keeps(s + [t], Next(hash, data, quality, p, t))
    {
      SpellsMore(hash, data, quality, s, p, t);
    }
  }

  /** The bits of a whole parse spell the data. */
  lemma WholeParse(hash: Hasher, data: seq<byte>, quality: nat, tokens: seq<Token>)
    requires Parse(hash, data, quality, tokens)
    ensures Spells(FIXED, [], TokensBits(tokens), data)
  {
    var p: Place :| p.pos == |data| && ParsesTo(ParseRules(hash, data, quality), tokens, p);
    ParseSpells(hash, data, quality, tokens, p);
    assert data[..p.pos] == data;
  }

  /** The block behind a two-byte header. */
  lemma BlockDecodes(data: seq<byte>, bits: seq<bool>, h: seq<bool>, body: seq<bool>)
    requires |h| == 16 && Spells(FIXED, [], body, data)
    requires At(bits, 0, h + (Lsb(1, 1) + Lsb(1, 2)) + body + CodeBits(256))
    ensures DecodeBlock(bits, 16) == Some((data, 26 + |body|))
  {
    var b, e := Lsb(1, 1) + Lsb(1, 2), CodeBits(256);
    AtSplit(bits, 0, h + b + body, e);
    AtSplit(bits, 0, h + b, body);
    AtSplit(bits, 0, h, b);
    BlockHeaderRead(bits);
    EndOfBlock(bits, 19 + |body|, data);
  }

  /** A final block with fixed codes. */
  lemma BlockHeaderRead(bits: seq<bool>)
    requires At(bits, 16, Lsb(1, 1) + Lsb(1, 2))
    ensures ReadLsb(bits, 16, 1) == Some(1) && ReadLsb(bits, 17, 2) == Some(1)
  {
    AtSplit(bits, 16, Lsb(1, 1), Lsb(1, 2));
    Pow2Small();
    ReadBackLsb(bits, 16, 1, 1);
    ReadBackLsb(bits, 17, 1, 2);
  }

  /** Header, block, end-of-block code, padding and trailer decode to the data. */
  lemma StreamDecodes(data: seq<byte>, block: seq<byte>, body: seq<bool>, trailer: seq<byte>)
    requires |block| >= 2 && HeaderOk(block[0], block[1]) && |trailer| == 4 && TrailerOk(trailer, data)
    requires Spells(FIXED, [], body, data)
    requires BytesLsb(block[..2]) + (Lsb(1, 1) + Lsb(1, 2)) + body + CodeBits(256) <= BytesLsb(block)
    requires 8 * |block| < 16 + 3 + |body| + 7 + 8
    ensures ZlibDecode(block + trailer) == Some(data)
  {
    var s := block + trailer;
    var bits := BytesLsb(s);
    BytesLsbConcat(block, trailer);
    var all := BytesLsb(block[..2]) + (Lsb(1, 1) + Lsb(1, 2)) + body + CodeBits(256);
    assert At(all, 0, all);
    AtPrefix(all, bits, 0, all);
    BlockDecodes(data, bits, BytesLsb(block[..2]), body);
    assert 26 + |body| == |all| <= 8 * |block|;
    RoundUp(26 + |body|, |block|);
    assert s[0] == block[0] && s[1] == block[1] && s[|block|..] == trailer;
  }

  /** The same for the block of a parse. */
  lemma ParseDecodes(hash: Hasher, data: seq<byte>, quality: nat, tokens: seq<Token>, block: seq<byte>,
                     trailer: seq<byte>)
    requires Parse(hash, data, quality, tokens) && Padded(BlockBits(tokens), BytesLsb(block))
    requires |trailer| == 4 && TrailerOk(trailer, data)
    ensures ZlibDecode(block + trailer) == Some(data)
  {
    BlockHead(tokens);
    HeaderFirst(block, BlockBits(tokens));
    WholeParse(hash, data, quality, tokens);
    StreamDecodes(data, block, TokensBits(tokens), trailer);
  }

  lemma RoundUp(n: nat, m: nat)
    requires n <= 8 * m < n + 8
    ensures (n + 7) / 8 == m
  {
  }

  lemma EndOfBlock(bits: seq<bool>, pos: nat, out: seq<byte>)
    requires At(bits, pos, CodeBits(256))
    ensures DecodeSymbols(FIXED, bits, pos, out) == Some((out, pos + 7))
  {
    DecodeCode(bits, pos, 256);
    assert FIXED.symbol(bits, pos) == DecodeSymbol(bits, pos);
  }

  /** The zlib header, the header of a final block with fixed codes, the tokens and the end of the block. */
  function BlockBits(tokens: seq<Token>): seq<bool>
  {
    BytesLsb([0x78, 0x5e]) + (Lsb(1, 1) + Lsb(1, 2)) + TokensBits(tokens) + CodeBits(256)
  }

  /** The zlib header, the block header and the compressed data up to the end of the block. */
  method WriteStream(hash: Hasher, w: BitWriter, data: seq<byte>, quality: nat) returns (ghost tokens: seq<Token>)
    requires w.Valid() && w.Stream() == BytesLsb([0x78, 0x5e]) && quality >= 5
    modifies w
    ensures w.Valid() && w.Stream() == BlockBits(tokens)
    ensures Parse(hash, data, quality, tokens)
  {
    ghost var h := w.Stream();
    Pow2Small();
    w.Add(1, 1);
    w.Add(1, 2);
    Associate(h, Lsb(1, 1), Lsb(1, 2));
    tokens := WriteBody(hash, w, data, quality);
    w.AddSymbol(256);
  }

  /** `bits` are followed by fewer than eight zero bits. */
  ghost predicate Padded(bits: seq<bool>, all: seq<bool>)
  {
    bits <= all && |all| < |bits| + 8 && forall k :: |bits| <= k < |all| ==> !all[k]
  }

  lemma BlockHead(tokens: seq<Token>)
    ensures BytesLsb([0x78, 0x5e]) <= BlockBits(tokens) && |BlockBits(tokens)| == 16 + 3 + |TokensBits(tokens)| + 7
  {
  }

  lemma HeaderBytes(cmf: byte, flg: byte)
    requires cmf == 0x78 && flg == 0x5e
    ensures HeaderOk(cmf, flg)
  {
  }

  /** The first two bytes of the block are the zlib header. */
  lemma HeaderFirst(block: seq<byte>, bits: seq<bool>)
    requires BytesLsb([0x78, 0x5e]) <= bits <= BytesLsb(block)
    ensures |block| >= 2 && block[..2] == [0x78, 0x5e] && HeaderOk(block[0], block[1])
  {
    BytesPrefix([0x78, 0x5e], block);
    HeaderBytes(block[0], block[1]);
  }

  /** The block of the parse, padded to whole bytes, and the checksum. */
  ghost predicate Holds(out: seq<byte>, data: seq<byte>, quality: nat, tokens: seq<Token>)
  {
    && Parse(Hash, data, quality, tokens)
    && |out| >= 4 && Padded(BlockBits(tokens), BytesLsb(out[..|out| - 4])) && TrailerOk(out[|out| - 4..], data)
  }

  lemma PaddedUnique(bits: seq<bool>, s: seq<byte>, t: seq<byte>)
    requires Padded(bits, BytesLsb(s)) && Padded(bits, BytesLsb(t))
    ensures s == t
  {
    assert |BytesLsb(s)| == |BytesLsb(t)|;
    assert BytesLsb(s) == BytesLsb(t);
    BytesPrefix(s, t);
    BytesPrefix(t, s);
  }

  lemma TrailerUnique(s: seq<byte>, t: seq<byte>, data: seq<byte>)
    requires |s| == 4 && |t| == 4 && TrailerOk(s, data) && TrailerOk(t, data)
    ensures s == t
  {
  }

  /** The data and the quality fix every byte of the output. */
  lemma OutputUnique(data: seq<byte>, quality: nat, s: seq<byte>, tokens: seq<Token>, t: seq<byte>,
                     tokens': seq<Token>)
    requires Holds(s, data, quality, tokens) && Holds(t, data, quality, tokens')
    ensures s == t
  {
    ParseUnique(Hash, data, quality, tokens, tokens');
    PaddedUnique(BlockBits(tokens), s[..|s| - 4], t[..|t| - 4]);
    TrailerUnique(s[|s| - 4..], t[|t| - 4..], data);
    assert s == s[..|s| - 4] + s[|s| - 4..] && t == t[..|t| - 4] + t[|t| - 4..];
  }

  /** The checksum in network byte order. */
  method Trailer(data: seq<byte>) returns (trailer: seq<byte>)
    ensures |trailer| == 4 && TrailerOk(trailer, data)
  {
    var s1, s2 := AdlerSum.Checksum(data);
    trailer := [s2 / 256, s2 % 256, s1 / 256, s1 % 256];
  }

  /** `stbi_zlib_compress`: the decompressor gives back exactly the input, for every input and quality, and the
      output is that of the parse, with a match wherever the search finds one worth using. */
  method Compress(data: seq<byte>, quality0: int) returns (out: seq<byte>, ghost tokens: seq<Token>)
    ensures ZlibDecode(out) == Some(data)
    ensures Holds(out, data, if quality0 < 5 then 5 else quality0, tokens)
  {
    var quality := if quality0 < 5 then 5 else quality0;
    var w := new BitWriter([0x78, 0x5e]);
    tokens := WriteStream(Hash, w, data, quality);
    ghost var written := w.Stream();
    w.Pad();
    var trailer := Trailer(data);
    ParseDecodes(Hash, data, quality, tokens, w.out, trailer);
    out := w.out + trailer;
    assert out[..|out| - 4] == w.out && out[|out| - 4..] == trailer;
  }
}
