/** What the decoder makes of the words that the encoder writes. */
module JpegSpells {
  import opened Wrappers
  import opened Bits
  import opened JpegDecode

  function Word(c: Code): (r: seq<bool>)
    ensures |r| == c.length
  {
    Msb(c.code, c.length)
  }

  // --- Symbols ---

  lemma {:induction false} MsbValueHigh(bits: seq<bool>, pos: nat, m: nat, n: nat)
    requires m <= n && pos + n <= |bits|
    ensures High(MsbValue(bits, pos, n), n - m) == MsbValue(bits, pos, m)
    decreases n
  {
    if m < n {
      MsbValueHigh(bits, pos, m, n - 1);
      assert MsbValue(bits, pos, n) / 2 == MsbValue(bits, pos, n - 1);
    }
  }

  /** Two words at the same place extend one another. */
  lemma SamePlace(bits: seq<bool>, pos: nat, a: Code, b: Code)
    requires CodeAt(bits, pos, a) && CodeAt(bits, pos, b)
    ensures Extends(a, b) || Extends(b, a)
  {
    if a.length <= b.length {
      MsbValueHigh(bits, pos, a.length, b.length);
    } else {
      MsbValueHigh(bits, pos, b.length, a.length);
    }
  }

  lemma {:induction false} FindUnique(t: Table, bits: seq<bool>, pos: nat, s: nat, from: nat)
    requires TableOk(t) && from <= s < |t| && CodeAt(bits, pos, t[s])
    ensures FindSymbol(t, bits, pos, from) == Some(s)
    decreases s - from
  {
    if from < s {
      if CodeAt(bits, pos, t[from]) {
        SamePlace(bits, pos, t[from], t[s]);
      } else {
        FindUnique(t, bits, pos, s, from + 1);
      }
    }
  }

  /** Prefix-free tables can be decoded. */
  lemma SymbolBack(t: Table, s: nat, bits: seq<bool>, pos: nat)
    requires TableOk(t) && s < |t| && t[s].length > 0 && At(bits, pos, Word(t[s]))
    ensures FindSymbol(t, bits, pos, 0) == Some(s)
  {
    MsbRoundTrip(bits, pos, t[s].code, t[s].length);
    FindUnique(t, bits, pos, s, 0);
  }

  // --- Values ---

  /** `v` is what EXTEND makes of the `n` bits `code`. */
  ghost predicate Represents(v: int, code: nat, n: nat)
  {
    code < Pow2(n) && Extend(code, n) == v
  }

  lemma ReceiveBack(v: int, code: nat, n: nat, bits: seq<bool>, pos: nat)
    requires Represents(v, code, n) && At(bits, pos, Msb(code, n))
    ensures Receive(bits, pos, n) == Some(v)
  {
    MsbRoundTrip(bits, pos, code, n);
  }

  /** A symbol with its additional bits. */
  lemma ValueBack(t: Table, s: nat, v: int, code: nat, n: nat, bits: seq<bool>, pos: nat)
    requires TableOk(t) && s < |t| && t[s].length > 0 && Represents(v, code, n)
    requires At(bits, pos, Word(t[s]) + Msb(code, n))
    ensures FindSymbol(t, bits, pos, 0) == Some(s)
    ensures Receive(bits, pos + t[s].length, n) == Some(v)
  {
    AtSplit(bits, pos, Word(t[s]), Msb(code, n));
    SymbolBack(t, s, bits, pos);
    ReceiveBack(v, code, n, bits, pos + t[s].length);
  }

  // --- DC ---

  ghost predicate DiffAt(dc: Table, x: seq<bool>, diff: int, bits: seq<bool>, pos: nat)
  {
    At(bits, pos, x) ==> DecodeDiff(dc, bits, pos) == Some((diff, pos + |x|))
  }

  ghost predicate SpellsDiff(dc: Table, x: seq<bool>, diff: int)
  {
    forall bits: seq<bool>, pos: nat :: DiffAt(dc, x, diff, bits, pos)
  }

  lemma DiffSpelled(dc: Table, n: nat, code: nat, diff: int)
    requires TableOk(dc) && n < |dc| && dc[n].length > 0 && Represents(diff, code, n)
    ensures SpellsDiff(dc, Word(dc[n]) + Msb(code, n), diff)
  {
    var x := Word(dc[n]) + Msb(code, n);
    forall bits: seq<bool>, pos: nat
      ensures DiffAt(dc, x, diff, bits, pos)
    {
      if At(bits, pos, x) {
        ValueBack(dc, n, diff, code, n, bits, pos);
      }
    }
  }

  // --- AC ---

  ghost predicate AcAt(ac: Table, zz: seq<int>, x: seq<bool>, zz': seq<int>, bits: seq<bool>, pos: nat)
  {
    At(bits, pos, x) ==> DecodeAc(ac, bits, pos, zz) == DecodeAc(ac, bits, pos + |x|, zz')
  }

  /** Decoding through `x` extends the known coefficients from `zz` to `zz'`. */
  ghost predicate SpellsAc(ac: Table, zz: seq<int>, x: seq<bool>, zz': seq<int>)
  {
    forall bits: seq<bool>, pos: nat :: AcAt(ac, zz, x, zz', bits, pos)
  }

  ghost predicate AcEndsAt(ac: Table, zz: seq<int>, x: seq<bool>, block: seq<int>, bits: seq<bool>, pos: nat)
  {
    At(bits, pos, x) ==> DecodeAc(ac, bits, pos, zz) == Some((block, pos + |x|))
  }

  /** Decoding through `x` completes the block. */
  ghost predicate EndsAc(ac: Table, zz: seq<int>, x: seq<bool>, block: seq<int>)
  {
    forall bits: seq<bool>, pos: nat :: AcEndsAt(ac, zz, x, block, bits, pos)
  }

  lemma SpellsNothing(ac: Table, zz: seq<int>)
    ensures SpellsAc(ac, zz, [], zz)
  {
  }

  lemma SpellsThenSpells(ac: Table, a: seq<int>, x: seq<bool>, b: seq<int>, y: seq<bool>, c: seq<int>)
    requires SpellsAc(ac, a, x, b) && SpellsAc(ac, b, y, c)
    ensures SpellsAc(ac, a, x + y, c)
  {
    forall bits: seq<bool>, pos: nat
      ensures AcAt(ac, a, x + y, c, bits, pos)
    {
      if At(bits, pos, x + y) {
        AtSplit(bits, pos, x, y);
        assert AcAt(ac, a, x, b, bits, pos) && AcAt(ac, b, y, c, bits, pos + |x|);
        assert pos + |x + y| == pos + |x| + |y|;
      }
    }
  }

  lemma SpellsThenEnds(ac: Table, a: seq<int>, x: seq<bool>, b: seq<int>, y: seq<bool>, block: seq<int>)
    requires SpellsAc(ac, a, x, b) && EndsAc(ac, b, y, block)
    ensures EndsAc(ac, a, x + y, block)
  {
    forall bits: seq<bool>, pos: nat
      ensures AcEndsAt(ac, a, x + y, block, bits, pos)
    {
      if At(bits, pos, x + y) {
        AtSplit(bits, pos, x, y);
        assert AcAt(ac, a, x, b, bits, pos) && AcEndsAt(ac, b, y, block, bits, pos + |x|);
        assert pos + |x + y| == pos + |x| + |y|;
      }
    }
  }

  /** ZRL: sixteen zeros. */
  lemma SixteenZeros(ac: Table, zz: seq<int>)
    requires TableOk(ac) && ac[0xF0].length > 0 && |zz| + 16 <= 64
    ensures SpellsAc(ac, zz, Word(ac[0xF0]), zz + Zeros(16))
  {
    forall bits: seq<bool>, pos: nat
      ensures AcAt(ac, zz, Word(ac[0xF0]), zz + Zeros(16), bits, pos)
    {
      if At(bits, pos, Word(ac[0xF0])) {
        SymbolBack(ac, 0xF0, bits, pos);
      }
    }
  }

  /** A run of zeros and a coefficient. */
  lemma RunAndValue(ac: Table, zz: seq<int>, run: nat, n: nat, code: nat, v: int)
    requires TableOk(ac) && run < 16 && 1 <= n < 16 && ac[16 * run + n].length > 0 && |zz| + run < 64
    requires Represents(v, code, n)
    ensures SpellsAc(ac, zz, Word(ac[16 * run + n]) + Msb(code, n), zz + Zeros(run) + [v])
  {
    var x := Word(ac[16 * run + n]) + Msb(code, n);
    forall bits: seq<bool>, pos: nat
      ensures AcAt(ac, zz, x, zz + Zeros(run) + [v], bits, pos)
    {
      if At(bits, pos, x) {
        ValueBack(ac, 16 * run + n, v, code, n, bits, pos);
        AcFrom(ac, bits, pos, zz, run, n, v);
      }
    }
  }

  lemma AcFrom(ac: Table, bits: seq<bool>, pos: nat, zz: seq<int>, run: nat, n: nat, v: int)
    requires |ac| == 256 && run < 16 && 1 <= n < 16 && |zz| + run < 64
    requires FindSymbol(ac, bits, pos, 0) == Some(16 * run + n)
    requires Receive(bits, pos + ac[16 * run + n].length, n) == Some(v)
    ensures DecodeAc(ac, bits, pos, zz) ==
            DecodeAc(ac, bits, pos + ac[16 * run + n].length + n, zz + Zeros(run) + [v])
  {
    var s := 16 * run + n;
    assert s / 16 == run && s % 16 == n;
  }

  /** EOB: the rest is zero. */
  lemma EndOfBlock(ac: Table, zz: seq<int>)
    requires TableOk(ac) && ac[0].length > 0 && |zz| < 64
    ensures EndsAc(ac, zz, Word(ac[0]), zz + Zeros(64 - |zz|))
  {
    var block := zz + Zeros(64 - |zz|);
    forall bits: seq<bool>, pos: nat
      ensures AcEndsAt(ac, zz, Word(ac[0]), block, bits, pos)
    {
      if At(bits, pos, Word(ac[0])) {
        SymbolBack(ac, 0, bits, pos);
      }
    }
  }

  lemma FullBlock(ac: Table, zz: seq<int>)
    requires |zz| == 64
    ensures EndsAc(ac, zz, [], zz)
  {
  }

  // --- Blocks, MCUs and scans ---

  ghost predicate BlockAt(decode: (int, seq<bool>, nat) -> Option<(seq<int>, nat)>, pred: int, x: seq<bool>,
                          block: seq<int>, bits: seq<bool>, pos: nat)
  {
    At(bits, pos, x) ==> decode(pred, bits, pos) == Some((block, pos + |x|))
  }

  /** Wherever `x` occurs, `decode` reads the block there. */
  ghost predicate SpellsBlock(decode: (int, seq<bool>, nat) -> Option<(seq<int>, nat)>, pred: int, x: seq<bool>,
                              block: seq<int>)
  {
    forall bits: seq<bool>, pos: nat :: BlockAt(decode, pred, x, block, bits, pos)
  }

  ghost predicate DecodesWith(decode: (int, seq<bool>, nat) -> Option<(seq<int>, nat)>, dc: Table, ac: Table)
  {
    forall pred: int, bits: seq<bool>, pos: nat :: decode(pred, bits, pos) == DecodeBlock(dc, ac, pred, bits, pos)
  }

  /** A DC word followed by the AC words of a block. */
  lemma BlockSpelled(dc: Table, ac: Table, decode: (int, seq<bool>, nat) -> Option<(seq<int>, nat)>, pred: int,
                     x: seq<bool>, y: seq<bool>, block: seq<int>)
    requires block != [] && SpellsDiff(dc, x, block[0] - pred) && EndsAc(ac, [block[0]], y, block)
    requires DecodesWith(decode, dc, ac)
    ensures SpellsBlock(decode, pred, x + y, block)
  {
    forall bits: seq<bool>, pos: nat
      ensures BlockAt(decode, pred, x + y, block, bits, pos)
    {
      if At(bits, pos, x + y) {
        AtSplit(bits, pos, x, y);
        assert DiffAt(dc, x, block[0] - pred, bits, pos) && AcEndsAt(ac, [block[0]], y, block, bits, pos + |x|);
        assert pos + |x + y| == pos + |x| + |y|;
        assert pred + (block[0] - pred) == block[0];
      }
    }
  }

  ghost predicate Decodes(d: Blocks, t: Tables)
  {
    DecodesWith(d.y, t.yDc, t.yAc) && DecodesWith(d.uv, t.uvDc, t.uvAc)
  }

  lemma BlockDecodersDecode(t: Tables)
    ensures Decodes(BlockDecoders(t), t)
  {
  }

  ghost predicate McuAt(d: Blocks, p: Preds, x: seq<bool>, m: Mcu, bits: seq<bool>, pos: nat)
  {
    At(bits, pos, x) ==> DecodeMcu(d, p, bits, pos) == Some((m, pos + |x|))
  }

  ghost predicate SpellsMcu(d: Blocks, p: Preds, x: seq<bool>, m: Mcu)
  {
    forall bits: seq<bool>, pos: nat :: McuAt(d, p, x, m, bits, pos)
  }

  lemma McuSpelled(d: Blocks, p: Preds, x: seq<bool>, y: seq<bool>, z: seq<bool>, m: Mcu)
    requires SpellsBlock(d.y, p.y, x, m.y) && SpellsBlock(d.uv, p.u, y, m.u) && SpellsBlock(d.uv, p.v, z, m.v)
    ensures SpellsMcu(d, p, x + y + z, m)
  {
    forall bits: seq<bool>, pos: nat
      ensures McuAt(d, p, x + y + z, m, bits, pos)
    {
      if At(bits, pos, x + y + z) {
        AtSplit(bits, pos, x + y, z);
        AtSplit(bits, pos, x, y);
        assert BlockAt(d.y, p.y, x, m.y, bits, pos) && BlockAt(d.uv, p.u, y, m.u, bits, pos + |x|);
        assert BlockAt(d.uv, p.v, z, m.v, bits, pos + |x| + |y|);
      }
    }
  }

  ghost predicate ScanAt(d: Blocks, n: nat, x: seq<bool>, p: Preds, done: seq<Mcu>, bits: seq<bool>, pos: nat)
  {
    At(bits, pos, x) ==>
      DecodeScan(d, n + |done|, Preds(0, 0, 0), bits, pos, []) == DecodeScan(d, n, p, bits, pos + |x|, done)
  }

  /** Decoding through `x` yields the MCUs `done`, with `n` more to come. */
  ghost predicate SpellsScan(d: Blocks, n: nat, x: seq<bool>, p: Preds, done: seq<Mcu>)
  {
    forall bits: seq<bool>, pos: nat :: ScanAt(d, n, x, p, done, bits, pos)
  }

  lemma ScanSpelled(d: Blocks, n: nat, x: seq<bool>, p: Preds, done: seq<Mcu>, y: seq<bool>, m: Mcu)
    requires SpellsScan(d, n + 1, x, p, done) && SpellsMcu(d, p, y, m)
    ensures SpellsScan(d, n, x + y, After(m), done + [m])
  {
    forall bits: seq<bool>, pos: nat
      ensures ScanAt(d, n, x + y, After(m), done + [m], bits, pos)
    {
      if At(bits, pos, x + y) {
        AtSplit(bits, pos, x, y);
        assert n + |done + [m]| == n + 1 + |done|;
        assert ScanAt(d, n + 1, x, p, done, bits, pos) && McuAt(d, p, y, m, bits, pos + |x|);
        assert pos + |x + y| == pos + |x| + |y|;
      }
    }
  }
}
