/** A decoder for the entropy-coded data of a baseline scan, written from sections F.2.1 and F.2.2 of
    ITU-T T.81, over arbitrary Huffman tables. It is the specification the encoder is held to. */
module JpegDecode {
  import opened Wrappers
  import opened Bits

  /** The code word of one symbol: the low `length` bits of `code`. Length 0 means that there is none. */
  datatype Code = Code(code: nat, length: nat)

  type Table = seq<Code>

  /** Code words are at most 16 bits long and none is a prefix of another. */
  ghost predicate TableOk(t: Table)
  {
    && |t| == 256
    && (forall s :: 0 <= s < |t| ==> t[s].length <= 16 && t[s].code < Pow2(t[s].length))
    && (forall r, s {:trigger Extends(t[r], t[s])} :: 0 <= r < |t| && 0 <= s < |t| && r != s ==> !Extends(t[r], t[s]))
  }

  /** The word of `a` is a prefix of the word of `b`. */
  predicate Extends(a: Code, b: Code)
  {
    0 < a.length <= b.length && High(b.code, b.length - a.length) == a.code
  }

  // --- Section F.2.2.3: reading a symbol ---

  predicate CodeAt(bits: seq<bool>, pos: nat, c: Code)
  {
    0 < c.length && pos + c.length <= |bits| && MsbValue(bits, pos, c.length) == c.code
  }

  /** The first symbol from `s` on whose code word is at `pos`. */
  function FindSymbol(t: Table, bits: seq<bool>, pos: nat, s: nat): (r: Option<nat>)
    ensures r.Some? ==> r.value < |t| && CodeAt(bits, pos, t[r.value])
    decreases |t| - s
  {
    if s >= |t| then None
    else if CodeAt(bits, pos, t[s]) then Some(s)
    else FindSymbol(t, bits, pos, s + 1)
  }

  // --- Section F.2.2.1: DC coefficients ---

  /** EXTEND, figure F.12. */
  function Extend(v: nat, t: nat): int
  {
    if t == 0 then 0 else if v < Pow2(t - 1) then v as int - Pow2(t) as int + 1 else v
  }

  /** RECEIVE and EXTEND. */
  function Receive(bits: seq<bool>, pos: nat, t: nat): Option<int>
  {
    if pos + t > |bits| then None else Some(Extend(MsbValue(bits, pos, t), t))
  }

  function DecodeDiff(dc: Table, bits: seq<bool>, pos: nat): Option<(int, nat)>
  {
    var t := FindSymbol(dc, bits, pos, 0);
    if t.None? then None
    else
      var p := pos + dc[t.value].length;
      var v := Receive(bits, p, t.value);
      if v.None? then None else Some((v.value, p + t.value))
  }

  // --- Section F.2.2.2: AC coefficients ---

  function Zeros(n: nat): (r: seq<int>)
    ensures |r| == n
  {
    seq(n, i => 0)
  }

  /** Figure F.13. `zz` holds the coefficients of the block known so far, in zig-zag order. */
  function DecodeAc(ac: Table, bits: seq<bool>, pos: nat, zz: seq<int>): Option<(seq<int>, nat)>
    decreases |bits| - pos
  {
    if |zz| >= 64 then Some((zz, pos))
    else
      var rs := FindSymbol(ac, bits, pos, 0);
      if rs.None? then None
      else
        var p, run, size := pos + ac[rs.value].length, rs.value / 16, rs.value % 16;
        if size == 0 then
          if run != 15 then Some((zz + Zeros(64 - |zz|), p))
          else if |zz| + 16 > 64 then None
          else DecodeAc(ac, bits, p, zz + Zeros(16))
        else
          var v := Receive(bits, p, size);
          if |zz| + run >= 64 || v.None? then None
          else DecodeAc(ac, bits, p + size, zz + Zeros(run) + [v.value])
  }

  /** A block whose predecessor in the same component has the DC coefficient `pred`. */
  function DecodeBlock(dc: Table, ac: Table, pred: int, bits: seq<bool>, pos: nat): Option<(seq<int>, nat)>
  {
    var d := DecodeDiff(dc, bits, pos);
    if d.None? then None else DecodeAc(ac, bits, d.value.1, [pred + d.value.0])
  }

  // --- A scan of three components, one block of each per MCU ---

  datatype Tables = Tables(yDc: Table, yAc: Table, uvDc: Table, uvAc: Table)

  datatype Mcu = Mcu(y: seq<int>, u: seq<int>, v: seq<int>)

  /** The DC predictors. */
  datatype Preds = Preds(y: int, u: int, v: int)

  function Dc(block: seq<int>): int
  {
    if block == [] then 0 else block[0]
  }

  /** How a block of each kind of component is decoded, given its DC predictor. */
  datatype Blocks = Blocks(
    y: (int, seq<bool>, nat) -> Option<(seq<int>, nat)>,
    uv: (int, seq<bool>, nat) -> Option<(seq<int>, nat)>)

  function BlockDecoders(t: Tables): Blocks
  {
    Blocks((p, bits, pos) => DecodeBlock(t.yDc, t.yAc, p, bits, pos),
           (p, bits, pos) => DecodeBlock(t.uvDc, t.uvAc, p, bits, pos))
  }

  function DecodeMcu(d: Blocks, p: Preds, bits: seq<bool>, pos: nat): Option<(Mcu, nat)>
  {
    var y := d.y(p.y, bits, pos);
    if y.None? then None
    else
      var u := d.uv(p.u, bits, y.value.1);
      if u.None? then None
      else
        var v := d.uv(p.v, bits, u.value.1);
        if v.None? then None else Some((Mcu(y.value.0, u.value.0, v.value.0), v.value.1))
  }

  function After(m: Mcu): Preds
  {
    Preds(Dc(m.y), Dc(m.u), Dc(m.v))
  }

  /** `n` more MCUs behind those in `done`. */
  function DecodeScan(d: Blocks, n: nat, p: Preds, bits: seq<bool>, pos: nat, done: seq<Mcu>): Option<seq<Mcu>>
    decreases n
  {
    if n == 0 then Some(done)
    else
      var m := DecodeMcu(d, p, bits, pos);
      if m.None? then None
      else DecodeScan(d, n - 1, After(m.value.0), bits, m.value.1, done + [m.value.0])
  }
}
