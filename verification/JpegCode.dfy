/** The entropy-coded bits of a baseline scan as functions of its coefficients, after section F.1.2 of ITU-T T.81,
    and what decoding them yields. Coefficients are quantised and in zig-zag order. */
module JpegCode {
  import opened Wrappers
  import opened Bits
  import opened JpegDecode
  import opened JpegSpells

  // --- What the tables and the coefficients must provide ---

  /** A word for every size of a DC difference. */
  ghost predicate DcOk(t: Table)
  {
    TableOk(t) && forall n :: 0 <= n <= 11 ==> t[n].length > 0
  }

  /** A word for every run and size, for ZRL and for EOB. */
  ghost predicate AcOk(t: Table)
  {
    && TableOk(t) && t[0].length > 0 && t[0xF0].length > 0
    && forall run: nat, n: nat :: run < 16 && 1 <= n <= 10 ==> WordFor(t, run, n)
  }

  ghost predicate WordFor(t: Table, run: nat, n: nat)
    requires |t| == 256 && run < 16 && n < 16
  {
    t[16 * run + n].length > 0
  }

  ghost predicate TablesOk(t: Tables)
  {
    DcOk(t.yDc) && AcOk(t.yAc) && DcOk(t.uvDc) && AcOk(t.uvAc)
  }

  /** The ranges of a baseline block. */
  ghost predicate BlockOk(du: seq<int>)
  {
    && |du| == 64 && -1024 <= du[0] <= 1023
    && forall i :: 1 <= i < 64 ==> Abs(du[i]) < 1024
  }

  ghost predicate McuOk(m: Mcu)
  {
    BlockOk(m.y) && BlockOk(m.u) && BlockOk(m.v)
  }

  ghost predicate PredsOk(p: Preds)
  {
    -1024 <= p.y <= 1023 && -1024 <= p.u <= 1023 && -1024 <= p.v <= 1023
  }

  // --- Magnitudes ---

  /** The bit length of `a`. */
  function Size(a: nat): nat
  {
    if a == 0 then 0 else 1 + Size(a / 2)
  }

  /** The bits behind the code word of a value: the value itself, or for a negative one the low bits of one less. */
  function Magnitude(v: int): nat
  {
    var n := Size(Abs(v));
    if v < 0 && v + Pow2(n) >= 1 then v + Pow2(n) - 1 else Abs(v)
  }

  lemma {:induction false} SizeIff(a: nat, n: nat)
    requires n >= 1
    ensures Size(a) == n <==> Pow2(n - 1) <= a < Pow2(n)
  {
    if n > 1 {
      SizeIff(a / 2, n - 1);
    } else if a > 1 {
      assert Size(a / 2) >= 1;
    }
  }

  /** EXTEND takes the bits of a value back to it, and no others of the same number. */
  lemma MagnitudeBack(v: int, n: nat)
    requires n >= 1 && Size(Abs(v)) == n
    ensures Represents(v, Magnitude(v), n)
    ensures forall code :: Represents(v, code, n) ==> code == Magnitude(v)
  {
    SizeIff(Abs(v), n);
    assert Pow2(n) == 2 * Pow2(n - 1);
  }

  lemma {:induction false} SizeBound(a: nat, k: nat)
    requires a < Pow2(k)
    ensures Size(a) <= k
  {
    if k > 0 {
      SizeBound(a / 2, k - 1);
    }
  }

  // --- Sections F.1.2.1 and F.1.2.2: the bits of a block ---

  function SymbolCode(t: Table, s: nat): seq<bool>
  {
    if s < |t| then Word(t[s]) else []
  }

  function DiffBits(dc: Table, diff: int): seq<bool>
  {
    SymbolCode(dc, Size(Abs(diff))) + Msb(Magnitude(diff), Size(Abs(diff)))
  }

  function ValueBits(ac: Table, rest: nat, v: int): seq<bool>
  {
    SymbolCode(ac, 16 * rest + Size(Abs(v))) + Msb(Magnitude(v), Size(Abs(v)))
  }

  /** One ZRL for every sixteen zeros. */
  function ZeroBits(ac: Table, count: nat): seq<bool>
  {
    if count == 0 then [] else ZeroBits(ac, count - 1) + SymbolCode(ac, 0xF0)
  }

  function RunBits(ac: Table, run: nat, v: int): seq<bool>
  {
    ZeroBits(ac, run / 16) + ValueBits(ac, run % 16, v)
  }

  /** How a run with its coefficient is written, and how zeros at the end. */
  datatype AcCode = AcCode(run: (nat, int) -> seq<bool>, end: seq<bool>)

  function AcCoder(ac: Table): AcCode
  {
    AcCode((run: nat, v: int) => RunBits(ac, run, v), SymbolCode(ac, 0))
  }

  /** The coefficients from `start` on, those before `k` being zero: a run for each that is not zero, and the end
      code if zeros are left over. */
  function AcBits(code: AcCode, du: seq<int>, start: nat, k: nat): seq<bool>
    requires start <= k
    decreases |du| - k
  {
    if k >= |du| then (if start < |du| then code.end else [])
    else if du[k] == 0 then AcBits(code, du, start, k + 1)
    else code.run(k - start, du[k]) + AcBits(code, du, k + 1, k + 1)
  }

  function BlockBits(dc: Table, ac: Table, pred: int, du: seq<int>): seq<bool>
  {
    DiffBits(dc, Dc(du) - pred) + AcBits(AcCoder(ac), du, 1, 1)
  }

  /** One block of each component. */
  function McuBits(t: Tables, p: Preds, m: Mcu): seq<bool>
  {
    BlockBits(t.yDc, t.yAc, p.y, m.y) + BlockBits(t.uvDc, t.uvAc, p.u, m.u) + BlockBits(t.uvDc, t.uvAc, p.v, m.v)
  }

  /** The predictors at MCU `k`. */
  function PredsAt(mcus: seq<Mcu>, k: nat): Preds
    requires k <= |mcus|
  {
    if k == 0 then Preds(0, 0, 0) else After(mcus[k - 1])
  }

  /** How an MCU is written, given the predictors. */
  type McuCode = (Preds, Mcu) -> seq<bool>

  function CodeOf(t: Tables): McuCode
  {
    (p, m) => McuBits(t, p, m)
  }

  /** The first `k` MCUs. */
  function ScanBits(code: McuCode, mcus: seq<Mcu>, k: nat): seq<bool>
    requires k <= |mcus|
  {
    if k == 0 then [] else ScanBits(code, mcus, k - 1) + code(PredsAt(mcus, k - 1), mcus[k - 1])
  }

  // --- What they decode to ---

  lemma DiffBack(dc: Table, diff: int)
    requires DcOk(dc) && Abs(diff) < 2048
    ensures SpellsDiff(dc, DiffBits(dc, diff), diff)
  {
    var n := Size(Abs(diff));
    assert Pow2(11) == 2048 by { Pow2Small(); }
    SizeBound(Abs(diff), 11);
    if diff == 0 {
      assert Pow2(0) == 1;
    } else {
      MagnitudeBack(diff, n);
    }
    DiffSpelled(dc, n, Magnitude(diff), diff);
  }

  lemma {:induction false} ZerosBack(ac: Table, count: nat, zz: seq<int>)
    requires AcOk(ac) && |zz| + 16 * count <= 64
    ensures SpellsAc(ac, zz, ZeroBits(ac, count), zz + Zeros(16 * count))
  {
    if count == 0 {
      assert zz + Zeros(0) == zz;
      SpellsNothing(ac, zz);
    } else {
      var mid := zz + Zeros(16 * (count - 1));
      ZerosBack(ac, count - 1, zz);
      SixteenZeros(ac, mid);
      assert mid + Zeros(16) == zz + Zeros(16 * count);
      SpellsThenSpells(ac, zz, ZeroBits(ac, count - 1), mid, Word(ac[0xF0]), mid + Zeros(16));
    }
  }

  lemma ValueBack(ac: Table, rest: nat, v: int, zz: seq<int>)
    requires AcOk(ac) && rest < 16 && |zz| + rest < 64 && v != 0 && Abs(v) < 1024
    ensures SpellsAc(ac, zz, ValueBits(ac, rest, v), zz + Zeros(rest) + [v])
  {
    var n := Size(Abs(v));
    assert Pow2(10) == 1024 by { Pow2Small(); }
    SizeBound(Abs(v), 10);
    MagnitudeBack(v, n);
    assert WordFor(ac, rest, n);
    RunAndValue(ac, zz, rest, n, Magnitude(v), v);
  }

  /** A run of zeros of any length and the coefficient behind it. */
  lemma RunBack(ac: Table, run: nat, v: int, zz: seq<int>)
    requires AcOk(ac) && |zz| + run < 64 && v != 0 && Abs(v) < 1024
    ensures SpellsAc(ac, zz, RunBits(ac, run, v), zz + Zeros(run) + [v])
  {
    var markers, rest := run / 16, run % 16;
    var mid := zz + Zeros(16 * markers);
    ZerosBack(ac, markers, zz);
    ValueBack(ac, rest, v, mid);
    assert mid + Zeros(rest) == zz + Zeros(run);
    SpellsThenSpells(ac, zz, ZeroBits(ac, markers), mid, ValueBits(ac, rest, v), zz + Zeros(run) + [v]);
  }

  /** What is written for the coefficients `start` to `k` and for zeros from `start` on decodes to them. */
  ghost predicate CodeRight(ac: Table, code: AcCode, du: seq<int>, start: nat, k: nat)
    requires start <= k <= |du|
  {
    (forall i :: start <= i < k ==> du[i] == 0) ==>
      if k == |du| then EndsAc(ac, du[..start], if start < |du| then code.end else [], du)
      else du[k] != 0 ==> SpellsAc(ac, du[..start], code.run(k - start, du[k]), du[..k + 1])
  }

  lemma AcRight(ac: Table, du: seq<int>, start: nat, k: nat)
    requires AcOk(ac) && BlockOk(du) && 1 <= start <= k <= 64
    ensures CodeRight(ac, AcCoder(ac), du, start, k)
  {
    if forall i :: start <= i < k ==> du[i] == 0 {
      if k < 64 {
        if du[k] != 0 {
          RunBack(ac, k - start, du[k], du[..start]);
          assert du[..start] + Zeros(k - start) + [du[k]] == du[..k + 1];
        }
      } else if start < 64 {
        EndOfBlock(ac, du[..start]);
        assert du[..start] + Zeros(64 - start) == du;
      } else {
        assert du[..start] == du;
        FullBlock(ac, du);
      }
    }
  }

  lemma {:induction false} AcsBack(ac: Table, code: AcCode, du: seq<int>, start: nat, k: nat)
    requires 1 <= start <= k <= |du| && forall i :: start <= i < k ==> du[i] == 0
    requires forall s, j :: 1 <= s <= j <= |du| ==> CodeRight(ac, code, du, s, j)
    ensures EndsAc(ac, du[..start], AcBits(code, du, start, k), du)
    decreases |du| - k
  {
    assert CodeRight(ac, code, du, start, k);
    if k < |du| {
      if du[k] == 0 {
        AcsBack(ac, code, du, start, k + 1);
      } else {
        AcsBack(ac, code, du, k + 1, k + 1);
        SpellsThenEnds(ac, du[..start], code.run(k - start, du[k]), du[..k + 1], AcBits(code, du, k + 1, k + 1), du);
      }
    }
  }

  /** Decoding completes the block to all 64 coefficients. */
  lemma BlockAcsBack(ac: Table, du: seq<int>)
    requires AcOk(ac) && BlockOk(du)
    ensures EndsAc(ac, du[..1], AcBits(AcCoder(ac), du, 1, 1), du)
  {
    forall s, j | 1 <= s <= j <= |du|
      ensures CodeRight(ac, AcCoder(ac), du, s, j)
    {
      AcRight(ac, du, s, j);
    }
    AcsBack(ac, AcCoder(ac), du, 1, 1);
  }

  lemma BlockBack(dc: Table, ac: Table, decode: (int, seq<bool>, nat) -> Option<(seq<int>, nat)>, pred: int,
                  du: seq<int>)
    requires DcOk(dc) && AcOk(ac) && BlockOk(du) && -1024 <= pred <= 1023 && DecodesWith(decode, dc, ac)
    ensures SpellsBlock(decode, pred, BlockBits(dc, ac, pred, du), du)
  {
    DiffBack(dc, Dc(du) - pred);
    BlockAcsBack(ac, du);
    BlockFrom(dc, ac, decode, pred, DiffBits(dc, Dc(du) - pred), AcBits(AcCoder(ac), du, 1, 1), du);
  }

  lemma BlockFrom(dc: Table, ac: Table, decode: (int, seq<bool>, nat) -> Option<(seq<int>, nat)>, pred: int,
                  x: seq<bool>, y: seq<bool>, du: seq<int>)
    requires du != [] && SpellsDiff(dc, x, Dc(du) - pred) && EndsAc(ac, du[..1], y, du) && DecodesWith(decode, dc, ac)
    ensures SpellsBlock(decode, pred, x + y, du)
  {
    assert du[..1] == [du[0]];
    BlockSpelled(dc, ac, decode, pred, x, y, du);
  }

  lemma McuBack(t: Tables, d: Blocks, p: Preds, m: Mcu)
    requires TablesOk(t) && McuOk(m) && PredsOk(p) && Decodes(d, t)
    ensures SpellsMcu(d, p, McuBits(t, p, m), m)
  {
    BlockBack(t.yDc, t.yAc, d.y, p.y, m.y);
    BlockBack(t.uvDc, t.uvAc, d.uv, p.u, m.u);
    BlockBack(t.uvDc, t.uvAc, d.uv, p.v, m.v);
    McuSpelled(d, p, BlockBits(t.yDc, t.yAc, p.y, m.y), BlockBits(t.uvDc, t.uvAc, p.u, m.u),
               BlockBits(t.uvDc, t.uvAc, p.v, m.v), m);
  }

  ghost predicate McuRight(d: Blocks, code: McuCode, p: Preds, m: Mcu)
  {
    SpellsMcu(d, p, code(p, m), m)
  }

  lemma ScanMore(code: McuCode, d: Blocks, n: nat, x: seq<bool>, p: Preds, done: seq<Mcu>, m: Mcu, done': seq<Mcu>)
    requires SpellsScan(d, n + 1, x, p, done) && McuRight(d, code, p, m) && done' == done + [m]
    ensures SpellsScan(d, n, x + code(p, m), After(m), done')
  {
    ScanSpelled(d, n, x, p, done, code(p, m), m);
  }

  /** Decoding the bits of the first `k` MCUs yields them, with `n` more to come. */
  lemma {:induction false} ScanBack(code: McuCode, d: Blocks, mcus: seq<Mcu>, k: nat, n: nat)
    requires k <= |mcus| && forall j :: 0 <= j < k ==> McuRight(d, code, PredsAt(mcus, j), mcus[j])
    ensures SpellsScan(d, n, ScanBits(code, mcus, k), PredsAt(mcus, k), mcus[..k])
  {
    if k == 0 {
      assert mcus[..0] == [];
    } else {
      ScanBack(code, d, mcus, k - 1, n + 1);
      assert mcus[..k] == mcus[..k - 1] + [mcus[k - 1]];
      ScanMore(code, d, n, ScanBits(code, mcus, k - 1), PredsAt(mcus, k - 1), mcus[..k - 1], mcus[k - 1], mcus[..k]);
    }
  }

  lemma McusRight(t: Tables, d: Blocks, mcus: seq<Mcu>, k: nat)
    requires TablesOk(t) && Decodes(d, t) && k < |mcus| && forall j :: 0 <= j < |mcus| ==> McuOk(mcus[j])
    ensures McuRight(d, CodeOf(t), PredsAt(mcus, k), mcus[k])
  {
    assert k >= 1 ==> McuOk(mcus[k - 1]);
    McuBack(t, d, PredsAt(mcus, k), mcus[k]);
  }

  /** Decoding the bits of a scan yields its MCUs. */
  lemma WholeScanBack(t: Tables, d: Blocks, mcus: seq<Mcu>, bits: seq<bool>)
    requires TablesOk(t) && Decodes(d, t) && forall j :: 0 <= j < |mcus| ==> McuOk(mcus[j])
    requires ScanBits(CodeOf(t), mcus, |mcus|) <= bits
    ensures DecodeScan(d, |mcus|, Preds(0, 0, 0), bits, 0, []) == Some(mcus)
  {
    forall j | 0 <= j < |mcus|
      ensures McuRight(d, CodeOf(t), PredsAt(mcus, j), mcus[j])
    {
      McusRight(t, d, mcus, j);
    }
    ScanBack(CodeOf(t), d, mcus, |mcus|, 0);
    assert mcus[..|mcus|] == mcus;
    assert ScanAt(d, 0, ScanBits(CodeOf(t), mcus, |mcus|), PredsAt(mcus, |mcus|), mcus, bits, 0);
  }
}
