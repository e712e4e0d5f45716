/** The entropy coder of the JPEG writer, proved against the bits that ITU-T T.81 prescribes: decoding what it
    writes gives back every coefficient of every block. */
module JpegEncoder {
  import opened Wrappers
  import opened Bits
  import opened JpegBits
  import opened JpegDecode
  import opened JpegSpells
  import opened JpegCode

  // --- Magnitudes ---

  lemma {:induction false} Pow2Grows(m: nat, n: nat)
    requires m <= n
    ensures Pow2(m) <= Pow2(n)
    decreases n
  {
    if m < n {
      Pow2Grows(m, n - 1);
    }
  }

  lemma {:induction false} HighZero(a: nat, n: nat)
    ensures High(a, n) == 0 <==> a < Pow2(n)
    decreases n
  {
    if n > 0 {
      HighZero(a / 2, n - 1);
    }
  }

  lemma {:induction false} HighNext(a: nat, n: nat)
    ensures High(a, n + 1) == High(a, n) / 2
    decreases n
  {
    if n > 0 {
      HighNext(a / 2, n - 1);
    }
  }

  /** `v & ((1 << n) - 1)` in two's complement. */
  function Mask(v: int, n: nat): (r: nat)
    ensures r < Pow2(n)
  {
    if v >= 0 then Low(v, n) else Pow2(n) - 1 - Low(-v - 1, n)
  }

  /** The bits of a value that needs `n` bits: itself, or, when negative, one less, cut to `n` bits. */
  lemma ValueMasked(v: int, n: nat)
    requires n >= 1 && Pow2(n - 1) <= Abs(v) < Pow2(n)
    ensures Represents(v, Mask(if v < 0 then v - 1 else v, n), n)
  {
    LowOfSmall(Abs(v), n);
    assert Pow2(n) == 2 * Pow2(n - 1);
  }

  lemma FewShifts(a: nat, n: nat)
    requires a < 0x8000 && High(a, n) != 0
    ensures n < 15
  {
    HighZero(a, n);
    Pow2Small();
    if n >= 15 {
      Pow2Grows(15, n);
    }
  }

  /** `stbiw__jpg_calcBits`, on values that fit the 16-bit fields. */
  method CalcBits(v: int) returns (code: nat, n: nat)
    requires Abs(v) < 0x8000
    ensures 1 <= n <= 15 && code < Pow2(n)
    ensures v != 0 ==> Pow2(n - 1) <= Abs(v) < Pow2(n) && Represents(v, code, n)
    ensures v != 0 ==> n == Size(Abs(v)) && code == Magnitude(v)
  {
    var a := Abs(v);
    n := 1;
    var rest := a / 2;
    HighNext(a, 0);
    while rest != 0
      invariant 1 <= n <= 15 && rest == High(a, n)
      invariant a != 0 ==> High(a, n - 1) != 0
      decreases rest
    {
      HighNext(a, n);
      FewShifts(a, n);
      n, rest := n + 1, rest / 2;
    }
    code := Mask(if v < 0 then v - 1 else v, n);
    if v != 0 {
      ShiftedOut(v, n);
    }
  }

  lemma ShiftedOut(v: int, n: nat)
    requires n >= 1 && High(Abs(v), n) == 0 && High(Abs(v), n - 1) != 0
    ensures Pow2(n - 1) <= Abs(v) < Pow2(n) && n == Size(Abs(v))
    ensures Mask(if v < 0 then v - 1 else v, n) == Magnitude(v) && Represents(v, Magnitude(v), n)
  {
    HighZero(Abs(v), n);
    HighZero(Abs(v), n - 1);
    ValueMasked(v, n);
    SizeIff(Abs(v), n);
    MagnitudeBack(v, n);
  }

  /** The bits of a value that needs at most `k` bits. */
  method SizedBits(v: int, ghost k: nat) returns (code: nat, n: nat)
    requires v != 0 && Abs(v) < 0x8000 && Abs(v) < Pow2(k)
    ensures 1 <= n <= k && n <= 15 && n == Size(Abs(v)) && code == Magnitude(v) < Pow2(n)
  {
    code, n := CalcBits(v);
    SizeBound(Abs(v), k);
  }

  // --- One block ---

  method WriteSymbol(w: JpegWriter, t: Table, s: nat)
    requires w.Valid() && TableOk(t) && s < 256
    modifies w
    ensures w.Valid() && w.written == old(w.written) + SymbolCode(t, s)
  {
    w.WriteBits(t[s].code, t[s].length);
  }

  method WriteValue(w: JpegWriter, t: Table, s: nat, code: nat, n: nat)
    requires w.Valid() && TableOk(t) && s < 256 && n <= 15 && code < Pow2(n)
    modifies w
    ensures w.Valid() && w.written == old(w.written) + (SymbolCode(t, s) + Msb(code, n))
  {
    ghost var before := w.written;
    WriteSymbol(w, t, s);
    w.WriteBits(code, n);
    Regroup(before, SymbolCode(t, s), Msb(code, n));
  }

  lemma Regroup(a: seq<bool>, b: seq<bool>, c: seq<bool>)
    ensures a + b + c == a + (b + c)
  {
  }

  method EncodeDiff(w: JpegWriter, dc: Table, diff: int)
    requires w.Valid() && DcOk(dc) && Abs(diff) < 2048
    modifies w
    ensures w.Valid() && w.written == old(w.written) + DiffBits(dc, diff) && SpellsDiff(dc, DiffBits(dc, diff), diff)
  {
    DiffBack(dc, diff);
    if diff == 0 {
      WriteSymbol(w, dc, 0);
      assert DiffBits(dc, 0) == SymbolCode(dc, 0);
    } else {
      assert Abs(diff) < Pow2(11) by { Pow2Small(); }
      var code, n := SizedBits(diff, 11);
      WriteValue(w, dc, n, code, n);
    }
  }

  /** The words for `count` times sixteen zeros. */
  method EncodeZeros(w: JpegWriter, ac: Table, count: nat)
    requires w.Valid() && AcOk(ac)
    modifies w
    ensures w.Valid() && w.written == old(w.written) + ZeroBits(ac, count)
  {
    assert w.written + [] == w.written;
    for k := 0 to count
      invariant w.Valid() && w.written == old(w.written) + ZeroBits(ac, k)
    {
      Regroup(old(w.written), ZeroBits(ac, k), SymbolCode(ac, 0xF0));
      WriteSymbol(w, ac, 0xF0);
    }
  }

  method EncodeValue(w: JpegWriter, ac: Table, rest: nat, v: int)
    requires w.Valid() && AcOk(ac) && rest < 16 && v != 0 && Abs(v) < 1024
    modifies w
    ensures w.Valid() && w.written == old(w.written) + ValueBits(ac, rest, v)
  {
    assert Abs(v) < Pow2(10) by { Pow2Small(); }
    var code, n := SizedBits(v, 10);
    WriteValue(w, ac, 16 * rest + n, code, n);
  }

  /** A run of zeros of any length and the coefficient behind it. */
  method EncodeRun(w: JpegWriter, ac: Table, run: nat, v: int)
    requires w.Valid() && AcOk(ac) && v != 0 && Abs(v) < 1024
    modifies w
    ensures w.Valid() && w.written == old(w.written) + RunBits(ac, run, v)
  {
    var markers, rest := run / 16, run % 16;
    Regroup(w.written, ZeroBits(ac, markers), ValueBits(ac, rest, v));
    EncodeZeros(w, ac, markers);
    EncodeValue(w, ac, rest, v);
  }

  /** The last coefficient that is not zero, or 0. */
  method LastNonZero(du: seq<int>) returns (end: nat)
    requires |du| == 64
    ensures end < 64 && (end > 0 ==> du[end] != 0) && forall i :: end < i < 64 ==> du[i] == 0
  {
    end := 63;
    while end > 0 && du[end] == 0
      invariant end < 64 && forall i :: end < i < 64 ==> du[i] == 0
    {
      end := end - 1;
    }
  }

  /** The next coefficient that is not zero. */
  method SkipZeros(du: seq<int>, start: nat, end: nat) returns (i: nat)
    requires start <= end < |du| && du[end] != 0
    ensures start <= i <= end && du[i] != 0 && forall j :: start <= j < i ==> du[j] == 0
  {
    i := start;
    while du[i] == 0 && i <= end
      invariant start <= i <= end && forall j :: start <= j < i ==> du[j] == 0
    {
      i := i + 1;
    }
  }

  /** The first run among the coefficients from `start` on. */
  lemma {:induction false} FirstRun(code: AcCode, du: seq<int>, start: nat, k: nat, i: nat)
    requires start <= k <= i < |du| && du[i] != 0 && forall j :: k <= j < i ==> du[j] == 0
    ensures AcBits(code, du, start, k) == code.run(i - start, du[i]) + AcBits(code, du, i + 1, i + 1)
    decreases i - k
  {
    if k < i {
      FirstRun(code, du, start, k + 1, i);
    }
  }

  /** What closes a block: EOB, unless its last coefficient has been written. */
  lemma {:induction false} Closing(code: AcCode, du: seq<int>, start: nat, k: nat)
    requires start <= k <= |du| && forall j :: k <= j < |du| ==> du[j] == 0
    ensures AcBits(code, du, start, k) == if start < |du| then code.end else []
    decreases |du| - k
  {
    if k < |du| {
      Closing(code, du, start, k + 1);
    }
  }

  /** What is written so far and what is still to come make up the coefficients from 1 on. */
  ghost predicate Ahead(code: AcCode, du: seq<int>, before: seq<bool>, written: seq<bool>, i: nat)
  {
    written + AcBits(code, du, i, i) == before + AcBits(code, du, 1, 1)
  }

  lemma RunTaken(code: AcCode, du: seq<int>, before: seq<bool>, written: seq<bool>, start: nat, i: nat)
    requires start <= i < |du| && du[i] != 0 && forall j :: start <= j < i ==> du[j] == 0
    requires Ahead(code, du, before, written, start)
    ensures Ahead(code, du, before, written + code.run(i - start, du[i]), i + 1)
  {
    FirstRun(code, du, start, start, i);
    Regroup(written, code.run(i - start, du[i]), AcBits(code, du, i + 1, i + 1));
  }

  /** The next run of zeros and the coefficient behind it. */
  method EncodeNextRun(w: JpegWriter, ac: Table, du: seq<int>, start: nat, end: nat, ghost before: seq<bool>)
    returns (i: nat)
    requires w.Valid() && AcOk(ac) && BlockOk(du) && 1 <= start <= end < 64 && du[end] != 0
    requires Ahead(AcCoder(ac), du, before, w.written, start)
    modifies w
    ensures w.Valid() && start < i <= end + 1 && Ahead(AcCoder(ac), du, before, w.written, i)
  {
    i := SkipZeros(du, start, end);
    EncodeOneRun(w, ac, AcCoder(ac), du, start, i, before);
    i := i + 1;
  }

  method EncodeOneRun(w: JpegWriter, ac: Table, ghost code: AcCode, du: seq<int>, start: nat, i: nat,
                      ghost before: seq<bool>)
    requires w.Valid() && AcOk(ac) && start <= i < |du| && du[i] != 0 && Abs(du[i]) < 1024
    requires code.run(i - start, du[i]) == RunBits(ac, i - start, du[i])
    requires (forall j :: start <= j < i ==> du[j] == 0) && Ahead(code, du, before, w.written, start)
    modifies w
    ensures w.Valid() && Ahead(code, du, before, w.written, i + 1)
  {
    RunTaken(code, du, before, w.written, start, i);
    EncodeRun(w, ac, i - start, du[i]);
  }

  /** The coefficients 1 to `end`. */
  method EncodeRuns(w: JpegWriter, ac: Table, du: seq<int>, end: nat)
    requires w.Valid() && AcOk(ac) && BlockOk(du) && end < 64 && (end > 0 ==> du[end] != 0)
    modifies w
    ensures w.Valid() && Ahead(AcCoder(ac), du, old(w.written), w.written, end + 1)
  {
    var i := 1;
    while i <= end
      invariant 1 <= i <= end + 1 && w.Valid() && Ahead(AcCoder(ac), du, old(w.written), w.written, i)
    {
      i := EncodeNextRun(w, ac, du, i, end, old(w.written));
    }
  }

  method EncodeAcs(w: JpegWriter, ac: Table, du: seq<int>)
    requires w.Valid() && AcOk(ac) && BlockOk(du)
    modifies w
    ensures w.Valid() && w.written == old(w.written) + AcBits(AcCoder(ac), du, 1, 1)
  {
    var end := LastNonZero(du);
    EncodeRuns(w, ac, du, end);
    Closing(AcCoder(ac), du, end + 1, end + 1);
    if end != 63 {
      WriteSymbol(w, ac, 0);
    } else {
      assert w.written + [] == w.written;
    }
  }

  /** The entropy part of `stbiw__jpg_processDU`. */
  method EncodeBlock(w: JpegWriter, dc: Table, ac: Table, pred: int, du: seq<int>) returns (next: int)
    requires w.Valid() && DcOk(dc) && AcOk(ac) && BlockOk(du) && -1024 <= pred <= 1023
    modifies w
    ensures w.Valid() && w.written == old(w.written) + BlockBits(dc, ac, pred, du) && next == du[0]
  {
    Regroup(w.written, DiffBits(dc, du[0] - pred), AcBits(AcCoder(ac), du, 1, 1));
    EncodeDiff(w, dc, du[0] - pred);
    EncodeAcs(w, ac, du);
    next := du[0];
  }

  // --- The scan ---

  /** One block of each component. */
  method EncodeMcu(w: JpegWriter, t: Tables, p: Preds, m: Mcu) returns (next: Preds)
    requires w.Valid() && TablesOk(t) && McuOk(m) && PredsOk(p)
    modifies w
    ensures w.Valid() && w.written == old(w.written) + McuBits(t, p, m) && next == After(m) && PredsOk(next)
  {
    ghost var a, b := BlockBits(t.yDc, t.yAc, p.y, m.y), BlockBits(t.uvDc, t.uvAc, p.u, m.u);
    Regroup(w.written, a, b);
    Regroup(w.written, a + b, BlockBits(t.uvDc, t.uvAc, p.v, m.v));
    var y := EncodeBlock(w, t.yDc, t.yAc, p.y, m.y);
    var u := EncodeBlock(w, t.uvDc, t.uvAc, p.u, m.u);
    var v := EncodeBlock(w, t.uvDc, t.uvAc, p.v, m.v);
    next := Preds(y, u, v);
  }

  method EncodeMcus(w: JpegWriter, t: Tables, mcus: seq<Mcu>)
    requires w.Valid() && w.written == [] && TablesOk(t)
    requires forall k :: 0 <= k < |mcus| ==> McuOk(mcus[k])
    modifies w
    ensures w.Valid() && w.written == ScanBits(CodeOf(t), mcus, |mcus|)
  {
    var preds := Preds(0, 0, 0);
    for k := 0 to |mcus|
      invariant w.Valid() && w.written == ScanBits(CodeOf(t), mcus, k)
      invariant preds == PredsAt(mcus, k) && PredsOk(preds)
    {
      preds := EncodeMcu(w, t, preds, mcus[k]);
    }
  }

  /** `all` are the bits followed by fewer than eight ones, as section F.1.2.3 of ITU-T T.81 has it. */
  ghost predicate Filled(bits: seq<bool>, all: seq<bool>)
  {
    bits <= all && |all| < |bits| + 8 && forall k :: |bits| <= k < |all| ==> all[k]
  }

  lemma FillBits()
    ensures 0x7F < Pow2(7) && forall k :: 0 <= k < 7 ==> Msb(0x7F, 7)[k]
  {
    Pow2Small();
    assert Msb(0x7F, 7) == seq(7, i => true) by {
      assert Msb(0x7F, 7) == Msb(0x3F, 6) + [true] by { MsbSnoc(0x7F, 7); }
      assert Msb(0x3F, 6) == Msb(0x1F, 5) + [true] by { MsbSnoc(0x3F, 6); }
      assert Msb(0x1F, 5) == Msb(0xF, 4) + [true] by { MsbSnoc(0x1F, 5); }
      assert Msb(0xF, 4) == Msb(7, 3) + [true] by { MsbSnoc(0xF, 4); }
      assert Msb(7, 3) == Msb(3, 2) + [true] by { MsbSnoc(7, 3); }
      assert Msb(3, 2) == Msb(1, 1) + [true] by { MsbSnoc(3, 2); }
    }
  }

  /** Only fill bits are left in the window. */
  lemma FlushedEnough(raw: seq<bool>, pending: seq<bool>, x: seq<bool>, fill: seq<bool>)
    requires raw + pending == x + fill && |pending| < 8 && |fill| == 7 && forall k :: 0 <= k < 7 ==> fill[k]
    ensures Filled(x, raw)
  {
    assert |raw| >= |x|;
    assert (raw + pending)[..|x|] == raw[..|x|];
    assert (x + fill)[..|x|] == x;
    forall k | |x| <= k < |raw|
      ensures raw[k]
    {
      assert raw[k] == (raw + pending)[k] == (x + fill)[k] == fill[k - |x|];
    }
  }

  /** The scan data of `stbi_write_jpg_core` up to and including the EOI marker: the bits that the standard
      prescribes, filled up with ones and stuffed. Decoding gives back every MCU. */
  method EncodeScan(t: Tables, mcus: seq<Mcu>) returns (out: seq<byte>, ghost raw: seq<byte>)
    requires TablesOk(t) && forall k :: 0 <= k < |mcus| ==> McuOk(mcus[k])
    ensures out == Stuff(raw) + [255, 0xD9] && Filled(ScanBits(CodeOf(t), mcus, |mcus|), BytesMsb(raw))
    ensures DecodeScan(BlockDecoders(t), |mcus|, Preds(0, 0, 0), BytesMsb(Destuff(out)), 0, []) == Some(mcus)
  {
    var w := new JpegWriter();
    EncodeMcus(w, t, mcus);
    FillBits();
    w.WriteBits(0x7F, 7);
    out, raw := w.out + [255, 0xD9], w.raw;
    FlushedEnough(BytesMsb(raw), Pending(w.bitBuf, w.bitCnt), ScanBits(CodeOf(t), mcus, |mcus|), Msb(0x7F, 7));
    StuffRoundTrip(raw, 0xD9);
    BlockDecodersDecode(t);
    WholeScanBack(t, BlockDecoders(t), mcus, BytesMsb(raw));
  }
}
