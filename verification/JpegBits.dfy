/** The bit writer of the JPEG encoder: a 24-bit window filled from the top, and byte stuffing as in
    section B.1.1.5 of ITU-T T.81. */
module JpegBits {
  import opened Bits

  // --- Shifts ---

  lemma {:induction false} ShlAdd(x: nat, y: nat, n: nat)
    ensures Shl(x + y, n) == Shl(x, n) + Shl(y, n)
  {
    if n > 0 {
      ShlAdd(x, y, n - 1);
    }
  }

  lemma {:induction false} ShlChain(x: nat, m: nat, n: nat)
    ensures Shl(x, m + n) == Shl(Shl(x, m), n)
  {
    if n > 0 {
      ShlChain(x, m, n - 1);
    }
  }

  lemma {:induction false} OrSymmetric(a: nat, b: nat)
    ensures BitOr(a, b) == BitOr(b, a)
    decreases a + b
  {
    if a > 0 || b > 0 {
      OrSymmetric(a / 2, b / 2);
    }
  }

  /** `Msb` looks at the low bits only. */
  lemma {:induction false} MsbLow(x: nat, n: nat, m: nat)
    requires n <= m
    ensures Msb(Low(x, m), n) == Msb(x, n)
    decreases n
  {
    if n > 0 {
      MsbLow(x / 2, n - 1, m - 1);
      assert Low(x, m) / 2 == Low(x / 2, m - 1);
      MsbSnoc(x, n);
      MsbSnoc(Low(x, m), n);
    }
  }

  lemma {:induction false} HighOfLow(x: nat, m: nat, n: nat)
    ensures High(Low(x, m + n), n) == Low(High(x, n), m)
    decreases n
  {
    if n > 0 {
      HighOfLow(x / 2, m, n - 1);
      assert Low(x, m + n) / 2 == Low(x / 2, m + n - 1);
    }
  }

  // --- The window ---

  const WORD: nat := 0x1_0000_0000

  lemma Pow2Word()
    ensures Pow2(24) == 0x100_0000 && Pow2(32) == WORD
  {
    Pow2Small();
    assert Pow2(20) == 16 * Pow2(16);
    assert Pow2(24) == 16 * Pow2(20);
    assert Pow2(28) == 16 * Pow2(24);
    assert Pow2(32) == 16 * Pow2(28);
  }

  /** `cnt` bits are pending at the top of the 24-bit window and nothing is below them; what is above the
      window has been written already. */
  ghost predicate Window(buf: nat, cnt: nat)
  {
    buf < WORD && cnt <= 24 && Low(buf, 24 - cnt) == 0
  }

  ghost function Pending(buf: nat, cnt: nat): seq<bool>
    requires cnt <= 24
  {
    Msb(High(buf, 24 - cnt), cnt)
  }

  /** The window after or-ing a code is the pending number with the code below it. */
  lemma OrBelow(buf: nat, h: nat, cnt: nat, code: nat, n: nat, k: nat)
    requires buf == Shl(h, n + k) && h < Pow2(8 + cnt) && code < Pow2(n)
    ensures BitOr(buf, Shl(code, k)) == Shl(Shl(h, n) + code, k) < Pow2(n + k + (8 + cnt))
  {
    ShlChain(h, n, k);
    ShlBound(code, n, k);
    OrSymmetric(buf, Shl(code, k));
    OrAppends(Shl(code, k), n + k, h, 8 + cnt);
    ShlAdd(Shl(h, n), code, k);
  }

  lemma PendingNumber(buf: nat, cnt: nat)
    requires Window(buf, cnt)
    ensures buf == Shl(High(buf, 24 - cnt), 24 - cnt) && High(buf, 24 - cnt) < Pow2(8 + cnt)
  {
    Recompose(buf, 24 - cnt);
    Pow2Word();
    HighBound(buf, 8 + cnt, 24 - cnt);
  }

  /** The bits of a number with a code below it. */
  lemma NumberBits(h: nat, cnt: nat, code: nat, n: nat, k: nat)
    requires code < Pow2(n)
    ensures var x := Shl(Shl(h, n) + code, k);
            Low(x, k) == 0 && High(x, k) == Shl(h, n) + code && Msb(High(x, k), cnt + n) == Msb(h, cnt) + Msb(code, n)
  {
    var z := Shl(h, n) + code;
    SplitSum(z, 0, k);
    SplitSum(h, code, n);
    MsbSplit(z, cnt, n);
  }

  /** Or-ing a code into the window appends it to the pending bits. */
  lemma PutCode(buf: nat, cnt: nat, code: nat, n: nat, k: nat)
    requires Window(buf, cnt) && cnt + n + k == 24 && code < Pow2(n)
    ensures var buf' := BitOr(buf, Shl(code, k));
            Window(buf', cnt + n) && Pending(buf', cnt + n) == Pending(buf, cnt) + Msb(code, n)
  {
    var h := High(buf, 24 - cnt);
    PendingNumber(buf, cnt);
    OrBelow(buf, h, cnt, code, n, k);
    NumberBits(h, cnt, code, n, k);
    Pow2Word();
  }

  /** `(bitBuf >> 16) & 255`. */
  function TopByte(buf: nat): byte
  {
    High(buf, 16) % 256
  }

  /** `bitBuf << 8` on 32 bits. */
  function ShiftOut(buf: nat): nat
  {
    (buf * 256) % WORD
  }

  function ByteBits(b: byte): (r: seq<bool>)
    ensures |r| == 8
  {
    Msb(b, 8)
  }

  lemma TopBits(buf: nat)
    ensures Msb(High(buf, 16), 8) == ByteBits(TopByte(buf))
  {
    ByteSplit(High(buf, 16));
    MsbLow(High(buf, 16), 8, 8);
  }

  /** The pending number loses its leading byte. */
  lemma ShiftedNumber(buf: nat, cnt: nat, k: nat)
    requires Window(buf, cnt) && cnt + k == 24
    ensures Low(ShiftOut(buf), k + 8) == 0 && High(ShiftOut(buf), k + 8) == Low(High(buf, k), cnt)
  {
    var y := Low(buf, 24);
    Shifted(buf);
    HighOfLow(buf, cnt, k);
    LowOfLow(buf, k, cnt);
    Recompose(y, k);
    var h := High(y, k);
    ShlChain(h, k, 8);
    SplitSum(h, 0, k + 8);
  }

  /** Shifting the window by a byte drops the byte that has been taken out. */
  lemma TakeByte(buf: nat, cnt: nat)
    requires Window(buf, cnt) && cnt >= 8
    ensures Window(ShiftOut(buf), cnt - 8)
    ensures Pending(buf, cnt) == ByteBits(TopByte(buf)) + Pending(ShiftOut(buf), cnt - 8)
  {
    var k := 24 - cnt;
    ShiftedNumber(buf, cnt, k);
    var x := High(buf, k);
    MsbSplit(x, 8, cnt - 8);
    LowHighChain(buf, k, cnt - 8);
    TopBits(buf);
    MsbLow(x, cnt - 8, cnt - 8);
    MsbLow(x, cnt - 8, cnt);
  }

  lemma Shifted(buf: nat)
    requires buf < WORD
    ensures ShiftOut(buf) == Shl(Low(buf, 24), 8)
  {
    Recompose(buf, 24);
    ShlMul(High(buf, 24), 24);
    ShlMul(Low(buf, 24), 8);
    Pow2Word();
    Pow2Small();
    var q, y := High(buf, 24), Low(buf, 24);
    assert buf * 256 == q * WORD + y * 256;
  }

  lemma {:induction false} LowOfLow(x: nat, m: nat, n: nat)
    ensures Low(Low(x, m + n), m) == Low(x, m)
    decreases m
  {
    if m > 0 {
      LowOfLow(x / 2, m - 1, n);
      assert Low(x, m + n) / 2 == Low(x / 2, m + n - 1);
    }
  }

  // --- Bytes ---

  /** The bits of a byte string, each byte most significant bit first. */
  function BytesMsb(s: seq<byte>): (r: seq<bool>)
    ensures |r| == 8 * |s|
  {
    if s == [] then [] else BytesMsb(s[..|s| - 1]) + ByteBits(s[|s| - 1])
  }

  /** A zero byte follows every byte 255. */
  function Stuff(s: seq<byte>): seq<byte>
  {
    if s == [] then [] else Stuff(s[..|s| - 1]) + StuffByte(s[|s| - 1])
  }

  function StuffByte(b: byte): seq<byte>
  {
    if b == 255 then [b, 0] else [b]
  }

  /** What a decoder sees: a stuffed zero is dropped, and any other byte after 255 is a marker. */
  function Destuff(s: seq<byte>): seq<byte>
  {
    if s == [] then []
    else if s[0] != 255 then [s[0]] + Destuff(s[1..])
    else if |s| >= 2 && s[1] == 0 then [s[0]] + Destuff(s[2..])
    else []
  }

  /** The entropy-coded segment up to the next marker. */
  lemma {:induction false} StuffRoundTrip(raw: seq<byte>, marker: byte)
    requires marker != 0
    ensures Destuff(Stuff(raw) + [255, marker]) == raw
  {
    DestuffPrefix(raw, [255, marker]);
  }

  lemma DestuffByte(b: byte, tail: seq<byte>)
    ensures Destuff(StuffByte(b) + tail) == [b] + Destuff(tail)
  {
    var t := StuffByte(b) + tail;
    if b == 255 {
      assert t[2..] == tail;
    } else {
      assert t[1..] == tail;
    }
  }

  lemma {:induction false} DestuffPrefix(raw: seq<byte>, tail: seq<byte>)
    ensures Destuff(Stuff(raw) + tail) == raw + Destuff(tail)
    decreases |raw|
  {
    if raw == [] {
      assert Stuff(raw) + tail == tail;
    } else {
      var front, b := raw[..|raw| - 1], raw[|raw| - 1];
      var t := StuffByte(b) + tail;
      assert Stuff(raw) + tail == Stuff(front) + t;
      DestuffPrefix(front, t);
      DestuffByte(b, tail);
      var d := Destuff(tail);
      assert raw == front + [b];
      assert front + ([b] + d) == front + [b] + d;
    }
  }

  /** Moving a byte from the window to the output keeps the bits. */
  lemma EmitByte(raw: seq<byte>, buf: nat, cnt: nat)
    requires Window(buf, cnt) && cnt >= 8
    ensures Window(ShiftOut(buf), cnt - 8)
    ensures BytesMsb(raw + [TopByte(buf)]) + Pending(ShiftOut(buf), cnt - 8) == BytesMsb(raw) + Pending(buf, cnt)
    ensures Stuff(raw + [TopByte(buf)]) == Stuff(raw) + StuffByte(TopByte(buf))
  {
    TakeByte(buf, cnt);
    var r := raw + [TopByte(buf)];
    assert r[..|r| - 1] == raw && r[|r| - 1] == TopByte(buf);
    var a, b, c := BytesMsb(raw), ByteBits(TopByte(buf)), Pending(ShiftOut(buf), cnt - 8);
    assert (a + b) + c == a + (b + c);
  }

  lemma PutCodeWritten(raw: seq<byte>, buf: nat, cnt: nat, code: nat, n: nat, k: nat)
    requires Window(buf, cnt) && cnt + n + k == 24 && code < Pow2(n)
    ensures var buf' := BitOr(buf, Shl(code, k));
            && Window(buf', cnt + n)
            && BytesMsb(raw) + Pending(buf', cnt + n) == BytesMsb(raw) + Pending(buf, cnt) + Msb(code, n)
  {
    PutCode(buf, cnt, code, n, k);
    var a, b, c := BytesMsb(raw), Pending(buf, cnt), Msb(code, n);
    assert a + (b + c) == a + b + c;
  }

  // --- The writer ---

  class JpegWriter {
    var out: seq<byte>
    var bitBuf: nat
    var bitCnt: nat
    /** The bytes before stuffing, and all bits written so far. */
    ghost var raw: seq<byte>
    ghost var written: seq<bool>

    ghost predicate Open()
      reads this
    {
      out == Stuff(raw) && Window(bitBuf, bitCnt) && written == BytesMsb(raw) + Pending(bitBuf, bitCnt)
    }

    ghost predicate Valid()
      reads this
    {
      Open() && bitCnt < 8
    }

    constructor ()
      ensures Valid() && written == [] && out == [] && bitCnt == 0
    {
      out, raw, written, bitBuf, bitCnt := [], [], [], 0, 0;
      new;
      SplitSum(0, 0, 24);
      assert Shl(0, 24) == 0 by { ShlMul(0, 24); }
    }

    method PutByte(c: byte)
      modifies this`out
      ensures out == old(out) + StuffByte(c)
    {
      out := out + [c];
      if c == 255 {
        out := out + [0];
      }
    }

    method FlushByte()
      requires Open() && bitCnt >= 8
      modifies this
      ensures Open() && written == old(written) && bitCnt == old(bitCnt) - 8
    {
      EmitByte(raw, bitBuf, bitCnt);
      PutByte(TopByte(bitBuf));
      raw := raw + [TopByte(bitBuf)];
      bitBuf, bitCnt := ShiftOut(bitBuf), bitCnt - 8;
    }

    method Append(code: nat, n: nat)
      requires Valid() && n <= 16 && code < Pow2(n)
      modifies this`bitBuf, this`bitCnt, this`written
      ensures Open() && written == old(written) + Msb(code, n) && bitCnt == old(bitCnt) + n
    {
      PutCodeWritten(raw, bitBuf, bitCnt, code, n, 24 - (bitCnt + n));
      bitBuf, bitCnt := BitOr(bitBuf, Shl(code, 24 - (bitCnt + n))), bitCnt + n;
      written := written + Msb(code, n);
    }

    /** `stbiw__jpg_writeBits`. */
    method WriteBits(code: nat, n: nat)
      requires Valid() && n <= 16 && code < Pow2(n)
      modifies this
      ensures Valid() && written == old(written) + Msb(code, n)
    {
      Append(code, n);
      while bitCnt >= 8
        invariant Open() && written == old(written) + Msb(code, n)
      {
        FlushByte();
      }
    }
  }
}
