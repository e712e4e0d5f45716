/** `stbi_zlib_compress`: LZ77 matching over a hash table of earlier positions, fixed Huffman codes,
    LSB-first bit packing and the Adler-32 trailer. */
module Zlib {
  import opened Bits
  import opened Tokens

  const U32 := 0x1_0000_0000

  // --- Bit packing ---

  class BitWriter {
    var out: seq<byte>
    var bitbuf: nat
    var bitcount: nat

    ghost predicate Valid()
      reads this
    {
      bitcount < 8 && bitbuf < Pow2(bitcount)
    }

    /** Everything written so far, including the bits that do not fill a byte yet. */
    ghost function Stream(): seq<bool>
      reads this
    {
      BytesLsb(out) + Lsb(bitbuf, bitcount)
    }

    constructor (header: seq<byte>)
      ensures Valid() && out == header && Stream() == BytesLsb(header)
    {
      out, bitbuf, bitcount := header, 0, 0;
    }

    /** `stbiw__zlib_flushf`: whole bytes leave the bit buffer. */
    method Flush()
      requires bitbuf < Pow2(bitcount)
      modifies this
      ensures Valid() && Stream() == old(Stream())
    {
      while bitcount >= 8
        invariant bitbuf < Pow2(bitcount) && Stream() == old(Stream())
      {
        ByteOut(out, bitbuf, bitcount);
        out := out + [bitbuf % 256];
        bitbuf := bitbuf / 256;
        bitcount := bitcount - 8;
      }
    }

    /** `stbiw__zlib_add`, with the 32-bit shift written out. */
    method Add(code: nat, codebits: nat)
      requires Valid() && code < Pow2(codebits) && codebits <= 24
      modifies this
      ensures Valid() && Stream() == old(Stream()) + Lsb(code, codebits)
    {
      CodeIn(out, bitbuf, bitcount, code, codebits);
      bitbuf := BitOr(bitbuf, Shl(code, bitcount) % U32);
      bitcount := bitcount + codebits;
      Flush();
    }

    /** `stbiw__zlib_huffa`: a code word goes out most significant bit first. */
    method AddReversed(code: nat, codebits: nat)
      requires Valid() && code < Pow2(codebits) && codebits <= 24
      modifies this
      ensures Valid() && Stream() == old(Stream()) + Msb(code, codebits)
    {
      var rev := Reverse(code, codebits);
      BitRevSpells(code, codebits, 0, 0);
      assert Msb(code, codebits) + Lsb(0, 0) == Msb(code, codebits);
      Add(rev, codebits);
    }

    /** `stbiw__zlib_huff`. */
    method AddSymbol(n: nat)
      requires Valid() && n <= 287
      modifies this
      ensures Valid() && Stream() == old(Stream()) + CodeBits(n)
    {
      Pow2Small();
      if n <= 143 {
        AddReversed(0x30 + n, 8);
      } else if n <= 255 {
        AddReversed(0x190 + n - 144, 9);
      } else if n <= 279 {
        AddReversed(n - 256, 7);
      } else {
        AddReversed(0xc0 + n - 280, 8);
      }
    }

    /** Zero bits up to the next byte boundary. */
    method Pad()
      requires Valid()
      modifies this
      ensures Valid() && bitcount == 0
      ensures old(Stream()) <= Stream() == BytesLsb(out) && |Stream()| < |old(Stream())| + 8
      ensures forall k :: |old(Stream())| <= k < |Stream()| ==> !Stream()[k]
    {
      ghost var n := bitcount;
      while bitcount > 0
        invariant Valid() && old(Stream()) <= Stream() && |Stream()| == |old(Stream())| - old(bitcount) + n
        invariant old(bitcount) <= n <= 8 && bitcount == n % 8 && (old(bitcount) == 0 ==> n == 0)
        invariant forall k :: |old(Stream())| <= k < |Stream()| ==> !Stream()[k]
        decreases 8 - n
      {
        Pow2Small();
        Add(0, 1);
        n := n + 1;
        assert 8 * |out| + bitcount == |Stream()| == 8 * |old(out)| + n;
      }
    }
  }

  lemma CodeIn(out: seq<byte>, buf: nat, c: nat, code: nat, n: nat)
    requires buf < Pow2(c) && c < 8 && code < Pow2(n) && n <= 24
    ensures var buf' := BitOr(buf, Shl(code, c) % U32);
            buf' < Pow2(c + n) && BytesLsb(out) + Lsb(buf', c + n) == (BytesLsb(out) + Lsb(buf, c)) + Lsb(code, n)
  {
    ShiftFits(code, n, c);
    OrAppends(buf, c, code, n);
    Associate(BytesLsb(out), Lsb(buf, c), Lsb(code, n));
  }

  lemma Associate(a: seq<bool>, b: seq<bool>, c: seq<bool>)
    ensures a + (b + c) == (a + b) + c
  {
  }

  lemma ByteOut(out: seq<byte>, buf: nat, n: nat)
    requires n >= 8 && buf < Pow2(n)
    ensures buf / 256 < Pow2(n - 8)
    ensures BytesLsb(out) + Lsb(buf, n) == BytesLsb(out + [buf % 256]) + Lsb(buf / 256, n - 8)
  {
    LsbSplit(buf, 8, n - 8);
    HighBound(buf, n - 8, 8);
    ByteSplit(buf);
    assert (out + [buf % 256])[..|out|] == out;
    assert BytesLsb(out) + (Lsb(buf % 256, 8) + Lsb(buf / 256, n - 8)) ==
           (BytesLsb(out) + Lsb(buf % 256, 8)) + Lsb(buf / 256, n - 8);
  }

  lemma {:induction false} Pow2Monotone(m: nat, n: nat)
    requires m <= n
    ensures Pow2(m) <= Pow2(n)
  {
    if m < n {
      Pow2Monotone(m, n - 1);
    }
  }

  /** The shifted code stays below 2^32. */
  lemma ShiftFits(code: nat, codebits: nat, bitcount: nat)
    requires code < Pow2(codebits) && codebits <= 24 && bitcount < 8
    ensures Shl(code, bitcount) % U32 == Shl(code, bitcount)
  {
    ShlBound(code, codebits, bitcount);
    Pow2Monotone(codebits + bitcount, 31);
    Pow2Large();
  }

  lemma Pow2Large()
    ensures Pow2(31) == 0x8000_0000
  {
    Pow2Small();
    assert Pow2(19) == 8 * Pow2(16);
    assert Pow2(22) == 8 * Pow2(19);
    assert Pow2(25) == 8 * Pow2(22);
    assert Pow2(28) == 8 * Pow2(25);
    assert Pow2(31) == 8 * Pow2(28);
  }

  /** `stbiw__zlib_bitrev`. */
  method Reverse(code0: nat, codebits: nat) returns (res: nat)
    ensures res == BitRev(code0, codebits, 0)
  {
    res := 0;
    var code := code0;
    for k := 0 to codebits
      invariant BitRev(code0, codebits, 0) == BitRev(code, codebits - k, res)
    {
      OrLowBit(res, code % 2);
      res := BitOr(2 * res, code % 2);
      code := code / 2;
    }
  }

  lemma OrLowBit(r: nat, b: nat)
    requires b < 2
    ensures BitOr(2 * r, b) == 2 * r + b
  {
    OrRightZero(r);
  }

  lemma {:induction false} OrRightZero(x: nat)
    ensures BitOr(x, 0) == x
  {
    if x > 0 {
      OrRightZero(x / 2);
    }
  }
}
