/** A decompressor written from RFC 1951 (DEFLATE) and RFC 1950 (zlib), for a stream that consists of
    one final block with fixed Huffman codes.  It is the specification the compressor is held to. */
module Inflate {
  import opened Wrappers
  import opened Bits

  // --- Section 3.1.1: how data elements and codes lie in the bit stream ---

  function ReadLsb(bits: seq<bool>, pos: nat, n: nat): Option<nat>
  {
    if pos + n > |bits| then None else Some(LsbValue(bits, pos, n))
  }

  function ReadMsb(bits: seq<bool>, pos: nat, n: nat): Option<nat>
  {
    if pos + n > |bits| then None else Some(MsbValue(bits, pos, n))
  }

  // --- Section 3.2.6: the fixed literal/length code ---

  /** The symbol at `pos` and the position after its code. */
  function DecodeSymbol(bits: seq<bool>, pos: nat): (r: Option<(nat, nat)>)
    ensures r.Some? ==> pos < r.value.1 <= |bits|
  {
    var v7 := ReadMsb(bits, pos, 7);
    var v8 := ReadMsb(bits, pos, 8);
    var v9 := ReadMsb(bits, pos, 9);
    if v7.Some? && v7.value <= 0x17 then Some((256 + v7.value, pos + 7))
    else if v8.Some? && 0x30 <= v8.value <= 0xbf then Some((v8.value - 0x30, pos + 8))
    else if v8.Some? && 0xc0 <= v8.value <= 0xc7 then Some((280 + v8.value - 0xc0, pos + 8))
    else if v9.Some? && 0x190 <= v9.value <= 0x1ff then Some((144 + v9.value - 0x190, pos + 9))
    else None
  }

  // --- Section 3.2.5: lengths and distances ---

  const LENGTH_BASE: seq<nat> :=
    [3, 4, 5, 6, 7, 8, 9, 10, 11, 13, 15, 17, 19, 23, 27, 31, 35, 43, 51, 59, 67, 83, 99, 115, 131, 163, 195, 227, 258]
  const LENGTH_EXTRA: seq<nat> :=
    [0, 0, 0, 0, 0, 0, 0, 0, 1, 1, 1, 1, 2, 2, 2, 2, 3, 3, 3, 3, 4, 4, 4, 4, 5, 5, 5, 5, 0]
  const DIST_BASE: seq<nat> :=
    [1, 2, 3, 4, 5, 7, 9, 13, 17, 25, 33, 49, 65, 97, 129, 193, 257, 385, 513, 769, 1025, 1537, 2049, 3073, 4097, 6145,
     8193, 12289, 16385, 24577]
  const DIST_EXTRA: seq<nat> :=
    [0, 0, 0, 0, 1, 1, 2, 2, 3, 3, 4, 4, 5, 5, 6, 6, 7, 7, 8, 8, 9, 9, 10, 10, 11, 11, 12, 12, 13, 13]

  function Entry(table: seq<nat>, j: nat): nat
  {
    if j < |table| then table[j] else 0
  }

  function LengthBase(j: nat): nat { Entry(LENGTH_BASE, j) }
  function LengthExtra(j: nat): nat { Entry(LENGTH_EXTRA, j) }
  function DistBase(j: nat): nat { Entry(DIST_BASE, j) }
  function DistExtra(j: nat): nat { Entry(DIST_EXTRA, j) }

  /** Extra bits after a code: base plus an LSB-first number. */
  function ReadExtra(bits: seq<bool>, pos: nat, base: nat, extra: nat): (r: Option<(nat, nat)>)
    ensures r.Some? ==> r.value.1 == pos + extra <= |bits|
  {
    var v := ReadLsb(bits, pos, extra);
    if v.None? then None else Some((base + v.value, pos + extra))
  }

  function DecodeLength(bits: seq<bool>, pos: nat, symbol: nat): (r: Option<(nat, nat)>)
    ensures r.Some? ==> pos <= r.value.1 <= |bits|
  {
    if 257 <= symbol <= 285
    then ReadExtra(bits, pos, LengthBase(symbol - 257), LengthExtra(symbol - 257))
    else None
  }

  function DecodeDistance(bits: seq<bool>, pos: nat): (r: Option<(nat, nat)>)
    ensures r.Some? ==> pos <= r.value.1 <= |bits|
  {
    var c := ReadMsb(bits, pos, 5);
    if c.None? || c.value >= 30 then None
    else ReadExtra(bits, pos + 5, DistBase(c.value), DistExtra(c.value))
  }

  /** Copying byte by byte lets a match overlap what it produces. */
  function CopyMatch(out: seq<byte>, len: nat, dist: nat): (r: seq<byte>)
    requires 1 <= dist <= |out|
    decreases len
  {
    if len == 0 then out
    else CopyMatch(out + [out[|out| - dist]], len - 1, dist)
  }

  /** How symbols, lengths and distances are coded: each reader gives a value and the next position. */
  datatype Format = Format(
    symbol: (seq<bool>, nat) -> Option<(nat, nat)>,
    length: (seq<bool>, nat, nat) -> Option<(nat, nat)>,
    distance: (seq<bool>, nat) -> Option<(nat, nat)>)

  const FIXED := Format(DecodeSymbol, DecodeLength, DecodeDistance)

  /** Section 3.2.3: symbols until the end-of-block code; the output and the position after that code. */
  function DecodeSymbols(f: Format, bits: seq<bool>, pos: nat, out: seq<byte>): (r: Option<(seq<byte>, nat)>)
    decreases |bits| - pos
  {
    var s := f.symbol(bits, pos);
    if s.None? || !(pos < s.value.1 <= |bits|) then None
    else if s.value.0 < 256 then DecodeSymbols(f, bits, s.value.1, out + [s.value.0])
    else if s.value.0 == 256 then Some((out, s.value.1))
    else
      var len := f.length(bits, s.value.1, s.value.0);
      if len.None? then None
      else
        var dist := f.distance(bits, len.value.1);
        if dist.None? || !(pos < dist.value.1 <= |bits|) || !(1 <= dist.value.0 <= |out|) then None
        else DecodeSymbols(f, bits, dist.value.1, CopyMatch(out, len.value.0, dist.value.0))
  }

  /** One block: BFINAL must be set and BTYPE must be 01. */
  function DecodeBlock(bits: seq<bool>, pos: nat): Option<(seq<byte>, nat)>
  {
    if ReadLsb(bits, pos, 1) == Some(1) && ReadLsb(bits, pos + 1, 2) == Some(1)
    then DecodeSymbols(FIXED, bits, pos + 3, [])
    else None
  }

  // --- RFC 1950 ---

  const ADLER_MOD := 65521

  /** Section 8.2: both sums, one byte at a time. */
  function Adler(data: seq<byte>): (r: (nat, nat))
    ensures r.0 < ADLER_MOD && r.1 < ADLER_MOD
  {
    if data == [] then (1, 0)
    else
      var (a, b) := Adler(data[..|data| - 1]);
      var a' := (a + data[|data| - 1]) % ADLER_MOD;
      (a', (b + a') % ADLER_MOD)
  }

  function U16(hi: byte, lo: byte): nat
  {
    hi as int * 256 + lo as int
  }

  /** Section 2.2: compression method 8, a window of at most 32K, a check value and no preset dictionary. */
  predicate HeaderOk(cmf: byte, flg: byte)
  {
    cmf % 16 == 8 && cmf / 16 <= 7 && U16(cmf, flg) % 31 == 0 && (flg / 32) % 2 == 0
  }

  /** The checksum in network byte order, the second sum first. */
  predicate TrailerOk(t: seq<byte>, data: seq<byte>)
    requires |t| == 4
  {
    U16(t[0], t[1]) == Adler(data).1 && U16(t[2], t[3]) == Adler(data).0
  }

  /** Header, compressed data and checksum. */
  function ZlibDecode(s: seq<byte>): Option<seq<byte>>
  {
    if |s| < 2 || !HeaderOk(s[0], s[1]) then None
    else
      var r := DecodeBlock(BytesLsb(s), 16);
      if r.None? then None
      else
        var end := (r.value.1 + 7) / 8;
        if end + 4 == |s| && TrailerOk(s[end..], r.value.0) then Some(r.value.0) else None
  }
}
