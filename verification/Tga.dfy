/** Run-length coded TGA images: a decoder for the packets and the encoder of the image writer. */
module Tga {
  import opened Wrappers
  import opened Bits
  import opened Streams
  import opened Parses

  /** The samples of a pixel, in memory order. */
  type Pixel = seq<byte>

  /** Blue, green and red in the file are red, green and blue in memory; alpha comes last in both. */
  function Swap(p: Pixel): (r: Pixel)
    ensures |r| == |p|
  {
    if |p| == 3 then [p[2], p[1], p[0]]
    else if |p| == 4 then [p[2], p[1], p[0], p[3]]
    else p
  }

  /** How the samples of a pixel are arranged in the file. */
  datatype Order = Order(swap: Pixel -> Pixel)

  const FILE_ORDER: Order := Order(p => Swap(p))

  /** Arranging twice gives the pixel back. */
  ghost predicate OrderOk(o: Order)
  {
    (forall p :: |o.swap(p)| == |p|) && (forall p {:trigger o.swap(o.swap(p))} :: o.swap(o.swap(p)) == p)
  }

  lemma FileOrderOk()
    ensures OrderOk(FILE_ORDER)
  {
    forall p: Pixel
      ensures |FILE_ORDER.swap(p)| == |p| && FILE_ORDER.swap(FILE_ORDER.swap(p)) == p
    {
      SwapTwice(p);
    }
  }

  // --- Decoding ---

  function ReadPixels(o: Order, s: seq<byte>, pos: nat, comp: nat, n: nat): (r: Option<(seq<Pixel>, nat)>)
    ensures r.Some? ==> pos <= r.value.1
    decreases n
  {
    if n == 0 then Some(([], pos))
    else
      var before := ReadPixels(o, s, pos, comp, n - 1);
      if before.None? || before.value.1 + comp > |s| then None
      else
        var p := before.value.1;
        Some((before.value.0 + [o.swap(s[p..p + comp])], p + comp))
  }

  function Repeat(p: Pixel, n: nat): (r: seq<Pixel>)
    ensures |r| == n
  {
    seq(n, i => p)
  }

  /** One row of `width` pixels: bit 7 of a packet's header marks a run, the other bits are its length less one. */
  function DecodeRow(
    o: Order, s: seq<byte>, pos: nat, comp: nat, width: nat, out: seq<Pixel>): Option<(seq<Pixel>, nat)>
    decreases |s| - pos
  {
    if |out| >= width then (if |out| == width then Some((out, pos)) else None)
    else if pos >= |s| then None
    else if s[pos] >= 128 then
      if pos + 1 + comp > |s| then None
      else DecodeRow(o, s, pos + 1 + comp, comp, width, out + Repeat(o.swap(s[pos + 1..pos + 1 + comp]), s[pos] - 127))
    else
      var pixels := ReadPixels(o, s, pos + 1, comp, s[pos] + 1);
      if pixels.None? then None else DecodeRow(o, s, pixels.value.1, comp, width, out + pixels.value.0)
  }

  /** How one row is decoded. */
  type RowDecoder = (seq<byte>, nat) -> Option<(seq<Pixel>, nat)>

  function Rows(o: Order, comp: nat, width: nat): RowDecoder
  {
    (s, pos) => DecodeRow(o, s, pos, comp, width, [])
  }

  function DecodeRows(decode: RowDecoder, s: seq<byte>, pos: nat, n: nat): Option<(seq<seq<Pixel>>, nat)>
  {
    if n == 0 then Some(([], pos))
    else
      var before := DecodeRows(decode, s, pos, n - 1);
      if before.None? then None
      else
        var row := decode(s, before.value.1);
        if row.None? then None else Some((before.value.0 + [row.value.0], row.value.1))
  }

  // --- What packets decode to ---

  ghost predicate PixelsOk(row: seq<Pixel>, comp: nat)
  {
    forall i :: 0 <= i < |row| ==> |row[i]| == comp
  }

  /** The bytes of a raw packet behind its header. */
  function PixelBytes(o: Order, pixels: seq<Pixel>): seq<byte>
  {
    if pixels == [] then [] else PixelBytes(o, pixels[..|pixels| - 1]) + o.swap(pixels[|pixels| - 1])
  }

  lemma SwapTwice(p: Pixel)
    ensures Swap(Swap(p)) == p
  {
  }

  lemma PixelNext(o: Order, s: seq<byte>, pos: nat, comp: nat, front: seq<Pixel>, mid: nat, last: Pixel)
    requires OrderOk(o) && ReadPixels(o, s, pos, comp, |front|) == Some((front, mid))
    requires |last| == comp && Lies(s, mid, o.swap(last))
    ensures ReadPixels(o, s, pos, comp, |front| + 1) == Some((front + [last], mid + comp))
  {
    assert s[mid..mid + comp] == o.swap(last);
  }

  lemma PixelBytesMore(o: Order, front: seq<Pixel>, last: Pixel)
    ensures PixelBytes(o, front + [last]) == PixelBytes(o, front) + o.swap(last)
  {
    assert (front + [last])[..|front|] == front;
  }

  lemma {:induction false} PixelsBack(o: Order, s: seq<byte>, pos: nat, comp: nat, pixels: seq<Pixel>, k: nat)
    requires OrderOk(o) && PixelsOk(pixels, comp) && k <= |pixels| && Lies(s, pos, PixelBytes(o, pixels[..k]))
    ensures ReadPixels(o, s, pos, comp, k) == Some((pixels[..k], pos + |PixelBytes(o, pixels[..k])|))
  {
    if k > 0 {
      var front, last := pixels[..k - 1], pixels[k - 1];
      assert pixels[..k] == front + [last];
      PixelBytesMore(o, front, last);
      LiesSplit(s, pos, PixelBytes(o, front), o.swap(last));
      PixelsBack(o, s, pos, comp, pixels, k - 1);
      PixelNext(o, s, pos, comp, front, pos + |PixelBytes(o, front)|, last);
    }
  }

  /** Where decoding a row goes on. */
  type PacketDecoder = (seq<byte>, nat, seq<Pixel>) -> Option<(seq<Pixel>, nat)>

  function Packets(o: Order, comp: nat, width: nat): PacketDecoder
  {
    (s, pos, out) => DecodeRow(o, s, pos, comp, width, out)
  }

  ghost predicate SpelledAt(decode: PacketDecoder, out: seq<Pixel>, w: seq<byte>, out': seq<Pixel>, s: seq<byte>,
                            pos: nat)
  {
    Lies(s, pos, w) ==> decode(s, pos, out) == decode(s, pos + |w|, out')
  }

  /** Wherever `w` lies, decoding through it turns the pixels `out` into `out'`. */
  ghost predicate Spells(decode: PacketDecoder, out: seq<Pixel>, w: seq<byte>, out': seq<Pixel>)
  {
    forall s: seq<byte>, pos: nat :: SpelledAt(decode, out, w, out', s, pos)
  }

  lemma SpellsNothing(decode: PacketDecoder, out: seq<Pixel>)
    ensures Spells(decode, out, [], out)
  {
  }

  lemma SpellsConcat(decode: PacketDecoder, a: seq<Pixel>, v: seq<byte>, b: seq<Pixel>, w: seq<byte>, c: seq<Pixel>)
    requires Spells(decode, a, v, b) && Spells(decode, b, w, c)
    ensures Spells(decode, a, v + w, c)
  {
    forall s: seq<byte>, pos: nat
      ensures SpelledAt(decode, a, v + w, c, s, pos)
    {
      if Lies(s, pos, v + w) {
        LiesSplit(s, pos, v, w);
        assert SpelledAt(decode, a, v, b, s, pos) && SpelledAt(decode, b, w, c, s, pos + |v|);
        assert pos + |v + w| == pos + |v| + |w|;
      }
    }
  }

  lemma DecodesRun(o: Order, s: seq<byte>, pos: nat, comp: nat, width: nat, out: seq<Pixel>, w: seq<byte>)
    requires |out| < width && pos + 1 + comp <= |s| && s[pos] >= 128 && s[pos + 1..pos + 1 + comp] == w
    ensures DecodeRow(o, s, pos, comp, width, out) ==
            DecodeRow(o, s, pos + 1 + comp, comp, width, out + Repeat(o.swap(w), s[pos] - 127))
  {
  }

  lemma RunAt(o: Order, comp: nat, width: nat, out: seq<Pixel>, n: nat, p: Pixel, s: seq<byte>, pos: nat)
    requires OrderOk(o) && 1 <= n <= 128 && |p| == comp && |out| < width && Lies(s, pos, [n + 127] + o.swap(p))
    ensures DecodeRow(o, s, pos, comp, width, out) == DecodeRow(o, s, pos + 1 + comp, comp, width, out + Repeat(p, n))
  {
    LiesHead(s, pos, n + 127, o.swap(p));
    DecodesRun(o, s, pos, comp, width, out, o.swap(p));
  }

  lemma SpellsRun(o: Order, comp: nat, width: nat, out: seq<Pixel>, n: nat, p: Pixel, w: seq<byte>,
                  out': seq<Pixel>)
    requires OrderOk(o) && 1 <= n <= 128 && |p| == comp && |out| < width
    requires w == [n + 127] + o.swap(p) && out' == out + Repeat(p, n)
    ensures Spells(Packets(o, comp, width), out, w, out')
  {
    forall s: seq<byte>, pos: nat
      ensures SpelledAt(Packets(o, comp, width), out, w, out', s, pos)
    {
      RunSpelled(o, comp, width, out, n, p, w, out', s, pos);
    }
  }

  lemma RunSpelled(o: Order, comp: nat, width: nat, out: seq<Pixel>, n: nat, p: Pixel, w: seq<byte>,
                   out': seq<Pixel>, s: seq<byte>, pos: nat)
    requires OrderOk(o) && 1 <= n <= 128 && |p| == comp && |out| < width
    requires w == [n + 127] + o.swap(p) && out' == out + Repeat(p, n)
    ensures SpelledAt(Packets(o, comp, width), out, w, out', s, pos)
  {
    if Lies(s, pos, w) {
      RunAt(o, comp, width, out, n, p, s, pos);
      assert pos + |w| == pos + 1 + comp;
    }
  }

  lemma DecodesRaw(o: Order, s: seq<byte>, pos: nat, comp: nat, width: nat, out: seq<Pixel>, pixels: seq<Pixel>,
                   next: nat)
    requires |out| < width && pos < |s| && s[pos] < 128
             && ReadPixels(o, s, pos + 1, comp, s[pos] + 1) == Some((pixels, next))
    ensures DecodeRow(o, s, pos, comp, width, out) == DecodeRow(o, s, next, comp, width, out + pixels)
  {
  }

  /** Wherever `body` lies, the pixels are read back. */
  ghost predicate ReadsBack(o: Order, comp: nat, pixels: seq<Pixel>, body: seq<byte>, s: seq<byte>, pos: nat)
  {
    Lies(s, pos, body) ==> ReadPixels(o, s, pos, comp, |pixels|) == Some((pixels, pos + |body|))
  }

  lemma BytesRead(o: Order, comp: nat, pixels: seq<Pixel>)
    requires OrderOk(o) && PixelsOk(pixels, comp)
    ensures forall s: seq<byte>, pos: nat :: ReadsBack(o, comp, pixels, PixelBytes(o, pixels), s, pos)
  {
    forall s: seq<byte>, pos: nat | Lies(s, pos, PixelBytes(o, pixels))
      ensures ReadsBack(o, comp, pixels, PixelBytes(o, pixels), s, pos)
    {
      assert pixels[..|pixels|] == pixels;
      PixelsBack(o, s, pos, comp, pixels, |pixels|);
    }
  }

  lemma RawAt(o: Order, comp: nat, width: nat, out: seq<Pixel>, pixels: seq<Pixel>, body: seq<byte>, s: seq<byte>,
              pos: nat)
    requires 1 <= |pixels| <= 128 && |out| < width
    requires Lies(s, pos, [|pixels| - 1] + body) && ReadsBack(o, comp, pixels, body, s, pos + 1)
    ensures DecodeRow(o, s, pos, comp, width, out) == DecodeRow(o, s, pos + 1 + |body|, comp, width, out + pixels)
  {
    LiesHead(s, pos, |pixels| - 1, body);
    DecodesRaw(o, s, pos, comp, width, out, pixels, pos + 1 + |body|);
  }

  lemma SpellsRaw(o: Order, comp: nat, width: nat, out: seq<Pixel>, pixels: seq<Pixel>, body: seq<byte>, w: seq<byte>,
                  out': seq<Pixel>)
    requires 1 <= |pixels| <= 128 && |out| < width
    requires forall s: seq<byte>, pos: nat :: ReadsBack(o, comp, pixels, body, s, pos)
    requires w == [|pixels| - 1] + body && out' == out + pixels
    ensures Spells(Packets(o, comp, width), out, w, out')
  {
    forall s: seq<byte>, pos: nat
      ensures SpelledAt(Packets(o, comp, width), out, w, out', s, pos)
    {
      assert ReadsBack(o, comp, pixels, body, s, pos + 1);
      RawSpelled(o, comp, width, out, pixels, body, w, out', s, pos);
    }
  }

  lemma RawSpelled(o: Order, comp: nat, width: nat, out: seq<Pixel>, pixels: seq<Pixel>, body: seq<byte>, w: seq<byte>,
                   out': seq<Pixel>, s: seq<byte>, pos: nat)
    requires 1 <= |pixels| <= 128 && |out| < width && ReadsBack(o, comp, pixels, body, s, pos + 1)
    requires w == [|pixels| - 1] + body && out' == out + pixels
    ensures SpelledAt(Packets(o, comp, width), out, w, out', s, pos)
  {
    if Lies(s, pos, w) {
      RawAt(o, comp, width, out, pixels, body, s, pos);
      assert pos + |w| == pos + 1 + |body|;
    }
  }

  // --- Encoding ---

  /** The longest run at `i`, up to 128 pixels. */
  ghost predicate RunFrom(row: seq<Pixel>, i: nat, len: nat)
  {
    && i < i + len <= |row| && (forall k :: i <= k < i + len ==> row[k] == row[i])
    && (len == 128 || i + len == |row| || row[i + len] != row[i])
  }

  /** No pixel from the third to the last equals the one two places back; the packet stops at the end, at 128
      pixels, or one pixel before such an equality. */
  ghost predicate RawFromTo(row: seq<Pixel>, i: nat, len: nat)
  {
    && len >= 1 && i + len <= |row| && (forall k :: i + 2 <= k < i + len ==> row[k] != row[k - 2])
    && (i + len == |row| || len == 128
        || (&& len < 127 && i + len + 1 < |row| && row[i + len + 1] == row[i + len - 1]
            && (len > 1 ==> row[i + len] != row[i + len - 2])))
  }

  /** The next packet at `i`. A raw packet ends before a pixel that equals the one two places back; a run ends at
      the first pixel that differs from its own. */
  method ChoosePacket(row: seq<Pixel>, i: nat) returns (len: nat, run: bool)
    requires i < |row|
    ensures 1 <= len <= 128 && i + len <= |row| && run == (i + 1 < |row| && row[i] == row[i + 1])
    ensures run ==> RunFrom(row, i, len)
    ensures !run && i + 1 < |row| ==> RawFromTo(row, i, len)
  {
    len, run := 1, false;
    if i < |row| - 1 {
      len := 2;
      run := row[i] == row[i + 1];
      var k := i + 2;
      if !run {
        var prev := i;
        while k < |row| && len < 128
          invariant i + 2 <= k <= |row| && len == k - i && prev == k - 2 && len <= 128
          invariant forall j :: i + 2 <= j < k ==> row[j] != row[j - 2]
        {
          if row[prev] != row[k] {
            prev, len, k := prev + 1, len + 1, k + 1;
          } else {
            len := len - 1;
            break;
          }
        }
      } else {
        while k < |row| && len < 128 && row[i] == row[k]
          invariant i + 2 <= k <= |row| && len == k - i && len <= 128
          invariant forall j :: i <= j < k ==> row[j] == row[i]
        {
          len, k := len + 1, k + 1;
        }
      }
    }
  }

  // --- The packets of a row ---

  datatype Packet = Run(n: nat, p: Pixel) | Raw(pixels: seq<Pixel>)

  function PacketLength(t: Packet): nat
  {
    match t case Run(n, _) => n case Raw(pixels) => |pixels|
  }

  function PacketBytes(o: Order, t: Packet): seq<byte>
  {
    if !(1 <= PacketLength(t) <= 128) then []
    else
      match t
      case Run(n, p) => [n + 127] + o.swap(p)
      case Raw(pixels) => [|pixels| - 1] + PixelBytes(o, pixels)
  }

  /** The packet that belongs at `i`: the whole run where two equal pixels start, or else pixels up to the next
      place where a packet must stop. */
  ghost predicate PacketAt(row: seq<Pixel>, i: nat, t: Packet)
  {
    && i < |row|
    && if i + 1 < |row| && row[i] == row[i + 1] then t.Run? && t.p == row[i] && RunFrom(row, i, t.n) && t.n <= 128
       else
         && t.Raw? && i + |t.pixels| <= |row| && t.pixels == row[i..i + |t.pixels|]
         && if i + 1 < |row| then RawFromTo(row, i, |t.pixels|) && |t.pixels| <= 128 else |t.pixels| == 1
  }

  ghost function RowRules(row: seq<Pixel>): Rules<nat, Packet>
  {
    Rules<nat, Packet>.Rules(0, (i: nat, t: Packet) => i + PacketLength(t), (i: nat, t: Packet) => PacketAt(row, i, t))
  }

  /** `w` holds the packets of the row. */
  ghost predicate RowWritten(o: Order, row: seq<Pixel>, w: seq<byte>)
  {
    exists packets: seq<Packet> :: ParsesTo(RowRules(row), packets, |row|) && w == PacketsBytes(o, packets)
  }

  ghost function PacketsBytes(o: Order, packets: seq<Packet>): seq<byte>
  {
    Joined(t => PacketBytes(o, t), packets)
  }

  lemma PacketUnique(row: seq<Pixel>, i: nat, t: Packet, t': Packet)
    requires PacketAt(row, i, t) && PacketAt(row, i, t')
    ensures t == t'
  {
    var n, n' := PacketLength(t), PacketLength(t');
    if t.Run? {
      LongestRun(row, i, n, n');
      LongestRun(row, i, n', n);
    } else if i + 1 < |row| {
      RawStops(row, i, n, n');
      RawStops(row, i, n', n);
    }
  }

  lemma LongestRun(row: seq<Pixel>, i: nat, m: nat, n: nat)
    requires RunFrom(row, i, m) && RunFrom(row, i, n) && m <= 128 && n <= 128
    ensures m >= n
  {
  }

  lemma RawStops(row: seq<Pixel>, i: nat, m: nat, n: nat)
    requires RawFromTo(row, i, m) && RawFromTo(row, i, n) && m <= 128 && n <= 128
    ensures m >= n
  {
  }

  /** The row fixes its bytes. */
  lemma RowUnique(o: Order, row: seq<Pixel>, v: seq<byte>, w: seq<byte>)
    requires RowWritten(o, row, v) && RowWritten(o, row, w)
    ensures v == w
  {
    var rules := RowRules(row);
    var s: seq<Packet> :| ParsesTo(rules, s, |row|) && v == PacketsBytes(o, s);
    var t: seq<Packet> :| ParsesTo(rules, t, |row|) && w == PacketsBytes(o, t);
    forall i: nat, a: Packet, b: Packet | rules.right(i, a) && rules.right(i, b)
      ensures a == b
    {
      PacketUnique(row, i, a, b);
    }
    ParseUnique(rules, s, |row|, t, |row|);
  }

  method WritePixels(o: Order, pixels: seq<Pixel>) returns (w: seq<byte>)
    ensures w == PixelBytes(o, pixels)
  {
    w := [];
    for k := 0 to |pixels|
      invariant w == PixelBytes(o, pixels[..k])
    {
      assert pixels[..k + 1][..k] == pixels[..k];
      w := w + o.swap(pixels[k]);
    }
    assert pixels[..|pixels|] == pixels;
  }

  /** Writes the packet that belongs at `i`. */
  method WritePacket(o: Order, row: seq<Pixel>, i: nat) returns (len: nat, w: seq<byte>, ghost t: Packet)
    requires i < |row|
    ensures PacketAt(row, i, t) && 1 <= len == PacketLength(t) && i + len <= |row| && w == PacketBytes(o, t)
  {
    var run;
    len, run := ChoosePacket(row, i);
    if run {
      w := [len + 127] + o.swap(row[i]);
      t := Run(len, row[i]);
    } else {
      var pixels := row[i..i + len];
      var body := WritePixels(o, pixels);
      w := [len - 1] + body;
      t := Raw(pixels);
    }
  }

  ghost predicate PacketSpelled(decode: PacketDecoder, o: Order, row: seq<Pixel>, i: nat, t: Packet)
  {
    && i + PacketLength(t) <= |row|
    && Spells(decode, row[..i], PacketBytes(o, t), row[..i + PacketLength(t)])
  }

  /** Decoding the packet that belongs at `i` gives its pixels. */
  lemma PacketSpells(o: Order, row: seq<Pixel>, comp: nat, i: nat, t: Packet)
    requires OrderOk(o) && PixelsOk(row, comp) && PacketAt(row, i, t)
    ensures PacketSpelled(Packets(o, comp, |row|), o, row, i, t)
  {
    var n := PacketLength(t);
    match t
    case Run(_, p) =>
      assert row[..i] + Repeat(p, n) == row[..i + n];
      SpellsRun(o, comp, |row|, row[..i], n, p, PacketBytes(o, t), row[..i + n]);
    case Raw(pixels) =>
      BytesRead(o, comp, pixels);
      assert row[..i] + pixels == row[..i + n];
      SpellsRaw(o, comp, |row|, row[..i], pixels, PixelBytes(o, pixels), PacketBytes(o, t), row[..i + n]);
  }

  /** Decoding the packets gives the pixels before `i`. */
  ghost predicate SpelledTo(decode: PacketDecoder, o: Order, row: seq<Pixel>, packets: seq<Packet>, i: nat)
  {
    i <= |row| && Spells(decode, [], PacketsBytes(o, packets), row[..i])
  }

  lemma NothingSpelled(decode: PacketDecoder, o: Order, row: seq<Pixel>)
    ensures SpelledTo(decode, o, row, [], 0)
  {
    SpellsNothing(decode, []);
    assert row[..0] == [];
  }

  lemma NextSpelled(decode: PacketDecoder, o: Order, row: seq<Pixel>, packets: seq<Packet>, i: nat, t: Packet)
    requires SpelledTo(decode, o, row, packets, i) && PacketSpelled(decode, o, row, i, t)
    ensures SpelledTo(decode, o, row, packets + [t], i + PacketLength(t))
  {
    SpellsConcat(decode, [], PacketsBytes(o, packets), row[..i], PacketBytes(o, t), row[..i + PacketLength(t)]);
    PacketsMore(o, packets, t);
  }

  lemma PacketsMore(o: Order, packets: seq<Packet>, t: Packet)
    ensures PacketsBytes(o, packets + [t]) == PacketsBytes(o, packets) + PacketBytes(o, t)
  {
    JoinedMore(t => PacketBytes(o, t), packets, t);
  }

  lemma PacketsSpell(decode: PacketDecoder, o: Order, row: seq<Pixel>, packets: seq<Packet>)
    requires forall i: nat, t: Packet :: PacketAt(row, i, t) ==> PacketSpelled(decode, o, row, i, t)
    requires ParsesTo(RowRules(row), packets, |row|)
    ensures Spells(decode, [], PacketsBytes(o, packets), row)
  {
    var keeps := (s: seq<Packet>, i: nat) => SpelledTo(decode, o, row, s, i);
    NothingSpelled(decode, o, row);
    forall s: seq<Packet>, i: nat, t: Packet | keeps(s, i) && PacketAt(row, i, t)
      ensures keeps(s + [t], i + PacketLength(t))
    {
      NextSpelled(decode, o, row, s, i, t);
    }
    ParseKeeps(RowRules(row), keeps, packets, |row|);
    assert row[..|row|] == row;
  }

  /** Decoding the packets of a row gives back the row. */
  lemma RowSpells(o: Order, row: seq<Pixel>, comp: nat, w: seq<byte>)
    requires OrderOk(o) && PixelsOk(row, comp) && RowWritten(o, row, w)
    ensures Spells(Packets(o, comp, |row|), [], w, row)
  {
    forall i: nat, t: Packet | PacketAt(row, i, t)
      ensures PacketSpelled(Packets(o, comp, |row|), o, row, i, t)
    {
      PacketSpells(o, row, comp, i, t);
    }
    var packets: seq<Packet> :| ParsesTo(RowRules(row), packets, |row|) && w == PacketsBytes(o, packets);
    PacketsSpell(Packets(o, comp, |row|), o, row, packets);
  }

  method WriteRow(o: Order, row: seq<Pixel>, comp: nat) returns (w: seq<byte>)
    requires OrderOk(o) && PixelsOk(row, comp)
    ensures RowWritten(o, row, w)
    ensures Spells(Packets(o, comp, |row|), [], w, row)
  {
    w := [];
    var i := 0;
    ghost var packets := [];
    while i < |row|
      invariant i <= |row| && ParsesTo(RowRules(row), packets, i) && w == PacketsBytes(o, packets)
    {
      ghost var t;
      var len, v;
      len, v, t := WritePacket(o, row, i);
      ParseMore(RowRules(row), packets, i, t);
      PacketsMore(o, packets, t);
      packets := packets + [t];
      w, i := w + v, i + len;
    }
    RowSpells(o, row, comp, w);
  }

  // --- The image ---

  /** The rows in the order in which they are written: bottom up, unless flipped. */
  function Ordered(rows: seq<seq<Pixel>>, flip: bool): (r: seq<seq<Pixel>>)
    ensures |r| == |rows|
    ensures forall j :: 0 <= j < |rows| ==> r[j] == rows[if flip then j else |rows| - 1 - j]
  {
    seq(|rows|, j requires 0 <= j < |rows| => rows[if flip then j else |rows| - 1 - j])
  }

  ghost predicate SpellsRow(decode: RowDecoder, w: seq<byte>, row: seq<Pixel>)
  {
    forall s: seq<byte>, pos: nat :: Lies(s, pos, w) ==> decode(s, pos) == Some((row, pos + |w|))
  }

  /** A row that the packets spell out is decoded. */
  lemma RowBack(o: Order, comp: nat, w: seq<byte>, row: seq<Pixel>)
    requires Spells(Packets(o, comp, |row|), [], w, row)
    ensures SpellsRow(Rows(o, comp, |row|), w, row)
  {
    forall s: seq<byte>, pos: nat | Lies(s, pos, w)
      ensures Rows(o, comp, |row|)(s, pos) == Some((row, pos + |w|))
    {
      assert SpelledAt(Packets(o, comp, |row|), [], w, row, s, pos);
      assert DecodeRow(o, s, pos + |w|, comp, |row|, row) == Some((row, pos + |w|));
    }
  }

  ghost predicate SpellsRows(decode: RowDecoder, w: seq<byte>, rows: seq<seq<Pixel>>)
  {
    forall s: seq<byte>, pos: nat :: Lies(s, pos, w) ==> DecodeRows(decode, s, pos, |rows|) == Some((rows, pos + |w|))
  }

  lemma RowAppended(decode: RowDecoder, w: seq<byte>, rows: seq<seq<Pixel>>, v: seq<byte>, row: seq<Pixel>)
    requires SpellsRows(decode, w, rows) && SpellsRow(decode, v, row)
    ensures SpellsRows(decode, w + v, rows + [row])
  {
    forall s: seq<byte>, pos: nat | Lies(s, pos, w + v)
      ensures DecodeRows(decode, s, pos, |rows + [row]|) == Some((rows + [row], pos + |w + v|))
    {
      LiesSplit(s, pos, w, v);
      assert |rows + [row]| - 1 == |rows|;
      assert pos + |w + v| == pos + |w| + |v|;
    }
  }

  /** The rows one after the other, each with its packets. */
  ghost predicate RowsWritten(o: Order, rows: seq<seq<Pixel>>, w: seq<byte>)
    decreases |rows|
  {
    if rows == [] then w == []
    else
      exists v: seq<byte>, u: seq<byte> ::
        RowsWritten(o, rows[..|rows| - 1], v) && RowWritten(o, rows[|rows| - 1], u) && w == v + u
  }

  lemma RowsMore(o: Order, rows: seq<seq<Pixel>>, w: seq<byte>, row: seq<Pixel>, v: seq<byte>)
    requires RowsWritten(o, rows, w) && RowWritten(o, row, v)
    ensures RowsWritten(o, rows + [row], w + v)
  {
    assert (rows + [row])[..|rows|] == rows;
  }

  /** The image fixes its bytes. */
  lemma {:induction false} ImageUnique(o: Order, rows: seq<seq<Pixel>>, w: seq<byte>, w': seq<byte>)
    requires RowsWritten(o, rows, w) && RowsWritten(o, rows, w')
    ensures w == w'
    decreases |rows|
  {
    if rows != [] {
      var front, last := rows[..|rows| - 1], rows[|rows| - 1];
      var v, u :| RowsWritten(o, front, v) && RowWritten(o, last, u) && w == v + u;
      var v', u' :| RowsWritten(o, front, v') && RowWritten(o, last, u') && w' == v' + u';
      ImageUnique(o, front, v, v');
      RowUnique(o, last, u, u');
    }
  }

  /** The first `k` rows are written, and decoding gives them back. */
  ghost predicate ImageTo(o: Order, comp: nat, width: nat, all: seq<seq<Pixel>>, k: nat, w: seq<byte>)
  {
    k <= |all| && SpellsRows(Rows(o, comp, width), w, all[..k]) && RowsWritten(o, all[..k], w)
  }

  lemma ImageStarts(o: Order, comp: nat, width: nat, all: seq<seq<Pixel>>)
    ensures ImageTo(o, comp, width, all, 0, [])
  {
    assert all[..0] == [];
  }

  lemma NextRow(o: Order, comp: nat, all: seq<seq<Pixel>>, k: nat, w: seq<byte>, v: seq<byte>)
    requires k < |all| && ImageTo(o, comp, |all[k]|, all, k, w) && RowWritten(o, all[k], v)
    requires Spells(Packets(o, comp, |all[k]|), [], v, all[k])
    ensures ImageTo(o, comp, |all[k]|, all, k + 1, w + v)
  {
    RowBack(o, comp, v, all[k]);
    RowAppended(Rows(o, comp, |all[k]|), w, all[..k], v, all[k]);
    RowsMore(o, all[..k], w, all[k], v);
    assert all[..k] + [all[k]] == all[..k + 1];
  }

  lemma ImageEnds(o: Order, comp: nat, width: nat, all: seq<seq<Pixel>>, w: seq<byte>)
    requires ImageTo(o, comp, width, all, |all|, w)
    ensures SpellsRows(Rows(o, comp, width), w, all) && RowsWritten(o, all, w)
  {
    assert all[..|all|] == all;
  }

  /** The image data of `stbi_write_tga_core` with run-length coding. */
  method WriteImage(rows: seq<seq<Pixel>>, comp: nat, width: nat, flip: bool) returns (w: seq<byte>)
    requires forall j :: 0 <= j < |rows| ==> |rows[j]| == width && PixelsOk(rows[j], comp)
    ensures SpellsRows(Rows(FILE_ORDER, comp, width), w, Ordered(rows, flip))
    ensures RowsWritten(FILE_ORDER, Ordered(rows, flip), w)
  {
    w := [];
    FileOrderOk();
    ghost var all := Ordered(rows, flip);
    var j, jend, jdir := |rows| - 1, -1, -1;
    if flip {
      j, jend, jdir := 0, |rows|, 1;
    }
    ghost var k := 0;
    ImageStarts(FILE_ORDER, comp, width, all);
    while j != jend
      invariant 0 <= k <= |rows| && j == (if flip then k else |rows| - 1 - k)
      invariant ImageTo(FILE_ORDER, comp, width, all, k, w)
      decreases |rows| - k
    {
      var v := WriteRow(FILE_ORDER, rows[j], comp);
      NextRow(FILE_ORDER, comp, all, k, w, v);
      w := w + v;
      j, k := j + jdir, k + 1;
    }
    ImageEnds(FILE_ORDER, comp, width, all, w);
  }
}
