/** Run-length coding of Radiance scanlines: a decoder for the format and the encoder of the image writer. */
module Radiance {
  import opened Wrappers
  import opened Bits
  import opened Streams

  // --- Decoding ---

  function Repeat(b: byte, n: nat): (r: seq<byte>)
    ensures |r| == n
  {
    seq(n, i => b)
  }

  /** One component of a scanline: a count above 128 is a run, any other count but zero is a dump. */
  function DecodePlane(s: seq<byte>, pos: nat, width: nat, out: seq<byte>): Option<(seq<byte>, nat)>
    decreases |s| - pos
  {
    if |out| >= width then (if |out| == width then Some((out, pos)) else None)
    else if pos >= |s| then None
    else if s[pos] > 128 then
      if pos + 1 >= |s| then None
      else DecodePlane(s, pos + 2, width, out + Repeat(s[pos + 1], s[pos] - 128))
    else if s[pos] == 0 || pos + 1 + s[pos] > |s| then None
    else DecodePlane(s, pos + 1 + s[pos], width, out + s[pos + 1..pos + 1 + s[pos]])
  }

  /** `n` components one after the other. */
  function DecodePlanes(s: seq<byte>, pos: nat, width: nat, n: nat): Option<(seq<seq<byte>>, nat)>
  {
    if n == 0 then Some(([], pos))
    else
      var before := DecodePlanes(s, pos, width, n - 1);
      if before.None? then None
      else
        var plane := DecodePlane(s, before.value.1, width, []);
        if plane.None? then None else Some((before.value.0 + [plane.value.0], plane.value.1))
  }

  /** A scanline of the new format: 2, 2, the width, and the four components. */
  function DecodeScanline(s: seq<byte>, pos: nat, width: nat): Option<(seq<seq<byte>>, nat)>
  {
    if pos + 4 > |s| || s[pos] != 2 || s[pos + 1] != 2 || s[pos + 2] as int * 256 + s[pos + 3] as int != width then None
    else DecodePlanes(s, pos + 4, width, 4)
  }

  /** Component `c` of `width` interleaved pixels. */
  function FlatPlane(s: seq<byte>, pos: nat, width: nat, c: nat): (r: seq<byte>)
    requires pos + 4 * width <= |s| && c < 4
    ensures |r| == width
  {
    seq(width, x requires 0 <= x < width => s[pos + 4 * x + c])
  }

  /** Scanlines that are too narrow or too wide are stored pixel by pixel. */
  function DecodeRow(s: seq<byte>, pos: nat, width: nat): Option<(seq<seq<byte>>, nat)>
  {
    if 8 <= width < 32768 then DecodeScanline(s, pos, width)
    else if pos + 4 * width > |s| then None
    else Some((seq(4, c requires 0 <= c < 4 => FlatPlane(s, pos, width, c)), pos + 4 * width))
  }

  // --- What packets decode to ---

  ghost predicate SpelledAt(width: nat, out: seq<byte>, w: seq<byte>, out': seq<byte>, s: seq<byte>, pos: nat)
  {
    Lies(s, pos, w) ==> DecodePlane(s, pos, width, out) == DecodePlane(s, pos + |w|, width, out')
  }

  /** Wherever `w` lies, decoding through it turns the bytes `out` into `out'`. */
  ghost predicate Spells(width: nat, out: seq<byte>, w: seq<byte>, out': seq<byte>)
  {
    forall s: seq<byte>, pos: nat :: SpelledAt(width, out, w, out', s, pos)
  }

  lemma SpellsNothing(width: nat, out: seq<byte>)
    ensures Spells(width, out, [], out)
  {
  }

  lemma SpellsConcat(width: nat, a: seq<byte>, v: seq<byte>, b: seq<byte>, w: seq<byte>, c: seq<byte>)
    requires Spells(width, a, v, b) && Spells(width, b, w, c)
    ensures Spells(width, a, v + w, c)
  {
    forall s: seq<byte>, pos: nat
      ensures SpelledAt(width, a, v + w, c, s, pos)
    {
      if Lies(s, pos, v + w) {
        LiesSplit(s, pos, v, w);
        assert SpelledAt(width, a, v, b, s, pos) && SpelledAt(width, b, w, c, s, pos + |v|);
        assert pos + |v + w| == pos + |v| + |w|;
      }
    }
  }

  lemma SpellsRun(width: nat, out: seq<byte>, n: nat, b: byte)
    requires 1 <= n <= 127 && |out| < width
    ensures Spells(width, out, [n + 128, b], out + Repeat(b, n))
  {
    var w: seq<byte> := [n + 128, b];
    forall s: seq<byte>, pos: nat
      ensures SpelledAt(width, out, w, out + Repeat(b, n), s, pos)
    {
      RunSpelled(width, out, n, b, s, pos);
    }
  }

  lemma RunSpelled(width: nat, out: seq<byte>, n: nat, b: byte, s: seq<byte>, pos: nat)
    requires 1 <= n <= 127 && |out| < width
    ensures SpelledAt(width, out, [n + 128, b], out + Repeat(b, n), s, pos)
  {
    if Lies(s, pos, [n + 128, b]) {
      assert [n + 128, b] == [n + 128] + [b];
      LiesHead(s, pos, n + 128, [b]);
      assert [b] == [b] + [];
      LiesHead(s, pos + 1, b, []);
    }
  }

  lemma SpellsDump(width: nat, out: seq<byte>, data: seq<byte>)
    requires 1 <= |data| <= 128 && |out| < width
    ensures Spells(width, out, [|data|] + data, out + data)
  {
    forall s: seq<byte>, pos: nat
      ensures SpelledAt(width, out, [|data|] + data, out + data, s, pos)
    {
      DumpSpelled(width, out, data, s, pos);
    }
  }

  lemma DumpSpelled(width: nat, out: seq<byte>, data: seq<byte>, s: seq<byte>, pos: nat)
    requires 1 <= |data| <= 128 && |out| < width
    ensures SpelledAt(width, out, [|data|] + data, out + data, s, pos)
  {
    if Lies(s, pos, [|data|] + data) {
      LiesHead(s, pos, |data|, data);
    }
  }

  // --- Encoding ---

  /** The first place at or after `x` where three equal bytes start, or the end. */
  function FirstRun(comp: seq<byte>, x: nat): (r: nat)
    requires x <= |comp|
    ensures x <= r <= |comp|
    decreases |comp| - x
  {
    if x + 2 >= |comp| then |comp|
    else if comp[x] == comp[x + 1] == comp[x + 2] then x
    else FirstRun(comp, x + 1)
  }

  /** Where the bytes equal to `b` that start at `x` end. */
  function RunStop(comp: seq<byte>, x: nat, b: byte): (r: nat)
    requires x <= |comp|
    ensures x <= r <= |comp| && (x < |comp| && comp[x] == b ==> x < r)
    decreases |comp| - x
  {
    if x < |comp| && comp[x] == b then RunStop(comp, x + 1, b) else x
  }

  /** The bytes from `x` to `r` in dumps of at most 128. */
  function DumpBytes(comp: seq<byte>, x: nat, r: nat): seq<byte>
    requires x <= r <= |comp|
    decreases r - x
  {
    if x == r then []
    else
      var len := if r - x > 128 then 128 else r - x;
      [len] + comp[x..x + len] + DumpBytes(comp, x + len, r)
  }

  /** `n` times the byte `b` in runs of at most 127. */
  function RunBytes(b: byte, n: nat): seq<byte>
  {
    if n == 0 then []
    else
      var len := if n > 127 then 127 else n;
      [len + 128, b] + RunBytes(b, n - len)
  }

  /** Where the stretch at `x` ends: behind the first run of three or more. */
  function StretchEnd(comp: seq<byte>, x: nat): (r: nat)
    requires x < |comp|
    ensures x < r <= |comp|
  {
    var r := FirstRun(comp, x);
    if r == |comp| then r else RunStop(comp, r, comp[r])
  }

  /** Dumps up to the first run of three or more, and all of that run. */
  function StretchBytes(comp: seq<byte>, x: nat): seq<byte>
    requires x < |comp|
  {
    var r := FirstRun(comp, x);
    DumpBytes(comp, x, r) + if r == |comp| then [] else RunBytes(comp[r], StretchEnd(comp, x) - r)
  }

  /** A component from `x` on. */
  function PlaneBytes(comp: seq<byte>, x: nat): seq<byte>
    requires x <= |comp|
    decreases |comp| - x
  {
    if x == |comp| then [] else StretchBytes(comp, x) + PlaneBytes(comp, StretchEnd(comp, x))
  }

  method FindRun(comp: seq<byte>, x: nat) returns (r: nat, found: bool)
    requires x < |comp|
    ensures x <= r <= |comp| && r == FirstRun(comp, x)
    ensures if found then r + 2 < |comp| && comp[r] == comp[r + 1] == comp[r + 2] else r == |comp|
  {
    r := x;
    while r + 2 < |comp| && !(comp[r] == comp[r + 1] && comp[r] == comp[r + 2])
      invariant x <= r <= |comp| && FirstRun(comp, r) == FirstRun(comp, x)
    {
      r := r + 1;
    }
    found := r + 2 < |comp|;
    if r + 2 >= |comp| {
      r := |comp|;
    }
  }

  /** Dumps from `x` up to `r`. */
  method WriteDumps(comp: seq<byte>, x0: nat, r: nat) returns (w: seq<byte>)
    requires x0 <= r <= |comp|
    ensures w == DumpBytes(comp, x0, r)
  {
    var x := x0;
    w := [];
    while x < r
      invariant x0 <= x <= r && w + DumpBytes(comp, x, r) == DumpBytes(comp, x0, r)
    {
      var len := if r - x > 128 then 128 else r - x;
      DumpNext(w, comp, x, r);
      w, x := w + ([len] + comp[x..x + len]), x + len;
    }
  }

  lemma DumpNext(w: seq<byte>, comp: seq<byte>, x: nat, r: nat)
    requires x < r <= |comp|
    ensures var len := if r - x > 128 then 128 else r - x;
            w + DumpBytes(comp, x, r) == w + ([len] + comp[x..x + len]) + DumpBytes(comp, x + len, r)
  {
    var len := if r - x > 128 then 128 else r - x;
    Regroup(w, [len] + comp[x..x + len], DumpBytes(comp, x + len, r));
  }

  lemma Regroup(a: seq<byte>, b: seq<byte>, c: seq<byte>)
    ensures a + (b + c) == a + b + c
  {
  }

  lemma {:induction false} DumpsSpell(comp: seq<byte>, x: nat, r: nat)
    requires x <= r <= |comp|
    ensures Spells(|comp|, comp[..x], DumpBytes(comp, x, r), comp[..r])
    decreases r - x
  {
    if x == r {
      SpellsNothing(|comp|, comp[..x]);
    } else {
      var len := if r - x > 128 then 128 else r - x;
      var data := comp[x..x + len];
      SpellsDump(|comp|, comp[..x], data);
      assert comp[..x] + data == comp[..x + len];
      DumpsSpell(comp, x + len, r);
      SpellsConcat(|comp|, comp[..x], [len] + data, comp[..x + len], DumpBytes(comp, x + len, r), comp[..r]);
    }
  }

  /** The end of the run of equal bytes that starts at `x`. */
  method RunEnd(comp: seq<byte>, x: nat) returns (r: nat)
    requires x < |comp|
    ensures x < r <= |comp| && r == RunStop(comp, x, comp[x])
  {
    r := x;
    while r < |comp| && comp[r] == comp[x]
      invariant x <= r <= |comp| && RunStop(comp, r, comp[x]) == RunStop(comp, x, comp[x])
    {
      r := r + 1;
    }
  }

  /** Runs from `x` up to `r`. */
  method WriteRuns(comp: seq<byte>, x0: nat, r: nat) returns (w: seq<byte>)
    requires x0 < r <= |comp|
    ensures w == RunBytes(comp[x0], r - x0)
  {
    var x := x0;
    w := [];
    while x < r
      invariant x0 <= x <= r && w + RunBytes(comp[x0], r - x) == RunBytes(comp[x0], r - x0)
    {
      var len := if r - x > 127 then 127 else r - x;
      Regroup(w, [len + 128, comp[x0]], RunBytes(comp[x0], r - (x + len)));
      w, x := w + [len + 128, comp[x0]], x + len;
    }
  }

  lemma {:induction false} RunStopEqual(comp: seq<byte>, x: nat, b: byte)
    requires x <= |comp|
    ensures forall k :: x <= k < RunStop(comp, x, b) ==> comp[k] == b
    decreases |comp| - x
  {
    if x < |comp| && comp[x] == b {
      RunStopEqual(comp, x + 1, b);
    }
  }

  lemma {:induction false} RunsSpell(comp: seq<byte>, x: nat, r: nat, b: byte)
    requires x <= r <= |comp| && forall k :: x <= k < r ==> comp[k] == b
    ensures Spells(|comp|, comp[..x], RunBytes(b, r - x), comp[..r])
    decreases r - x
  {
    if x == r {
      SpellsNothing(|comp|, comp[..x]);
    } else {
      var len := if r - x > 127 then 127 else r - x;
      SpellsRun(|comp|, comp[..x], len, b);
      assert comp[..x] + Repeat(b, len) == comp[..x + len];
      RunsSpell(comp, x + len, r, b);
      SpellsConcat(|comp|, comp[..x], [len + 128, b], comp[..x + len], RunBytes(b, r - (x + len)), comp[..r]);
    }
  }

  lemma StretchSpells(comp: seq<byte>, x: nat)
    requires x < |comp|
    ensures Spells(|comp|, comp[..x], StretchBytes(comp, x), comp[..StretchEnd(comp, x)])
  {
    var r := FirstRun(comp, x);
    DumpsSpell(comp, x, r);
    if r == |comp| {
      assert DumpBytes(comp, x, r) + [] == DumpBytes(comp, x, r);
    } else {
      var stop := RunStop(comp, r, comp[r]);
      RunStopEqual(comp, r, comp[r]);
      RunsSpell(comp, r, stop, comp[r]);
      SpellsConcat(|comp|, comp[..x], DumpBytes(comp, x, r), comp[..r], RunBytes(comp[r], stop - r), comp[..stop]);
    }
  }

  /** Decoding the dumps and runs gives back the component. */
  lemma {:induction false} PlaneSpells(comp: seq<byte>, x: nat)
    requires x <= |comp|
    ensures Spells(|comp|, comp[..x], PlaneBytes(comp, x), comp[..|comp|])
    decreases |comp| - x
  {
    if x == |comp| {
      SpellsNothing(|comp|, comp[..x]);
    } else {
      var end := StretchEnd(comp, x);
      StretchSpells(comp, x);
      PlaneSpells(comp, end);
      SpellsConcat(|comp|, comp[..x], StretchBytes(comp, x), comp[..end], PlaneBytes(comp, end), comp[..|comp|]);
    }
  }

  /** Dumps up to a run of at least three, and the run. */
  method WriteStretch(comp: seq<byte>, x0: nat) returns (x: nat, w: seq<byte>)
    requires x0 < |comp|
    ensures x == StretchEnd(comp, x0) && w == StretchBytes(comp, x0)
  {
    x := x0;
    var r, found := FindRun(comp, x);
    w := WriteDumps(comp, x, r);
    x := r;
    if found {
      r := RunEnd(comp, x);
      var v := WriteRuns(comp, x, r);
      w, x := w + v, r;
    }
  }

  /** One component. */
  method WritePlane(comp: seq<byte>) returns (w: seq<byte>)
    ensures w == PlaneBytes(comp, 0) && Spells(|comp|, [], w, comp)
  {
    var x := 0;
    w := [];
    while x < |comp|
      invariant x <= |comp| && w + PlaneBytes(comp, x) == PlaneBytes(comp, 0)
      decreases |comp| - x
    {
      Regroup(w, StretchBytes(comp, x), PlaneBytes(comp, StretchEnd(comp, x)));
      var v;
      x, v := WriteStretch(comp, x);
      w := w + v;
    }
    PlaneSpells(comp, 0);
    assert comp[..|comp|] == comp && comp[..0] == [];
  }

  // --- A scanline ---

  ghost predicate SpellsPlanes(width: nat, w: seq<byte>, planes: seq<seq<byte>>)
  {
    forall s: seq<byte>, pos: nat :: Lies(s, pos, w) ==>
      DecodePlanes(s, pos, width, |planes|) == Some((planes, pos + |w|))
  }

  lemma PlaneBack(w: seq<byte>, plane: seq<byte>, s: seq<byte>, pos: nat)
    requires Spells(|plane|, [], w, plane) && Lies(s, pos, w)
    ensures DecodePlane(s, pos, |plane|, []) == Some((plane, pos + |w|))
  {
    assert SpelledAt(|plane|, [], w, plane, s, pos);
  }

  lemma PlaneAppended(width: nat, w: seq<byte>, planes: seq<seq<byte>>, v: seq<byte>, plane: seq<byte>)
    requires SpellsPlanes(width, w, planes) && |plane| == width && Spells(width, [], v, plane)
    ensures SpellsPlanes(width, w + v, planes + [plane])
  {
    forall s: seq<byte>, pos: nat | Lies(s, pos, w + v)
      ensures DecodePlanes(s, pos, width, |planes + [plane]|) == Some((planes + [plane], pos + |w + v|))
    {
      LiesSplit(s, pos, w, v);
      PlaneBack(v, plane, s, pos + |w|);
      assert |planes + [plane]| - 1 == |planes|;
    }
  }

  /** The components one after the other. */
  function PlanesBytes(planes: seq<seq<byte>>): seq<byte>
  {
    if planes == [] then [] else PlanesBytes(planes[..|planes| - 1]) + PlaneBytes(planes[|planes| - 1], 0)
  }

  /** The four header bytes and the components. */
  function ScanlineBytes(planes: seq<seq<byte>>, width: nat): seq<byte>
    requires width < 65536
  {
    [2, 2, width / 256, width % 256] + PlanesBytes(planes)
  }

  /** `stbiw__write_hdr_scanline` for widths that use run-length coding, on the four component planes. */
  method WriteScanline(planes: seq<seq<byte>>, width: nat) returns (w: seq<byte>)
    requires |planes| == 4 && 8 <= width < 32768 && forall c :: 0 <= c < 4 ==> |planes[c]| == width
    ensures forall s: seq<byte>, pos: nat :: Lies(s, pos, w) ==>
              DecodeScanline(s, pos, width) == Some((planes, pos + |w|))
    ensures w == ScanlineBytes(planes, width)
  {
    var body: seq<byte> := [];
    assert planes[..0] == [];
    for c := 0 to 4
      invariant SpellsPlanes(width, body, planes[..c]) && body == PlanesBytes(planes[..c])
    {
      var v := WritePlane(planes[c]);
      PlaneAppended(width, body, planes[..c], v, planes[c]);
      assert planes[..c] + [planes[c]] == planes[..c + 1] && planes[..c + 1][..c] == planes[..c];
      body := body + v;
    }
    assert planes[..4] == planes;
    w := [2, 2, width / 256, width % 256] + body;
    HeaderBack(planes, width, body);
  }

  lemma HeaderBack(planes: seq<seq<byte>>, width: nat, body: seq<byte>)
    requires |planes| == 4 && width < 65536 && SpellsPlanes(width, body, planes)
    ensures forall s: seq<byte>, pos: nat :: Lies(s, pos, [2, 2, width / 256, width % 256] + body) ==>
              DecodeScanline(s, pos, width) == Some((planes, pos + 4 + |body|))
  {
    var head: seq<byte> := [2, 2, width / 256, width % 256];
    forall s: seq<byte>, pos: nat | Lies(s, pos, head + body)
      ensures DecodeScanline(s, pos, width) == Some((planes, pos + 4 + |body|))
    {
      LiesSplit(s, pos, head, body);
      var t := s[pos..pos + 4];
      assert t == head && t[0] == s[pos] && t[1] == s[pos + 1] && t[2] == s[pos + 2] && t[3] == s[pos + 3];
    }
  }

  // --- Any width ---

  lemma FlatBack(planes: seq<seq<byte>>, width: nat, w: seq<byte>, s: seq<byte>, pos: nat)
    requires |planes| == 4 && (forall c :: 0 <= c < 4 ==> |planes[c]| == width) && |w| == 4 * width
    requires forall x, c {:trigger planes[c][x]} :: 0 <= x < width && 0 <= c < 4 ==> w[4 * x + c] == planes[c][x]
    requires Lies(s, pos, w)
    ensures seq(4, c requires 0 <= c < 4 => FlatPlane(s, pos, width, c)) == planes
  {
    forall c | 0 <= c < 4
      ensures FlatPlane(s, pos, width, c) == planes[c]
    {
      forall x | 0 <= x < width
        ensures FlatPlane(s, pos, width, c)[x] == planes[c][x]
      {
        assert s[pos..pos + |w|][4 * x + c] == w[4 * x + c];
      }
    }
  }

  method WriteFlat(planes: seq<seq<byte>>, width: nat) returns (w: seq<byte>)
    requires |planes| == 4 && forall c :: 0 <= c < 4 ==> |planes[c]| == width
    ensures |w| == 4 * width
    ensures forall x, c {:trigger planes[c][x]} :: 0 <= x < width && 0 <= c < 4 ==> w[4 * x + c] == planes[c][x]
  {
    w := [];
    for x := 0 to width
      invariant |w| == 4 * x
      invariant forall i, c {:trigger planes[c][i]} :: 0 <= i < x && 0 <= c < 4 ==> w[4 * i + c] == planes[c][i]
    {
      w := w + [planes[0][x], planes[1][x], planes[2][x], planes[3][x]];
    }
  }

  /** `stbiw__write_hdr_scanline`: decoding gives back every component, for every width. */
  method WriteRow(planes: seq<seq<byte>>, width: nat) returns (w: seq<byte>)
    requires |planes| == 4 && forall c :: 0 <= c < 4 ==> |planes[c]| == width
    ensures forall s: seq<byte>, pos: nat :: Lies(s, pos, w) ==> DecodeRow(s, pos, width) == Some((planes, pos + |w|))
    ensures 8 <= width < 32768 ==> w == ScanlineBytes(planes, width)
  {
    if width < 8 || width >= 32768 {
      w := WriteFlat(planes, width);
      forall s: seq<byte>, pos: nat | Lies(s, pos, w)
        ensures DecodeRow(s, pos, width) == Some((planes, pos + |w|))
      {
        FlatBack(planes, width, w, s, pos);
      }
    } else {
      w := WriteScanline(planes, width);
    }
  }
}
