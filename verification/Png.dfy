/** PNG scanline filtering: `stbiw__paeth`, `stbiw__encode_png_line` and the filter choice, proved against
    the reconstruction rules of section 6 of RFC 2083, and the IDAT payload behind them. */
module Png {
  import opened Wrappers
  import opened Bits
  import Inflate
  import Compressor
  import Tokens

  // --- Section 6: reconstruction ---

  /** Section 6.6. */
  function PaethPredictor(a: byte, b: byte, c: byte): byte
  {
    var p := a as int + b as int - c as int;
    var pa, pb, pc := Abs(p - a), Abs(p - b), Abs(p - c);
    if pa <= pb && pa <= pc then a else if pb <= pc then b else c
  }

  /** The predictor of each filter type: left, above and upper left, with zero for bytes outside the image. */
  function Predict(filter: nat, a: byte, b: byte, c: byte): byte
  {
    if filter == 1 then a
    else if filter == 2 then b
    else if filter == 3 then (a as int + b as int) / 2
    else if filter == 4 then PaethPredictor(a, b, c)
    else 0
  }

  /** The byte one pixel to the left. */
  function Left(row: seq<byte>, i: nat, n: nat): byte
  {
    if n <= i < |row| + n then row[i - n] else 0
  }

  function Above(prev: seq<byte>, i: nat): byte
  {
    if i < |prev| then prev[i] else 0
  }

  /** The first `k` bytes of a scanline rebuilt from its filtered form; `prev` is the scanline above, empty at
      the top. */
  function Unfilter(filter: nat, line: seq<byte>, prev: seq<byte>, n: nat, k: nat): (r: seq<byte>)
    requires k <= |line|
    ensures |r| == k
  {
    if k == 0 then []
    else
      var r := Unfilter(filter, line, prev, n, k - 1);
      r + [Sum(line[k - 1], PredictAt(filter, r, prev, n, k - 1))]
  }

  /** All scanlines of a filtered image with `len` bytes a row: a filter byte in front of each. */
  function UnfilterImage(filt: seq<byte>, len: nat, n: nat, rows: nat): Option<seq<seq<byte>>>
  {
    if rows == 0 then (if filt == [] then Some([]) else None)
    else if |filt| < len + 1 then None
    else
      var at := |filt| - (len + 1);
      var above := UnfilterImage(filt[..at], len, n, rows - 1);
      if above.None? || filt[at] > 4 then None
      else
        Some(above.value + [Unfilter(filt[at], filt[at + 1..], LastRow(above.value), n, len)])
  }

  function LastRow(rows: seq<seq<byte>>): seq<byte>
  {
    if rows == [] then [] else rows[|rows| - 1]
  }

  // --- Filtering ---

  function Diff(z: byte, p: byte): byte
  {
    (z as int - p as int) % 256
  }

  function Sum(d: byte, p: byte): byte
  {
    (d as int + p as int) % 256
  }

  lemma SumDiff(z: byte, p: byte)
    ensures Sum(Diff(z, p), p) == z
  {
  }

  /** The prediction for byte `i` of a row. */
  function PredictAt(filter: nat, row: seq<byte>, prev: seq<byte>, n: nat, i: nat): byte
  {
    Predict(filter, Left(row, i, n), Above(prev, i), Left(prev, i, n))
  }

  /** `filter` applied to the scanline `z` below `prev`. */
  ghost predicate Filtered(filter: nat, z: seq<byte>, prev: seq<byte>, n: nat, line: seq<byte>)
  {
    |line| == |z| && forall i :: 0 <= i < |z| ==> line[i] == Diff(z[i], PredictAt(filter, z, prev, n, i))
  }

  /** A byte is recovered from its difference and the bytes before it. */
  lemma FilterStep(filter: nat, z: seq<byte>, prev: seq<byte>, n: nat, k: nat)
    requires k < |z| && n >= 1
    ensures Sum(Diff(z[k], PredictAt(filter, z, prev, n, k)), PredictAt(filter, z[..k], prev, n, k)) == z[k]
  {
    assert Left(z[..k], k, n) == Left(z, k, n);
    SumDiff(z[k], PredictAt(filter, z, prev, n, k));
  }

  lemma UnfilterNext(filter: nat, line: seq<byte>, prev: seq<byte>, n: nat, k: nat)
    requires k < |line|
    ensures var r := Unfilter(filter, line, prev, n, k);
            Unfilter(filter, line, prev, n, k + 1) == r + [Sum(line[k], PredictAt(filter, r, prev, n, k))]
  {
  }

  lemma {:induction false} FilterRoundTrip(filter: nat, z: seq<byte>, prev: seq<byte>, n: nat, line: seq<byte>, k: nat)
    requires Filtered(filter, z, prev, n, line) && k <= |z| && n >= 1
    ensures Unfilter(filter, line, prev, n, k) == z[..k]
  {
    if k > 0 {
      FilterRoundTrip(filter, z, prev, n, line, k - 1);
      UnfilterNext(filter, line, prev, n, k - 1);
      FilterStep(filter, z, prev, n, k - 1);
      assert z[..k] == z[..k - 1] + [z[k - 1]];
    }
  }

  /** `stbiw__paeth`. */
  function Paeth(a: byte, b: byte, c: byte): (r: byte)
    ensures r == PaethPredictor(a, b, c)
  {
    var p := a as int + b as int - c as int;
    if Abs(p - a) <= Abs(p - b) && Abs(p - a) <= Abs(p - c) then a
    else if Abs(p - b) <= Abs(p - c) then b
    else c
  }

  /** The internal type of a filter: on the first row, types that look at the row above are replaced. */
  function LineType(filter: nat, y: nat): nat
    requires filter < 5
  {
    if y != 0 then [0, 1, 2, 3, 4][filter] else [0, 1, 0, 5, 6][filter]
  }

  /** What is subtracted in the first pixel. */
  function FirstPredictor(ty: nat, b: byte): byte
  {
    match ty
    case 2 => b
    case 3 => b / 2
    case 4 => Paeth(0, b, 0)
    case _ => 0
  }

  /** What is subtracted in the other pixels. */
  function RestPredictor(ty: nat, a: byte, b: byte, c: byte): byte
  {
    match ty
    case 1 => a
    case 2 => b
    case 3 => (a as int + b as int) / 2
    case 4 => Paeth(a, b, c)
    case 5 => a / 2
    case 6 => Paeth(a, 0, 0)
    case _ => 0
  }

  /** Row `j` of the image lies at `base + stride * j` in memory; the stride may be negative. */
  datatype Image = Image(memory: seq<byte>, base: int, stride: int, len: nat, height: nat)

  /** Where row `y` of the output starts in memory. */
  function RowStart(img: Image, y: nat, flip: bool): int
    requires y < img.height
  {
    img.base + img.stride * (if flip then img.height - 1 - y else y)
  }

  ghost predicate ImageOk(img: Image)
  {
    forall j {:trigger img.stride * j} :: 0 <= j < img.height ==>
      0 <= img.base + img.stride * j && img.base + img.stride * j + img.len <= |img.memory|
  }

  /** Row `y` of the image, in output order. */
  ghost function Row(img: Image, flip: bool, y: nat): (r: seq<byte>)
    requires ImageOk(img) && y < img.height
    ensures |r| == img.len
  {
    var start := RowStart(img, y, flip);
    img.memory[start..start + img.len]
  }

  /** The row above, empty for the first. */
  ghost function PrevRow(img: Image, flip: bool, y: nat): seq<byte>
    requires ImageOk(img) && y < img.height
  {
    if y == 0 then [] else Row(img, flip, y - 1)
  }

  /** The row above sits one signed stride back in memory. */
  lemma SignedStride(img: Image, y: nat, flip: bool)
    requires 0 < y < img.height
    ensures RowStart(img, y, flip) - (if flip then -img.stride else img.stride) ==
            RowStart(img, y - 1, flip)
  {
    if flip {
      var k := img.height - 1 - y;
      assert img.stride * (k + 1) == img.stride * k + img.stride;
    } else {
      assert img.stride * y == img.stride * (y - 1) + img.stride;
    }
  }

  /** With zero in place of missing neighbours, the remapped types subtract what the filter predicts. */
  lemma SamePredictor(filter: nat, y: nat, first: bool, a: byte, b: byte, c: byte)
    requires filter < 5
    requires y == 0 ==> b == 0 && c == 0
    requires first ==> a == 0 && c == 0
    ensures (if first then FirstPredictor(LineType(filter, y), b) else RestPredictor(LineType(filter, y), a, b, c)) ==
            Predict(filter, a, b, c)
  {
  }

  ghost predicate LineDone(filter: nat, row: seq<byte>, prev: seq<byte>, n: nat, line: array<byte>, k: nat)
    reads line
  {
    && line.Length == |row| && k <= |row|
    && forall i :: 0 <= i < k ==>
         line[i] == Diff(row[i], PredictAt(filter, row, prev, n, i))
  }

  /** `stbiw__encode_png_line` on the row at `z` and the row one signed stride back:
      the first pixel, then the rest of the row. */
  method EncodeLine(row: seq<byte>, prev: seq<byte>, y: nat, n: nat, filter: nat, line: array<byte>)
    requires 1 <= n <= |row| == line.Length && filter < 5
    requires if y == 0 then prev == [] else |prev| == |row|
    modifies line
    ensures Filtered(filter, row, prev, n, line[..])
  {
    var ty := LineType(filter, y);
    for i := 0 to n
      invariant LineDone(filter, row, prev, n, line, i)
    {
      SamePredictor(filter, y, true, 0, Above(prev, i), 0);
      line[i] := Diff(row[i], FirstPredictor(ty, Above(prev, i)));
    }
    for i := n to |row|
      invariant LineDone(filter, row, prev, n, line, i)
    {
      SamePredictor(filter, y, false, row[i - n], Above(prev, i), Left(prev, i, n));
      line[i] := Diff(row[i], RestPredictor(ty, row[i - n], Above(prev, i), Left(prev, i, n)));
    }
  }

  /** Row `y` and the row above it, picked out of memory. */
  method FetchRows(img: Image, y: nat, flip: bool)
    returns (row: seq<byte>, prev: seq<byte>)
    requires y < img.height && ImageOk(img)
    ensures row == Row(img, flip, y) && prev == PrevRow(img, flip, y)
  {
    var z := RowStart(img, y, flip);
    var signed := if flip then -img.stride else img.stride;
    row := img.memory[z..z + img.len];
    prev := [];
    if y > 0 {
      SignedStride(img, y, flip);
      prev := img.memory[z - signed..z - signed + img.len];
    }
  }

  /** The sum of magnitudes that estimates how well a filtered line will compress. */
  method Estimate(line: array<byte>) returns (est: nat)
    ensures est == Cost(line[..])
  {
    est := 0;
    for i := 0 to line.Length
      invariant est == Cost(line[..i])
    {
      assert line[..i + 1] == line[..i] + [line[i]];
      est := est + Abs(Signed(line[i]));
    }
    assert line[..line.Length] == line[..];
  }

  /** A byte read as `signed char`. */
  function Signed(b: byte): int
  {
    if b < 128 then b else b as int - 256
  }

  function Cost(line: seq<byte>): nat
  {
    if line == [] then 0 else Cost(line[..|line| - 1]) + Abs(Signed(line[|line| - 1]))
  }

  /** The line that `filter` makes of a row. */
  ghost function FilterLine(filter: nat, row: seq<byte>, prev: seq<byte>, n: nat): (line: seq<byte>)
    ensures Filtered(filter, row, prev, n, line)
  {
    seq(|row|, i requires 0 <= i < |row| => Diff(row[i], PredictAt(filter, row, prev, n, i)))
  }

  lemma FilteredIsUnique(filter: nat, row: seq<byte>, prev: seq<byte>, n: nat, line: seq<byte>)
    requires Filtered(filter, row, prev, n, line)
    ensures line == FilterLine(filter, row, prev, n)
  {
  }

  ghost function CostOf(filter: nat, row: seq<byte>, prev: seq<byte>, n: nat): nat
  {
    Cost(FilterLine(filter, row, prev, n))
  }

  /** `best` is the first filter below `k` whose cost `bestVal` is smallest, or 0 when no cost is below the bound. */
  ghost predicate BestBelow(cost: int -> int, k: int, best: int, bestVal: int)
  {
    && (if bestVal < 0x7fffffff then bestVal == cost(best) && 0 <= best < k else bestVal == 0x7fffffff && best == 0)
    && (forall f :: 0 <= f < k ==> bestVal <= cost(f))
    && (forall f :: 0 <= f < best ==> bestVal < cost(f))
  }

  lemma BestStep(cost: int -> int, k: nat, best: int, bestVal: int, est: int)
    requires BestBelow(cost, k, best, bestVal) && est == cost(k)
    ensures BestBelow(cost, k + 1, if est < bestVal then k else best, if est < bestVal then est else bestVal)
  {
  }

  ghost function Costs(row: seq<byte>, prev: seq<byte>, n: nat): int -> int
  {
    f => if f >= 0 then CostOf(f, row, prev, n) else 0
  }

  method TryFilter(row: seq<byte>, prev: seq<byte>, y: nat, n: nat, f: nat, buffer: array<byte>) returns (est: nat)
    requires 1 <= n <= |row| == buffer.Length && f < 5 && if y == 0 then prev == [] else |prev| == |row|
    modifies buffer
    ensures est == Costs(row, prev, n)(f)
  {
    EncodeLine(row, prev, y, n, f, buffer);
    FilteredIsUnique(f, row, prev, n, buffer[..]);
    est := Estimate(buffer);
  }

  /** The filter with the smallest estimate. */
  method BestFilter(row: seq<byte>, prev: seq<byte>, y: nat, n: nat, buffer: array<byte>)
    returns (best: nat, ghost bestVal: int)
    requires 1 <= n <= |row| == buffer.Length && if y == 0 then prev == [] else |prev| == |row|
    modifies buffer
    ensures best < 5 && BestBelow(Costs(row, prev, n), 5, best, bestVal)
  {
    var val := 0x7fffffff;
    best := 0;
    ghost var cost := Costs(row, prev, n);
    for f := 0 to 5
      invariant best < 5 && BestBelow(cost, f, best, val)
    {
      var est := TryFilter(row, prev, y, n, f, buffer);
      BestStep(cost, f, best, val, est);
      if est < val {
        best, val := f, est;
      }
    }
    bestVal := val;
  }

  /** The forced filter, or the first one with the smallest cost. */
  ghost predicate FilterRight(row: seq<byte>, prev: seq<byte>, n: nat, force: int, filter: nat)
  {
    if force > -1 then filter == force else exists v :: BestBelow(Costs(row, prev, n), 5, filter, v)
  }

  /** One row of the image: the forced filter, or the one with the smallest estimate. */
  method FilterRow(row: seq<byte>, prev: seq<byte>, y: nat, n: nat, force: int) returns (filter: nat, line: seq<byte>)
    requires 1 <= n <= |row| && force < 5
    requires if y == 0 then prev == [] else |prev| == |row|
    ensures filter < 5 && Filtered(filter, row, prev, n, line) && FilterRight(row, prev, n, force, filter)
  {
    var buffer := new byte[|row|](_ => 0);
    if force > -1 {
      filter := force;
    } else {
      ghost var v;
      filter, v := BestFilter(row, prev, y, n, buffer);
    }
    EncodeLine(row, prev, y, n, filter, buffer);
    line := buffer[..];
  }

  ghost function Rows(img: Image, flip: bool, k: nat): (r: seq<seq<byte>>)
    requires ImageOk(img) && k <= img.height
    ensures |r| == k && forall j :: 0 <= j < k ==> r[j] == Row(img, flip, j)
  {
    if k == 0 then []
    else Rows(img, flip, k - 1) + [Row(img, flip, k - 1)]
  }

  lemma SplitLast(filt: seq<byte>, filter: byte, line: seq<byte>)
    ensures var all := filt + ([filter] + line);
            all[..|filt|] == filt && all[|filt|] == filter && all[|filt| + 1..] == line
  {
  }

  lemma UnfilterMore(filt: seq<byte>, rows: seq<seq<byte>>, len: nat, n: nat, filter: byte, line: seq<byte>,
                     row: seq<byte>)
    requires UnfilterImage(filt, len, n, |rows|) == Some(rows) && filter < 5 && n >= 1 && |row| == len
    requires Filtered(filter, row, LastRow(rows), n, line)
    ensures UnfilterImage(filt + ([filter] + line), len, n, |rows| + 1) == Some(rows + [row])
  {
    var all := filt + ([filter] + line);
    SplitLast(filt, filter, line);
    assert |line| == len;
    UnfilterUnfold(all, |filt|, len, n, rows);
    RowBack(filter, row, LastRow(rows), n, line);
  }

  lemma UnfilterUnfold(all: seq<byte>, at: nat, len: nat, n: nat, rows: seq<seq<byte>>)
    requires |all| == at + len + 1 && UnfilterImage(all[..at], len, n, |rows|) == Some(rows) && all[at] <= 4
    ensures UnfilterImage(all, len, n, |rows| + 1) ==
            Some(rows + [Unfilter(all[at], all[at + 1..], LastRow(rows), n, len)])
  {
  }

  lemma RowBack(filter: nat, row: seq<byte>, prev: seq<byte>, n: nat, line: seq<byte>)
    requires Filtered(filter, row, prev, n, line) && n >= 1
    ensures Unfilter(filter, line, prev, n, |row|) == row
  {
    FilterRoundTrip(filter, row, prev, n, line, |row|);
    assert row[..|row|] == row;
  }

  lemma RowsStep(img: Image, flip: bool, j: nat)
    requires ImageOk(img) && j < img.height
    ensures var rows := Rows(img, flip, j);
            && LastRow(rows) == PrevRow(img, flip, j)
            && Rows(img, flip, j + 1) == rows + [Row(img, flip, j)]
  {
  }

  lemma RowAppended(img: Image, n: nat, flip: bool, j: nat,
                    filt: seq<byte>, filter: byte, line: seq<byte>)
    requires n >= 1 && ImageOk(img) && j < img.height && filter < 5
    requires UnfilterImage(filt, img.len, n, j) == Some(Rows(img, flip, j))
    requires Filtered(filter, Row(img, flip, j), PrevRow(img, flip, j), n, line)
    ensures UnfilterImage(filt + ([filter] + line), img.len, n, j + 1) == Some(Rows(img, flip, j + 1))
  {
    var rows := Rows(img, flip, j);
    RowsStep(img, flip, j);
    UnfilterMore(filt, rows, img.len, n, filter, line, Row(img, flip, j));
  }

  /** Which filters are right for which row. */
  type Choice = (nat, nat) -> bool

  ghost function Choices(img: Image, n: nat, flip: bool, force: int): Choice
    requires ImageOk(img)
  {
    (j: nat, filter: nat) =>
      j < img.height && FilterRight(Row(img, flip, j), PrevRow(img, flip, j), n, force, filter)
  }

  /** Each filter byte of the first `k` rows is a right one. */
  ghost predicate FiltersRight(right: Choice, len: nat, filt: seq<byte>, k: nat)
    decreases k
  {
    if k == 0 then filt == []
    else
      && |filt| >= len + 1
      && var at := |filt| - (len + 1);
         FiltersRight(right, len, filt[..at], k - 1) && right(k - 1, filt[at])
  }

  lemma FiltersMore(right: Choice, len: nat, filt: seq<byte>, k: nat, filter: byte, line: seq<byte>)
    requires FiltersRight(right, len, filt, k) && |line| == len && right(k, filter)
    ensures FiltersRight(right, len, filt + ([filter] + line), k + 1)
  {
    SplitLast(filt, filter, line);
  }

  /** `filt` is the filtered form of the rows: reconstruction yields them, and each filter byte is a right one. */
  ghost predicate FilteredForm(rows: seq<seq<byte>>, len: nat, n: nat, right: Choice, filt: seq<byte>)
  {
    UnfilterImage(filt, len, n, |rows|) == Some(rows) && FiltersRight(right, len, filt, |rows|)
  }

  ghost predicate FilteredTo(img: Image, n: nat, flip: bool, force: int, filt: seq<byte>, k: nat)
    requires ImageOk(img) && k <= img.height
  {
    FilteredForm(Rows(img, flip, k), img.len, n, Choices(img, n, flip, force), filt)
  }

  lemma FilteredMore(img: Image, n: nat, flip: bool, force: int, filt: seq<byte>, k: nat, filter: byte, line: seq<byte>)
    requires n >= 1 && ImageOk(img) && k < img.height && filter < 5 && FilteredTo(img, n, flip, force, filt, k)
    requires Filtered(filter, Row(img, flip, k), PrevRow(img, flip, k), n, line)
    requires FilterRight(Row(img, flip, k), PrevRow(img, flip, k), n, force, filter)
    ensures FilteredTo(img, n, flip, force, filt + ([filter] + line), k + 1)
  {
    RowAppended(img, n, flip, k, filt, filter, line);
    FiltersMore(Choices(img, n, flip, force), img.len, filt, k, filter, line);
  }

  /** One more row behind its filter byte. */
  method AppendRow(img: Image, n: nat, flip: bool, force: int, j: nat, filt0: seq<byte>) returns (filt: seq<byte>)
    requires 1 <= n <= img.len && ImageOk(img) && force < 5 && j < img.height
    requires FilteredTo(img, n, flip, force, filt0, j)
    ensures FilteredTo(img, n, flip, force, filt, j + 1)
  {
    var row, prev := FetchRows(img, j, flip);
    var filter, line := FilterRow(row, prev, j, n, force);
    FilteredMore(img, n, flip, force, filt0, j, filter, line);
    filt := filt0 + ([filter] + line);
  }

  /** All rows, for every stride, flip setting and filter choice. */
  method FilterImage(img: Image, n: nat, flip: bool, force: int) returns (filt: seq<byte>)
    requires 1 <= n <= img.len && ImageOk(img) && force < 5
    ensures FilteredTo(img, n, flip, force, filt, img.height)
  {
    filt := [];
    for j := 0 to img.height
      invariant FilteredTo(img, n, flip, force, filt, j)
    {
      filt := AppendRow(img, n, flip, force, j, filt);
    }
  }

  // --- There is one filtered form ---

  ghost predicate OneRight(right: Choice)
  {
    forall j: nat, f: nat, g: nat :: right(j, f) && right(j, g) ==> f == g
  }

  lemma FilterUnique(img: Image, n: nat, flip: bool, force: int)
    requires ImageOk(img)
    ensures OneRight(Choices(img, n, flip, force))
  {
  }

  lemma {:induction false} LineUnique(filter: nat, line: seq<byte>, line': seq<byte>, prev: seq<byte>, n: nat, k: nat)
    requires k <= |line| == |line'| && Unfilter(filter, line, prev, n, k) == Unfilter(filter, line', prev, n, k)
    ensures line[..k] == line'[..k]
  {
    if k > 0 {
      var r, r' := Unfilter(filter, line, prev, n, k - 1), Unfilter(filter, line', prev, n, k - 1);
      assert Unfilter(filter, line, prev, n, k)[..k - 1] == r && Unfilter(filter, line', prev, n, k)[..k - 1] == r';
      LineUnique(filter, line, line', prev, n, k - 1);
      SumUnique(line[k - 1], line'[k - 1], PredictAt(filter, r, prev, n, k - 1));
      assert line[..k] == line[..k - 1] + [line[k - 1]] && line'[..k] == line'[..k - 1] + [line'[k - 1]];
    }
  }

  lemma SumUnique(d: byte, e: byte, p: byte)
    ensures Sum(d, p) == Sum(e, p) ==> d == e
  {
  }

  lemma LastEqual<T>(a: seq<T>, x: T, b: seq<T>, y: T)
    requires a + [x] == b + [y]
    ensures a == b && x == y
  {
    assert |a + [x]| == |b + [y]|;
    assert (a + [x])[|a|] == x && (b + [y])[|b|] == y;
    assert a == (a + [x])[..|a|] == (b + [y])[..|b|] == b;
  }

  /** The last row of a filtered form and what is before it. */
  lemma FilteredLast(rows: seq<seq<byte>>, row: seq<byte>, len: nat, n: nat, right: Choice, filt: seq<byte>)
    returns (front: seq<byte>, filter: byte, line: seq<byte>)
    requires FilteredForm(rows + [row], len, n, right, filt)
    ensures filt == front + [filter] + line && |line| == len && FilteredForm(rows, len, n, right, front)
    ensures right(|rows|, filter) && Unfilter(filter, line, LastRow(rows), n, len) == row
  {
    var at := |filt| - (len + 1);
    front, filter, line := filt[..at], filt[at], filt[at + 1..];
    assert |rows + [row]| - 1 == |rows|;
    var above := UnfilterImage(front, len, n, |rows|).value;
    LastEqual(above, Unfilter(filter, line, LastRow(above), n, len), rows, row);
  }

  /** The rows and the choice of filters fix every byte of the filtered form. */
  lemma {:induction false} FormUnique(rows: seq<seq<byte>>, len: nat, n: nat, right: Choice, s: seq<byte>, t: seq<byte>)
    requires OneRight(right) && FilteredForm(rows, len, n, right, s) && FilteredForm(rows, len, n, right, t)
    ensures s == t
    decreases |rows|
  {
    if rows != [] {
      var above, row := rows[..|rows| - 1], rows[|rows| - 1];
      assert rows == above + [row];
      var a, f, line := FilteredLast(above, row, len, n, right, s);
      var b, g, line' := FilteredLast(above, row, len, n, right, t);
      FormUnique(above, len, n, right, a, b);
      LineUnique(f, line, line', LastRow(above), n, len);
      assert line[..len] == line && line'[..len] == line';
    }
  }

  /** So do the image and the settings. */
  lemma FilteredUnique(img: Image, n: nat, flip: bool, force: int, s: seq<byte>, t: seq<byte>)
    requires ImageOk(img)
    requires FilteredTo(img, n, flip, force, s, img.height) && FilteredTo(img, n, flip, force, t, img.height)
    ensures s == t
  {
    FilterUnique(img, n, flip, force);
    FormUnique(Rows(img, flip, img.height), img.len, n, Choices(img, n, flip, force), s, t);
  }

  /** `x` pixels of `n` bytes a row; a stride of zero stands for rows without a gap. */
  function ImageAt(memory: seq<byte>, base: int, stride: int, x: nat, y: nat, n: nat): Image
  {
    Image(memory, base, if stride == 0 then x * n else stride, x * n, y)
  }

  /** A filter type above 4 stands for the best one. */
  function Force(force: int): (r: int)
    ensures r < 5
  {
    if force >= 5 then -1 else force
  }

  /** The IDAT payload of `stbi_write_png_to_mem`: inflating it yields the filtered image. */
  method WriteImageData(
    memory: seq<byte>, base: int, stride: int, x: nat, y: nat, n: nat, flip: bool, force0: int, level: int)
    returns (zlib: seq<byte>, ghost tokens: seq<Tokens.Token>)
    requires x >= 1 && n >= 1 && ImageOk(ImageAt(memory, base, stride, x, y, n))
    ensures var filt := Inflate.ZlibDecode(zlib);
            && filt.Some?
            && FilteredTo(ImageAt(memory, base, stride, x, y, n), n, flip, Force(force0), filt.value, y)
            && Compressor.Holds(zlib, filt.value, if level < 5 then 5 else level, tokens)
  {
    var force := Force(force0);
    assert x * n >= n by {
      assert x * n == n + (x - 1) * n;
    }
    var filt := FilterImage(ImageAt(memory, base, stride, x, y, n), n, flip, force);
    zlib, tokens := Compressor.Compress(filt, level);
  }
}
