/** The two vertical passes of the image resizer over the ring buffer. */
module Resample {
  import opened SampleRange
  import opened RingBuffer

  /** What the passes do with rows: decode input row `k` (already resampled horizontally), blend a window into
      output row `y`, and add the contribution of input row `y` to the sum for output row `k`. `used` is the
      range of contributors that have weight. */
  datatype Kernel = Kernel(
    zero: Row,
    decode: int -> Row,
    blend: (int, seq<Row>) -> Row,
    add: (Row, int, int) -> Row,
    used: int -> (int, int))

  // --- Upsampling ---

  /** The decoded rows `a` to `b`. */
  function Decoded(kern: Kernel, a: int, b: int): (r: seq<Row>)
    ensures |r| == if a <= b then b - a + 1 else 0
    ensures forall i :: 0 <= i < |r| ==> r[i] == kern.decode(a + i)
    decreases b - a
  {
    if a > b then [] else Decoded(kern, a, b - 1) + [kern.decode(b)]
  }

  ghost predicate Cached(kern: Kernel, held: map<int, Row>)
  {
    forall k :: k in held ==> held[k] == kern.decode(k)
  }

  /** Drops what is before `lo`. */
  method DropBefore(ring: Ring, lo: int)
    requires ring.Valid()
    modifies ring
    ensures ring.Valid()
    ensures old(ring.begin) < 0 || lo > old(ring.last) ==> ring.begin < 0
    ensures old(ring.begin) >= 0 && lo <= old(ring.last) ==>
              && ring.begin >= 0 && ring.last == old(ring.last)
              && ring.first == if lo > old(ring.first) then lo else old(ring.first)
    ensures forall k :: k in ring.held ==> k in old(ring.held) && ring.held[k] == old(ring.held)[k]
  {
    if ring.begin >= 0 {
      while ring.begin >= 0 && lo > ring.first
        invariant ring.Valid()
        invariant ring.begin < 0 ==> lo > old(ring.last)
        invariant ring.begin >= 0 ==> ring.last == old(ring.last) && ring.first >= old(ring.first)
        invariant ring.begin >= 0 ==> ring.first == old(ring.first) || ring.first <= lo
        invariant forall k :: k in ring.held ==> k in old(ring.held) && ring.held[k] == old(ring.held)[k]
        decreases if ring.begin >= 0 then ring.last - ring.first + 1 else 0
      {
        ring.Pop();
      }
    }
  }

  /** Moves the window to `lo`..`hi`, decoding only rows that were not in it. */
  method MoveWindow(ring: Ring, kern: Kernel, lo: int, hi: int)
    requires ring.Valid() && Cached(kern, ring.held) && lo <= hi && hi - lo < ring.rows.Length
    requires ring.begin >= 0 ==> ring.first <= lo && ring.last <= hi
    modifies ring, ring.rows
    ensures ring.Valid() && Cached(kern, ring.held)
    ensures ring.begin >= 0 && ring.first == lo && ring.last == hi
  {
    DropBefore(ring, lo);
    if ring.begin < 0 {
      ring.Add(lo, kern.decode(lo));
    }
    while hi > ring.last
      invariant ring.Valid() && Cached(kern, ring.held)
      invariant ring.begin >= 0 && ring.first == lo && ring.last <= hi
      decreases hi - ring.last
    {
      ring.Add(ring.last + 1, kern.decode(ring.last + 1));
    }
  }

  /** The rows that output row `y` is blended from, read out of the buffer. */
  method Gather(ring: Ring, kern: Kernel, a: int, b: int) returns (rows: seq<Row>)
    requires ring.Valid() && Cached(kern, ring.held)
             && (a <= b ==> ring.begin >= 0 && ring.first <= a && b <= ring.last)
    ensures rows == Decoded(kern, a, b)
  {
    rows := [];
    var k := a;
    while k <= b
      invariant a <= b ==> a <= k <= b + 1
      invariant rows == Decoded(kern, a, k - 1) || a > b
      invariant a > b ==> rows == [] && k == a
    {
      rows := rows + [ring.Get(k)];
      k := k + 1;
    }
  }

  /** Contributors lie in the window. */
  ghost predicate UsedUp(g: Geometry, kern: Kernel, h: nat)
    requires g.scale > 0.0
  {
    forall y :: 0 <= y < h ==> UpFirst(g, y) <= kern.used(y).0 && kern.used(y).1 <= UpLast(g, y)
  }

  /** `stbir__buffer_loop_upsample`: every output row is blended from freshly decoded input rows. */
  method Upsample(g: Geometry, h: nat, kern: Kernel) returns (out: seq<Row>)
    requires g.scale > 0.0 && g.support >= 0.5 && UsedUp(g, kern, h)
    ensures |out| == h
    ensures forall y :: 0 <= y < h ==> out[y] == kern.blend(y, Decoded(kern, kern.used(y).0, kern.used(y).1))
  {
    UpWidth(g, 0);
    var ring := new Ring(UpEntries(g), kern.zero);
    out := [];
    for y := 0 to h
      invariant ring.Valid() && Cached(kern, ring.held) && ring.rows.Length == UpEntries(g)
      invariant fresh(ring) && fresh(ring.rows)
      invariant ring.begin >= 0 ==> y > 0 && ring.first == UpFirst(g, y - 1) && ring.last == UpLast(g, y - 1)
      invariant |out| == y
      invariant forall i :: 0 <= i < y ==> out[i] == kern.blend(i, Decoded(kern, kern.used(i).0, kern.used(i).1))
    {
      UpWidth(g, y);
      UpMonotone(g, y - 1, y);
      MoveWindow(ring, kern, UpFirst(g, y), UpLast(g, y));
      var rows := Gather(ring, kern, kern.used(y).0, kern.used(y).1);
      out := out + [kern.blend(y, rows)];
    }
  }

  // --- Downsampling ---

  /** The sum for output row `k` over the input rows from `y0` up to but not including `y`. */
  ghost function Partial(kern: Kernel, k: int, y0: int, y: int): Row
    decreases y - y0
  {
    if y <= y0 then kern.zero
    else if kern.used(y - 1).0 <= k <= kern.used(y - 1).1 then kern.add(Partial(kern, k, y0, y - 1), y - 1, k)
    else Partial(kern, k, y0, y - 1)
  }

  /** The output rows that an input row influences, from `first(y)` to `last(y)`. */
  datatype Ranges = Ranges(first: int -> int, last: int -> int)

  function DownRanges(g: Geometry): Ranges
  {
    Ranges(y => if g.scale > 0.0 then DownFirst(g, y) else 0, y => if g.scale > 0.0 then DownLast(g, y) else 0)
  }

  /** Ranges move forward, leave no gap and fit the ring buffer. */
  ghost predicate Sweeping(r: Ranges, entries: int)
  {
    forall y :: SweepAt(r, entries, y)
  }

  ghost predicate SweepAt(r: Ranges, entries: int, y: int)
  {
    && r.first(y) <= r.last(y) && r.last(y) - r.first(y) + 1 < entries
    && r.first(y) <= r.first(y + 1) <= r.last(y) + 1 && r.last(y) <= r.last(y + 1)
  }

  lemma DownSweeps(g: Geometry)
    requires 0.0 < g.scale <= 1.0 && g.support >= 0.5
    ensures Sweeping(DownRanges(g), DownEntries(g))
  {
    forall y
      ensures SweepAt(DownRanges(g), DownEntries(g), y)
    {
      DownFits(g, y);
      DownMonotone(g, y, y + 1);
      DownContiguous(g, y);
    }
  }

  /** Contributors lie in the range of the input row and in the output. */
  ghost predicate UsedDown(r: Ranges, kern: Kernel, h: nat)
  {
    forall y :: UsedAt(r, kern, h, y)
  }

  ghost predicate UsedAt(r: Ranges, kern: Kernel, h: nat, y: int)
  {
    kern.used(y).0 <= kern.used(y).1 ==>
      && r.first(y) <= kern.used(y).0 && kern.used(y).1 <= r.last(y)
      && 0 <= kern.used(y).0 && kern.used(y).1 < h
  }

  /** Rows outside the image and above `top` have no contribution yet. */
  ghost predicate NoneAbove(kern: Kernel, top: int, y0: int, y: int)
  {
    forall k :: k < 0 || k > top ==> Partial(kern, k, y0, y) == kern.zero
  }

  lemma NothingAdded(kern: Kernel, y0: int)
    ensures NoneAbove(kern, -1, y0, y0)
  {
  }

  lemma OneMore(r: Ranges, kern: Kernel, h: nat, top: int, y0: int, y: int)
    requires UsedDown(r, kern, h) && y0 <= y && NoneAbove(kern, top, y0, y)
             && (top >= r.last(y) || (top == -1 && r.last(y) < 0))
    ensures NoneAbove(kern, top, y0, y + 1)
  {
    assert UsedAt(r, kern, h, y);
    var next := y + 1;
    forall k | k < 0 || k > top
      ensures Partial(kern, k, y0, next) == kern.zero
    {
      assert Partial(kern, k, y0, next) == Partial(kern, k, y0, y);
    }
  }

  ghost predicate Sums(kern: Kernel, held: map<int, Row>, y0: int, y: int)
  {
    forall k :: k in held ==> held[k] == Partial(kern, k, y0, y)
  }

  /** Rows 0 to `c` - 1 have been encoded, in order, each with its sum. */
  ghost predicate Encoded(kern: Kernel, out: seq<(int, Row)>, c: int, y0: int, y: int)
  {
    |out| == c && forall i :: 0 <= i < |out| ==> out[i] == (i, Partial(kern, i, y0, y))
  }

  function Clamp(x: int, h: nat): (r: int)
    ensures 0 <= r <= h
  {
    if x < 0 then 0 else if x > h then h else x
  }

  /** `stbir__empty_ring_buffer`: rows before `n` leave the buffer, and those in the image are encoded. */
  method Flush(ring: Ring, kern: Kernel, n: int, h: nat, out: seq<(int, Row)>, ghost y0: int, ghost y: int)
    returns (out': seq<(int, Row)>)
    requires ring.Valid() && Sums(kern, ring.held, y0, y)
    requires ring.begin >= 0 ==> Encoded(kern, out, Clamp(ring.first, h), y0, y)
    modifies ring
    ensures ring.Valid() && Sums(kern, ring.held, y0, y)
    ensures old(ring.begin) < 0 ==> ring.begin < 0 && out' == out
    ensures old(ring.begin) >= 0 && n > old(ring.last) ==>
              ring.begin < 0 && Encoded(kern, out', Clamp(old(ring.last) + 1, h), y0, y)
    ensures old(ring.begin) >= 0 && n <= old(ring.last) ==>
              && ring.begin >= 0 && ring.last == old(ring.last)
              && ring.first == (if n > old(ring.first) then n else old(ring.first))
              && Encoded(kern, out', Clamp(ring.first, h), y0, y)
  {
    out' := out;
    while ring.begin >= 0 && n > ring.first
      invariant ring.Valid() && Sums(kern, ring.held, y0, y)
      invariant old(ring.begin) < 0 ==> ring.begin < 0 && out' == out
      invariant old(ring.begin) >= 0 && ring.begin < 0 ==>
                  n > old(ring.last) && Encoded(kern, out', Clamp(old(ring.last) + 1, h), y0, y)
      invariant ring.begin >= 0 ==>
                  && ring.last == old(ring.last) && old(ring.first) <= ring.first
                  && (ring.first == old(ring.first) || ring.first <= n)
                  && Encoded(kern, out', Clamp(ring.first, h), y0, y)
      decreases if ring.begin >= 0 then ring.last - ring.first + 1 else 0
    {
      if 0 <= ring.first < h {
        out' := out' + [(ring.first, ring.Get(ring.first))];
      }
      ring.Pop();
    }
  }

  /** Empty rows up to `hi`, starting at `lo` when the buffer is empty. */
  method Extend(ring: Ring, kern: Kernel, lo: int, hi: int, ghost top: int, ghost y0: int, ghost y: int)
    requires ring.Valid() && Sums(kern, ring.held, y0, y) && lo <= hi && hi - lo < ring.rows.Length
    requires NoneAbove(kern, top, y0, y)
    requires ring.begin >= 0 ==> ring.first == lo && ring.last <= hi && top <= ring.last
    requires ring.begin < 0 ==> top < lo || top < 0
    modifies ring, ring.rows
    ensures ring.Valid() && Sums(kern, ring.held, y0, y)
    ensures ring.begin >= 0 && ring.first == lo && ring.last == hi
  {
    if ring.begin < 0 {
      assert Partial(kern, lo, y0, y) == kern.zero;
      ring.Add(lo, kern.zero);
    }
    while hi > ring.last
      invariant ring.Valid() && Sums(kern, ring.held, y0, y)
      invariant ring.begin >= 0 && ring.first == lo && ring.last <= hi
      invariant top <= ring.last || top < 0
      decreases hi - ring.last
    {
      assert Partial(kern, ring.last + 1, y0, y) == kern.zero;
      ring.Add(ring.last + 1, kern.zero);
    }
  }

  /** `stbir__resample_vertical_downsample`: input row `y` is added to the rows it contributes to. */
  method Contribute(ring: Ring, kern: Kernel, ghost y0: int, y: int)
    requires ring.Valid() && Sums(kern, ring.held, y0, y) && y0 <= y
    requires kern.used(y).0 <= kern.used(y).1 ==>
               ring.begin >= 0 && ring.first <= kern.used(y).0 && kern.used(y).1 <= ring.last
    modifies ring`held, ring.rows
    ensures ring.Valid() && Sums(kern, ring.held, y0, y + 1)
  {
    var (n0, n1) := kern.used(y);
    var k := n0;
    ghost var before := ring.held;
    while k <= n1
      invariant ring.Valid() && if n0 <= n1 then n0 <= k <= n1 + 1 else k == n0
      invariant AddedTo(kern, before, ring.held, y, n0, k)
      invariant forall j :: n0 <= j <= n1 ==> j in before
    {
      AddRow(ring, kern, before, y, n0, k);
      k := k + 1;
    }
    RowAdded(kern, before, ring.held, y0, y);
  }

  method AddRow(ring: Ring, kern: Kernel, ghost before: map<int, Row>, y: int, ghost n0: int, k: int)
    requires ring.Valid() && k in ring.held && n0 <= k && AddedTo(kern, before, ring.held, y, n0, k)
    modifies ring`held, ring.rows
    ensures ring.Valid() && AddedTo(kern, before, ring.held, y, n0, k + 1)
  {
    ring.Set(k, kern.add(ring.Get(k), y, k));
  }

  /** Input row `y` has been added to the rows `n0` to `k` - 1. */
  ghost predicate AddedTo(kern: Kernel, held: map<int, Row>, held': map<int, Row>, y: int, n0: int, k: int)
  {
    && held'.Keys == held.Keys
    && forall j :: j in held ==> held'[j] == if n0 <= j < k then kern.add(held[j], y, j) else held[j]
  }

  lemma RowAdded(kern: Kernel, held: map<int, Row>, held': map<int, Row>, y0: int, y: int)
    requires y0 <= y && Sums(kern, held, y0, y)
    requires var (n0, n1) := kern.used(y); AddedTo(kern, held, held', y, n0, if n0 <= n1 then n1 + 1 else n0)
    ensures Sums(kern, held', y0, y + 1)
  {
    forall j | j in held'
      ensures held'[j] == Partial(kern, j, y0, y + 1)
    {
      assert j in held && held[j] == Partial(kern, j, y0, (y + 1) - 1);
    }
  }

  /** Encoded rows get no more contributions once the range of the input has passed them. */
  lemma StaysEncoded(r: Ranges, kern: Kernel, h: nat, out: seq<(int, Row)>, c: int, y0: int, y: int)
    requires UsedDown(r, kern, h) && y0 <= y && Encoded(kern, out, c, y0, y)
    requires c <= r.first(y) || c == 0 || kern.used(y).0 > kern.used(y).1
    ensures Encoded(kern, out, c, y0, y + 1)
  {
    assert UsedAt(r, kern, h, y);
  }

  lemma StaysSummed(kern: Kernel, held: map<int, Row>, y0: int, y: int)
    requires y0 <= y && Sums(kern, held, y0, y) && kern.used(y).0 > kern.used(y).1
    ensures Sums(kern, held, y0, y + 1)
  {
  }

  /** Where the loop stands before input row `y`: nothing has reached the image yet, or the buffer spans the
      range of the row before, or it spans the last range that began inside the image. */
  ghost predicate Standing(r: Ranges, kern: Kernel, ring: Ring, out: seq<(int, Row)>, h: nat, y0: int, y: int)
    reads ring, ring.rows
  {
    && ring.Valid() && Sums(kern, ring.held, y0, y)
    && (ring.begin < 0 ==>
          Encoded(kern, out, 0, y0, y) && NoneAbove(kern, -1, y0, y) && (y == y0 || r.last(y - 1) < 0))
    && (ring.begin >= 0 ==>
          && Encoded(kern, out, Clamp(ring.first, h), y0, y) && ring.last >= 0 && y > y0
          && (Current(r, kern, ring, y0, y) || (r.first(y - 1) >= h && ring.last >= h - 1)))
  }

  ghost predicate Current(r: Ranges, kern: Kernel, ring: Ring, y0: int, y: int)
    reads ring
  {
    ring.first == r.first(y - 1) && ring.last == r.last(y - 1) && NoneAbove(kern, ring.last, y0, y)
  }

  /** Moves the buffer on to the range `lo`..`hi` of input row `y`. */
  method Advance(r: Ranges, kern: Kernel, ring: Ring, out: seq<(int, Row)>, h: nat, ghost y0: int, y: int)
    returns (out': seq<(int, Row)>)
    requires Sweeping(r, ring.rows.Length) && y0 <= y
    requires Standing(r, kern, ring, out, h, y0, y)
    requires r.first(y0) <= 0 && r.last(y) >= 0 && r.first(y) < h
    modifies ring, ring.rows
    ensures ring.Valid() && Sums(kern, ring.held, y0, y)
    ensures ring.begin >= 0 && ring.first == r.first(y) && ring.last == r.last(y)
    ensures Encoded(kern, out', Clamp(ring.first, h), y0, y) && NoneAbove(kern, ring.last, y0, y)
  {
    assert SweepAt(r, ring.rows.Length, y - 1) && SweepAt(r, ring.rows.Length, y);
    ghost var top := if ring.begin < 0 then -1 else ring.last;
    assert ring.begin >= 0 ==> Current(r, kern, ring, y0, y);
    assert ring.begin < 0 ==> r.first(y) <= 0;
    out' := Flush(ring, kern, r.first(y), h, out, y0, y);
    assert Encoded(kern, out', Clamp(r.first(y), h), y0, y);
    Extend(ring, kern, r.first(y), r.last(y), top, y0, y);
  }

  /** An input row whose range meets the image. */
  method Process(r: Ranges, kern: Kernel, ring: Ring, out: seq<(int, Row)>, h: nat, ghost y0: int, y: int)
    returns (out': seq<(int, Row)>)
    requires Sweeping(r, ring.rows.Length) && UsedDown(r, kern, h) && y0 <= y
    requires Standing(r, kern, ring, out, h, y0, y)
    requires r.first(y0) <= 0 && r.last(y) >= 0 && r.first(y) < h
    modifies ring, ring.rows
    ensures Standing(r, kern, ring, out', h, y0, y + 1)
  {
    out' := Advance(r, kern, ring, out, h, y0, y);
    assert UsedAt(r, kern, h, y);
    Contribute(ring, kern, y0, y);
    StaysEncoded(r, kern, h, out', Clamp(r.first(y), h), y0, y);
    OneMore(r, kern, h, ring.last, y0, y);
    assert Current(r, kern, ring, y0, y + 1);
  }

  /** An input row that does not reach the image. */
  lemma Skip(r: Ranges, kern: Kernel, ring: Ring, out: seq<(int, Row)>, h: nat, y0: int, y: int)
    requires Sweeping(r, ring.rows.Length) && UsedDown(r, kern, h) && y0 <= y && h > 0
    requires Standing(r, kern, ring, out, h, y0, y)
    requires r.first(y0) <= 0 && (r.last(y) < 0 || r.first(y) >= h)
    ensures Standing(r, kern, ring, out, h, y0, y + 1)
  {
    assert SweepAt(r, ring.rows.Length, y - 1) && SweepAt(r, ring.rows.Length, y);
    assert UsedAt(r, kern, h, y);
    assert kern.used(y).0 > kern.used(y).1;
    StaysSummed(kern, ring.held, y0, y);
    StaysEncoded(r, kern, h, out, |out|, y0, y);
    if ring.begin < 0 {
      OneMore(r, kern, h, -1, y0, y);
    }
  }

  /** The loop over input rows `y0` to `y1` - 1. */
  method Sweep(r: Ranges, kern: Kernel, ring: Ring, h: nat, y0: int, y1: int) returns (out: seq<(int, Row)>)
    requires ring.Valid() && ring.begin < 0 && Sweeping(r, ring.rows.Length) && UsedDown(r, kern, h) && h > 0
    requires y0 < y1 && r.first(y0) <= 0 && r.last(y1 - 1) >= h - 1
    modifies ring, ring.rows
    ensures Encoded(kern, out, h, y0, y1)
  {
    out := [];
    NothingAdded(kern, y0);
    for y := y0 to y1
      invariant Standing(r, kern, ring, out, h, y0, y)
    {
      if r.last(y) < 0 || r.first(y) >= h {
        Skip(r, kern, ring, out, h, y0, y);
      } else {
        out := Process(r, kern, ring, out, h, y0, y);
      }
    }
    out := Flush(ring, kern, h, h, out, y0, y1);
  }

  // --- The rows that count ---

  /** Every input row from `a` up to but not including `b` contributes nothing. */
  ghost predicate Idle(kern: Kernel, a: int, b: int)
  {
    forall y :: a <= y < b ==> kern.used(y).0 > kern.used(y).1
  }

  lemma {:induction false} IdleAfter(kern: Kernel, k: int, a: int, b: int, c: int)
    requires b <= c && Idle(kern, b, c)
    ensures Partial(kern, k, a, c) == Partial(kern, k, a, b)
    decreases c - b
  {
    if b < c {
      IdleAfter(kern, k, a, b, c - 1);
    }
  }

  lemma {:induction false} IdleBefore(kern: Kernel, k: int, a: int, b: int, c: int)
    requires a <= b <= c && Idle(kern, a, b)
    ensures Partial(kern, k, a, c) == Partial(kern, k, b, c)
    decreases c - b
  {
    if b == c {
      IdleAfter(kern, k, a, a, c);
    } else {
      IdleBefore(kern, k, a, b, c - 1);
    }
  }

  /** The sum is the same over all stretches outside which nothing contributes. */
  lemma SumsAgree(kern: Kernel, k: int, a: int, b: int, c: int, d: int)
    requires a <= c && (forall y :: y < c || y >= d ==> kern.used(y).0 > kern.used(y).1)
    requires forall y :: y < a || y >= b ==> kern.used(y).0 > kern.used(y).1
    ensures Partial(kern, k, a, b) == Partial(kern, k, c, d)
  {
    var e := if b < d then d else b;
    var f := if c < e then e else c;
    IdleAfter(kern, k, a, b, f);
    IdleBefore(kern, k, a, c, f);
    IdleAfter(kern, k, c, d, f);
  }

  /** Every input row that is left out misses an image of `h` rows. */
  ghost predicate HoldsAll(g: Geometry, h: nat, a: int, b: int)
    requires g.scale > 0.0
  {
    forall y :: y < a || y >= b ==> Misses(g, h, y)
  }

  lemma LoopHoldsAll(g: Geometry, inH: nat, h: nat)
    requires Whole(g, inH, h)
    ensures HoldsAll(g, h, -Margin(g), inH + Margin(g))
  {
    forall y | y < -Margin(g) || y >= inH + Margin(g)
      ensures Misses(g, h, y)
    {
      OutsideMisses(g, inH, h, y);
    }
  }

  lemma MissesIdle(g: Geometry, kern: Kernel, h: nat, a: int, b: int)
    requires g.scale > 0.0 && UsedDown(DownRanges(g), kern, h) && HoldsAll(g, h, a, b)
    ensures forall y :: y < a || y >= b ==> kern.used(y).0 > kern.used(y).1
  {
    forall y | y < a || y >= b
      ensures kern.used(y).0 > kern.used(y).1
    {
      assert Misses(g, h, y) && UsedAt(DownRanges(g), kern, h, y);
    }
  }

  lemma AllRowsCount(g: Geometry, kern: Kernel, h: nat, k: int, a: int, b: int, c: int, d: int)
    requires g.scale > 0.0 && UsedDown(DownRanges(g), kern, h) && HoldsAll(g, h, a, b) && HoldsAll(g, h, c, d)
    ensures Partial(kern, k, a, b) == Partial(kern, k, c, d)
  {
    MissesIdle(g, kern, h, a, b);
    MissesIdle(g, kern, h, c, d);
    if a <= c {
      SumsAgree(kern, k, a, b, c, d);
    } else {
      SumsAgree(kern, k, c, d, a, b);
    }
  }

  /** `stbir__buffer_loop_downsample`: every output row is encoded exactly once, in increasing order, with the
      contributions of all input rows that reach the image: of any stretch that leaves none of them out. */
  method Downsample(g: Geometry, inH: nat, h: nat, kern: Kernel) returns (out: seq<(int, Row)>)
    requires Whole(g, inH, h) && UsedDown(DownRanges(g), kern, h)
    ensures |out| == h
    ensures forall k, a, b :: 0 <= k < h && HoldsAll(g, h, a, b) ==> out[k] == (k, Partial(kern, k, a, b))
  {
    DownFits(g, 0);
    DownCovers(g, inH, h);
    DownSweeps(g);
    var ring := new Ring(DownEntries(g), kern.zero);
    ghost var y0, y1 := -Margin(g), inH + Margin(g);
    out := Sweep(DownRanges(g), kern, ring, h, -Margin(g), inH + Margin(g));
    LoopHoldsAll(g, inH, h);
    forall k, a, b | 0 <= k < h && HoldsAll(g, h, a, b)
      ensures out[k] == (k, Partial(kern, k, a, b))
    {
      AllRowsCount(g, kern, h, k, y0, y1, a, b);
    }
  }
}
