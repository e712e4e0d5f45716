/** Which rows influence which in a resize, in exact real arithmetic. */
module SampleRange {

  /** `scale` is output over input, `support` the radius of the filter. */
  datatype Geometry = Geometry(scale: real, shift: real, support: real)

  function Ceil(x: real): (r: int)
    ensures r as real >= x && r as real < x + 1.0
  {
    -((-x).Floor)
  }

  lemma FloorGrows(x: real, y: real)
    requires x <= y
    ensures x.Floor <= y.Floor
  {
  }

  lemma FloorAtMost(x: real, n: int)
    requires x < n as real + 1.0
    ensures x.Floor <= n
  {
  }

  lemma FloorBetween(lower: real, upper: real, k: int)
    ensures (lower + 0.5).Floor <= k <= (upper - 0.5).Floor <==> lower < k as real + 0.5 <= upper
  {
    if k as real + 0.5 <= upper {
      FloorGrows(k as real, upper - 0.5);
    }
  }

  // --- Upsampling: the input rows of an output row ---

  function UpLower(g: Geometry, n: int): real
    requires g.scale > 0.0
  {
    (n as real + 0.5 - g.support * g.scale + g.shift) / g.scale
  }

  function UpUpper(g: Geometry, n: int): real
    requires g.scale > 0.0
  {
    (n as real + 0.5 + g.support * g.scale + g.shift) / g.scale
  }

  /** `stbir__calculate_sample_range_upsample`. */
  function UpFirst(g: Geometry, n: int): int
    requires g.scale > 0.0
  {
    (UpLower(g, n) + 0.5).Floor
  }

  function UpLast(g: Geometry, n: int): int
    requires g.scale > 0.0
  {
    (UpUpper(g, n) - 0.5).Floor
  }

  /** The number of entries of the ring buffer. */
  function UpEntries(g: Geometry): int
  {
    Ceil(g.support * 2.0) + 1
  }

  lemma DivAdd(a: real, b: real, s: real)
    requires s > 0.0
    ensures (a + b * s) / s == a / s + b
    ensures (a - b * s) / s == a / s - b
  {
    var q := a / s;
    assert a == q * s;
    assert a + b * s == (q + b) * s;
    assert a - b * s == (q - b) * s;
  }

  /** The influence of output row `n`, around its centre measured in input rows. */
  lemma UpBounds(g: Geometry, n: int)
    requires g.scale > 0.0
    ensures var centre := (n as real + 0.5 + g.shift) / g.scale;
            UpLower(g, n) == centre - g.support && UpUpper(g, n) == centre + g.support
  {
    var a := n as real + 0.5 + g.shift;
    DivAdd(a, g.support, g.scale);
    assert n as real + 0.5 - g.support * g.scale + g.shift == a - g.support * g.scale;
    assert n as real + 0.5 + g.support * g.scale + g.shift == a + g.support * g.scale;
  }

  /** A window never holds more rows than the ring buffer, with one to spare. */
  lemma UpWidth(g: Geometry, n: int)
    requires g.scale > 0.0
    ensures UpLast(g, n) - UpFirst(g, n) + 1 < UpEntries(g)
    ensures g.support >= 0.5 ==> UpFirst(g, n) <= UpLast(g, n)
  {
    UpBounds(g, n);
    if g.support >= 0.5 {
      FloorGrows(UpLower(g, n) + 0.5, UpUpper(g, n) - 0.5);
    }
  }

  lemma DivGrows(a: real, b: real, s: real)
    requires s > 0.0 && a <= b
    ensures a / s <= b / s
  {
    var p, q := a / s, b / s;
    assert a == p * s && b == q * s;
    assert p > q ==> (p - q) * s > 0.0;
  }

  /** Windows only move forward. */
  lemma UpMonotone(g: Geometry, m: int, n: int)
    requires g.scale > 0.0 && m <= n
    ensures UpFirst(g, m) <= UpFirst(g, n) && UpLast(g, m) <= UpLast(g, n)
  {
    DivGrows(m as real + 0.5 - g.support * g.scale + g.shift, n as real + 0.5 - g.support * g.scale + g.shift, g.scale);
    DivGrows(m as real + 0.5 + g.support * g.scale + g.shift, n as real + 0.5 + g.support * g.scale + g.shift, g.scale);
    FloorGrows(UpLower(g, m) + 0.5, UpLower(g, n) + 0.5);
    FloorGrows(UpUpper(g, m) - 0.5, UpUpper(g, n) - 0.5);
  }

  /** The window holds exactly the input rows whose centre lies within the support of the centre of output row `n`. */
  lemma UpWindow(g: Geometry, n: int, k: int)
    requires g.scale > 0.0
    ensures var centre := (n as real + 0.5 + g.shift) / g.scale;
            UpFirst(g, n) <= k <= UpLast(g, n) <==>
              centre - g.support < k as real + 0.5 <= centre + g.support
  {
    UpBounds(g, n);
    FloorBetween(UpLower(g, n), UpUpper(g, n), k);
  }

  // --- Downsampling: the output rows of an input row ---

  function DownLower(g: Geometry, n: int): real
    requires g.scale > 0.0
  {
    (n as real + 0.5 - g.support / g.scale) * g.scale - g.shift
  }

  function DownUpper(g: Geometry, n: int): real
    requires g.scale > 0.0
  {
    (n as real + 0.5 + g.support / g.scale) * g.scale - g.shift
  }

  /** `stbir__calculate_sample_range_downsample`. */
  function DownFirst(g: Geometry, n: int): int
    requires g.scale > 0.0
  {
    (DownLower(g, n) + 0.5).Floor
  }

  function DownLast(g: Geometry, n: int): int
    requires g.scale > 0.0
  {
    (DownUpper(g, n) - 0.5).Floor
  }

  function DownWidth(g: Geometry): int
    requires g.scale > 0.0
  {
    Ceil(g.support * 2.0 / g.scale)
  }

  /** How far beyond the image the loop runs. */
  function Margin(g: Geometry): (r: int)
    requires g.scale > 0.0 && g.support >= 0.0
    ensures r >= 0
  {
    assert g.support * 2.0 / g.scale >= 0.0 by { DivGrows(0.0, g.support * 2.0, g.scale); }
    DownWidth(g) / 2
  }

  function DownEntries(g: Geometry): int
    requires g.scale > 0.0
  {
    DownWidth(g) + 1
  }

  lemma DownBounds(g: Geometry, n: int)
    requires g.scale > 0.0
    ensures DownLower(g, n) == (n as real + 0.5) * g.scale - g.support - g.shift
    ensures DownUpper(g, n) == (n as real + 0.5) * g.scale + g.support - g.shift
  {
    var q := g.support / g.scale;
    assert q * g.scale == g.support;
    assert (n as real + 0.5 - q) * g.scale == (n as real + 0.5) * g.scale - q * g.scale;
    assert (n as real + 0.5 + q) * g.scale == (n as real + 0.5) * g.scale + q * g.scale;
  }

  /** The range holds exactly the output rows whose centre lies within the support of the centre of input row `n`. */
  lemma DownRange(g: Geometry, n: int, k: int)
    requires g.scale > 0.0
    ensures var centre := (n as real + 0.5) * g.scale - g.shift;
            DownFirst(g, n) <= k <= DownLast(g, n) <==>
              centre - g.support < k as real + 0.5 <= centre + g.support
  {
    DownBounds(g, n);
    FloorBetween(DownLower(g, n), DownUpper(g, n), k);
  }

  lemma MulGrows(a: real, b: real, s: real)
    requires s >= 0.0 && a <= b
    ensures a * s <= b * s
  {
    assert (b - a) * s >= 0.0;
  }

  lemma DownMonotone(g: Geometry, m: int, n: int)
    requires g.scale > 0.0 && m <= n
    ensures DownFirst(g, m) <= DownFirst(g, n) && DownLast(g, m) <= DownLast(g, n)
  {
    DownBounds(g, m);
    DownBounds(g, n);
    MulGrows(m as real + 0.5, n as real + 0.5, g.scale);
  }

  lemma DownFits(g: Geometry, n: int)
    requires 0.0 < g.scale <= 1.0 && g.support >= 0.5
    ensures DownFirst(g, n) <= DownLast(g, n) && DownLast(g, n) - DownFirst(g, n) + 1 < DownEntries(g)
  {
    DownBounds(g, n);
    var w := g.support * 2.0 / g.scale;
    assert w * g.scale == g.support * 2.0;
    assert w >= 0.0 by { DivGrows(0.0, g.support * 2.0, g.scale); }
    assert w * g.scale <= w by { MulGrows(g.scale, 1.0, w); }
  }

  /** No output row is skipped between one input row and the next. */
  lemma DownContiguous(g: Geometry, n: int)
    requires 0.0 < g.scale <= 2.0 * g.support
    ensures DownFirst(g, n + 1) <= DownLast(g, n) + 1
  {
    DownBounds(g, n);
    DownBounds(g, n + 1);
    var a := (n as real + 0.5) * g.scale;
    assert ((n + 1) as real + 0.5) * g.scale == a + g.scale;
    FloorGrows(a + g.scale - g.support - g.shift + 0.5, a + g.support - g.shift + 0.5);
    assert (a + g.support - g.shift - 0.5 + 1.0).Floor == (a + g.support - g.shift - 0.5).Floor + 1;
  }

  /** The whole image: `h` output rows from `inH` input rows. */
  ghost predicate Whole(g: Geometry, inH: nat, h: nat)
  {
    inH > 0 && h > 0 && g.scale * inH as real == h as real && g.shift == 0.0 && 0.0 < g.scale <= 1.0 && g.support >= 0.5
  }

  /** The loop starts at or before output row 0 and ends at or after the last one. */
  lemma DownCovers(g: Geometry, inH: nat, h: nat)
    requires Whole(g, inH, h)
    ensures DownFirst(g, -Margin(g)) <= 0
    ensures DownLast(g, inH + Margin(g) - 1) >= h - 1
  {
    var m := Margin(g);
    DownBounds(g, -m);
    MulGrows(-m as real + 0.5, 0.5, g.scale);
    FloorAtMost(DownLower(g, -m) + 0.5, 0);
    var e := inH + m - 1;
    DownBounds(g, e);
    MulGrows(inH as real - 0.5, e as real + 0.5, g.scale);
    assert (inH as real - 0.5) * g.scale == h as real - 0.5 * g.scale;
    FloorGrows((h - 1) as real, DownUpper(g, e) - 0.5);
  }

  /** The range of input row `y` has no row in common with an image of `h` rows. */
  predicate Misses(g: Geometry, h: nat, y: int)
    requires g.scale > 0.0
  {
    DownLast(g, y) < 0 || DownFirst(g, y) >= h
  }

  /** The margin is as wide as the filter: half of its width, measured in input rows, is at most half a row more. */
  lemma MarginReaches(g: Geometry)
    requires g.scale > 0.0 && g.support >= 0.0
    ensures (Margin(g) as real + 0.5) * g.scale >= g.support
  {
    var q := g.support * 2.0 / g.scale;
    assert q * g.scale == g.support * 2.0;
    MulGrows(q, Margin(g) as real * 2.0 + 1.0, g.scale);
  }

  /** No row outside the loop reaches the image. */
  lemma OutsideMisses(g: Geometry, inH: nat, h: nat, y: int)
    requires Whole(g, inH, h) && !(-Margin(g) <= y < inH + Margin(g))
    ensures y < -Margin(g) ==> DownLast(g, y) < 0
    ensures y >= inH + Margin(g) ==> DownFirst(g, y) >= h
    ensures Misses(g, h, y)
  {
    var m := Margin(g);
    DownBounds(g, y);
    MarginReaches(g);
    if y < -m {
      MulGrows(y as real + 0.5, -(m as real + 0.5), g.scale);
      FloorAtMost(DownUpper(g, y) - 0.5, -1);
    } else {
      MulGrows(inH as real + (m as real + 0.5), y as real + 0.5, g.scale);
      assert (inH as real + (m as real + 0.5)) * g.scale == h as real + (m as real + 0.5) * g.scale;
      FloorGrows(h as real, DownLower(g, y) + 0.5);
    }
  }
}
