/** Bit strings and the integers they stand for, in the two bit orders that DEFLATE and JPEG use. */
module Bits {

  type byte = x: int | 0 <= x < 256

  function Abs(x: int): nat { if x < 0 then -x else x }

  function Pow2(n: nat): (r: nat)
    ensures r >= 1
  {
    if n == 0 then 1 else 2 * Pow2(n - 1)
  }

  /** `x << n`. */
  function Shl(x: nat, n: nat): nat
  {
    if n == 0 then x else 2 * Shl(x, n - 1)
  }

  /** `x >> n`. */
  function High(x: nat, n: nat): nat
  {
    if n == 0 then x else High(x / 2, n - 1)
  }

  /** The low `n` bits of `x`. */
  function Low(x: nat, n: nat): (r: nat)
    ensures r < Pow2(n)
  {
    if n == 0 then 0 else x % 2 + 2 * Low(x / 2, n - 1)
  }

  lemma {:induction false} HighBound(x: nat, m: nat, n: nat)
    requires x < Pow2(m + n)
    ensures High(x, n) < Pow2(m)
  {
    if n > 0 {
      HighBound(x / 2, m, n - 1);
    }
  }

  lemma {:induction false} LowOfSmall(x: nat, n: nat)
    requires x < Pow2(n)
    ensures Low(x, n) == x && High(x, n) == 0
  {
    if n > 0 {
      LowOfSmall(x / 2, n - 1);
    }
  }

  lemma {:induction false} Recompose(x: nat, n: nat)
    ensures x == Shl(High(x, n), n) + Low(x, n)
  {
    if n > 0 {
      Recompose(x / 2, n - 1);
    }
  }

  lemma {:induction false} ShlBound(x: nat, m: nat, n: nat)
    requires x < Pow2(m)
    ensures Shl(x, n) <= Pow2(m + n) - Pow2(n)
  {
    if n > 0 {
      ShlBound(x, m, n - 1);
    }
  }

  lemma {:induction false} LowHighChain(x: nat, m: nat, n: nat)
    ensures High(x, m + n) == High(High(x, m), n)
    ensures Low(x, m + n) == Low(x, m) + Shl(Low(High(x, m), n), m)
  {
    if m > 0 {
      LowHighChain(x / 2, m - 1, n);
    }
  }

  lemma {:induction false} ShlMul(x: nat, n: nat)
    ensures Shl(x, n) == x * Pow2(n)
  {
    if n > 0 {
      ShlMul(x, n - 1);
    }
  }

  lemma {:induction false} SplitSum(h: nat, y: nat, n: nat)
    requires y < Pow2(n)
    ensures High(Shl(h, n) + y, n) == h && Low(Shl(h, n) + y, n) == y
  {
    if n > 0 {
      var x := Shl(h, n) + y;
      SplitSum(h, y / 2, n - 1);
      assert x / 2 == Shl(h, n - 1) + y / 2 && x % 2 == y % 2;
    }
  }

  lemma ByteSplit(x: nat)
    ensures Low(x, 8) == x % 256 && High(x, 8) == x / 256
  {
    var q, r := x / 256, x % 256;
    ShlMul(q, 8);
    Pow2Small();
    SplitSum(q, r, 8);
  }

  lemma Pow2Small()
    ensures Pow2(0) == 1 && Pow2(1) == 2 && Pow2(2) == 4 && Pow2(3) == 8 && Pow2(4) == 16 && Pow2(5) == 32
    ensures Pow2(6) == 64 && Pow2(7) == 128 && Pow2(8) == 256 && Pow2(9) == 512 && Pow2(10) == 1024
    ensures Pow2(11) == 2048 && Pow2(12) == 4096 && Pow2(13) == 8192 && Pow2(14) == 16384 && Pow2(15) == 32768
    ensures Pow2(16) == 65536
  {
    assert Pow2(4) == 16;
    assert Pow2(8) == 256;
    assert Pow2(12) == 4096;
    assert Pow2(16) == 65536;
  }

  // --- Least significant bit first ---

  function Lsb(x: nat, n: nat): (r: seq<bool>)
    ensures |r| == n
  {
    seq(n, i => 0 <= i && High(x, i) % 2 == 1)
  }

  lemma LsbCons(x: nat, n: nat)
    requires n > 0
    ensures Lsb(x, n) == [x % 2 == 1] + Lsb(x / 2, n - 1)
  {
    forall i | 0 < i < n
      ensures Lsb(x, n)[i] == Lsb(x / 2, n - 1)[i - 1]
    {
      assert High(x, i) == High(x / 2, i - 1);
    }
    assert High(x, 0) == x;
  }

  function Bit(b: bool): nat
  {
    if b then 1 else 0
  }

  /** `chunk` lies in the stream at `pos`. */
  ghost predicate At(bits: seq<bool>, pos: nat, chunk: seq<bool>)
  {
    pos + |chunk| <= |bits| && forall k :: 0 <= k < |chunk| ==> bits[pos + k] == chunk[k]
  }

  lemma AtSplit(bits: seq<bool>, pos: nat, a: seq<bool>, b: seq<bool>)
    requires At(bits, pos, a + b)
    ensures At(bits, pos, a) && At(bits, pos + |a|, b)
  {
    forall k | 0 <= k < |a|
      ensures bits[pos + k] == a[k]
    {
      assert (a + b)[k] == a[k];
    }
    forall k | 0 <= k < |b|
      ensures bits[pos + |a| + k] == b[k]
    {
      assert (a + b)[|a| + k] == b[k];
    }
  }

  /** The number whose bits, least significant first, are the `n` bits at `pos`. */
  function LsbValue(bits: seq<bool>, pos: nat, n: nat): nat
    requires pos + n <= |bits|
    decreases n
  {
    if n == 0 then 0 else Bit(bits[pos]) + 2 * LsbValue(bits, pos + 1, n - 1)
  }

  lemma {:induction false} LsbRoundTrip(bits: seq<bool>, pos: nat, x: nat, n: nat)
    requires x < Pow2(n) && At(bits, pos, Lsb(x, n))
    ensures LsbValue(bits, pos, n) == x
    decreases n
  {
    if n > 0 {
      LsbCons(x, n);
      AtSplit(bits, pos, [x % 2 == 1], Lsb(x / 2, n - 1));
      LsbRoundTrip(bits, pos + 1, x / 2, n - 1);
      assert bits[pos + 0] == [x % 2 == 1][0];
    }
  }

  lemma {:induction false} LsbSplit(x: nat, m: nat, n: nat)
    ensures Lsb(x, m + n) == Lsb(Low(x, m), m) + Lsb(High(x, m), n)
    decreases m
  {
    if m > 0 {
      LsbSplit(x / 2, m - 1, n);
      assert Low(x, m) / 2 == Low(x / 2, m - 1);
      LsbCons(x, m + n);
      LsbCons(Low(x, m), m);
    }
  }

  /** Bitwise or, written out on the binary digits. */
  function BitOr(a: nat, b: nat): nat
    decreases a + b
  {
    if a == 0 && b == 0 then 0
    else (if a % 2 == 1 || b % 2 == 1 then 1 else 0) + 2 * BitOr(a / 2, b / 2)
  }

  /** Or-ing a shifted code above the pending bits appends the code to them. */
  lemma {:induction false} OrAppends(buf: nat, c: nat, code: nat, n: nat)
    requires buf < Pow2(c) && code < Pow2(n)
    ensures Lsb(BitOr(buf, Shl(code, c)), c + n) == Lsb(buf, c) + Lsb(code, n)
    ensures BitOr(buf, Shl(code, c)) == buf + Shl(code, c) < Pow2(c + n)
    decreases c
  {
    if c == 0 {
      OrZero(code);
    } else {
      OrAppends(buf / 2, c - 1, code, n);
      var r := BitOr(buf, Shl(code, c));
      assert r == buf % 2 + 2 * BitOr(buf / 2, Shl(code, c - 1));
      LsbCons(r, c + n);
      LsbCons(buf, c);
    }
  }

  lemma {:induction false} OrZero(x: nat)
    ensures BitOr(0, x) == x
  {
    if x > 0 {
      OrZero(x / 2);
    }
  }

  // --- Most significant bit first ---

  function Msb(x: nat, n: nat): (r: seq<bool>)
    ensures |r| == n
  {
    seq(n, i => 0 <= i < n && High(x, n - 1 - i) % 2 == 1)
  }

  lemma MsbSnoc(x: nat, n: nat)
    requires n > 0
    ensures Msb(x, n) == Msb(x / 2, n - 1) + [x % 2 == 1]
  {
    forall i | 0 <= i < n - 1
      ensures Msb(x, n)[i] == Msb(x / 2, n - 1)[i]
    {
      assert High(x, n - 1 - i) == High(x / 2, n - 2 - i);
    }
    assert High(x, 0) == x;
  }

  /** The number whose bits, most significant first, are the `n` bits at `pos`. */
  function MsbValue(bits: seq<bool>, pos: nat, n: nat): nat
    requires pos + n <= |bits|
  {
    if n == 0 then 0 else 2 * MsbValue(bits, pos, n - 1) + Bit(bits[pos + n - 1])
  }

  lemma {:induction false} MsbRoundTrip(bits: seq<bool>, pos: nat, x: nat, n: nat)
    requires x < Pow2(n) && At(bits, pos, Msb(x, n))
    ensures MsbValue(bits, pos, n) == x
  {
    if n > 0 {
      MsbSnoc(x, n);
      AtSplit(bits, pos, Msb(x / 2, n - 1), [x % 2 == 1]);
      MsbRoundTrip(bits, pos, x / 2, n - 1);
      assert bits[pos + (n - 1) + 0] == [x % 2 == 1][0];
    }
  }

  /** Splitting a code into its leading and trailing bits. */
  lemma {:induction false} MsbSplit(x: nat, m: nat, n: nat)
    ensures Msb(x, m + n) == Msb(High(x, n), m) + Msb(Low(x, n), n)
    decreases n
  {
    if n > 0 {
      MsbSplit(x / 2, m, n - 1);
      assert Low(x, n) / 2 == Low(x / 2, n - 1);
      MsbSnoc(x, m + n);
      MsbSnoc(Low(x, n), n);
    } else {
      assert Msb(x, m) + [] == Msb(x, m);
    }
  }

  /** The first `m` bits of a code read as a number. */
  lemma MsbPrefix(bits: seq<bool>, pos: nat, x: nat, n: nat, m: nat)
    requires x < Pow2(n) && m <= n && At(bits, pos, Msb(x, n))
    ensures pos + m <= |bits| && MsbValue(bits, pos, m) == High(x, n - m)
  {
    MsbSplit(x, m, n - m);
    HighBound(x, m, n - m);
    AtSplit(bits, pos, Msb(High(x, n - m), m), Msb(Low(x, n - m), n - m));
    MsbRoundTrip(bits, pos, High(x, n - m), m);
  }

  /** The low `n` bits of `x` in reverse order, with `res` above them. */
  function BitRev(x: nat, n: nat, res: nat): nat
    decreases n
  {
    if n == 0 then res else BitRev(x / 2, n - 1, 2 * res + x % 2)
  }

  /** Writing the reversed code least significant bit first spells the code most significant bit first. */
  lemma {:induction false} BitRevSpells(x: nat, n: nat, res: nat, m: nat)
    requires res < Pow2(m)
    ensures BitRev(x, n, res) < Pow2(n + m)
    ensures Lsb(BitRev(x, n, res), n + m) == Msb(x, n) + Lsb(res, m)
    decreases n
  {
    if n > 0 {
      var r := 2 * res + x % 2;
      BitRevSpells(x / 2, n - 1, r, m + 1);
      assert r / 2 == res && (r % 2 == 1) == (x % 2 == 1);
      LsbCons(r, m + 1);
      MsbSnoc(x, n);
      assert Msb(x / 2, n - 1) + ([x % 2 == 1] + Lsb(res, m)) == Msb(x, n) + Lsb(res, m);
    } else {
      assert Msb(x, 0) + Lsb(res, m) == Lsb(res, m);
    }
  }

  // --- Bytes ---

  /** The bits of a byte string, each byte least significant bit first. */
  function BytesLsb(s: seq<byte>): (r: seq<bool>)
    ensures |r| == 8 * |s|
  {
    if s == [] then [] else BytesLsb(s[..|s| - 1]) + Lsb(s[|s| - 1], 8)
  }

  lemma {:induction false} BytesLsbConcat(s: seq<byte>, t: seq<byte>)
    ensures BytesLsb(s + t) == BytesLsb(s) + BytesLsb(t)
  {
    if t == [] {
      assert s + t == s;
    } else {
      var front, last := t[..|t| - 1], t[|t| - 1];
      BytesLsbConcat(s, front);
      assert (s + t)[..|s + t| - 1] == s + front && (s + t)[|s + t| - 1] == last;
      assert BytesLsb(s) + (BytesLsb(front) + Lsb(last, 8)) == (BytesLsb(s) + BytesLsb(front)) + Lsb(last, 8);
    }
  }

  lemma AtPrefix(a: seq<bool>, b: seq<bool>, pos: nat, chunk: seq<bool>)
    requires a <= b && At(a, pos, chunk)
    ensures At(b, pos, chunk)
  {
    forall k | 0 <= k < |chunk|
      ensures b[pos + k] == chunk[k]
    {
      assert b[pos + k] == a[pos + k];
    }
  }

  /** Byte `k` sits at bit `8 * k`. */
  lemma {:induction false} ByteAt(s: seq<byte>, k: nat)
    requires k < |s|
    ensures At(BytesLsb(s), 8 * k, Lsb(s[k], 8))
  {
    var front := s[..|s| - 1];
    if k < |s| - 1 {
      ByteAt(front, k);
      AtPrefix(BytesLsb(front), BytesLsb(s), 8 * k, Lsb(s[k], 8));
    } else {
      assert At(BytesLsb(s), 0, BytesLsb(s));
      AtSplit(BytesLsb(s), 0, BytesLsb(front), Lsb(s[k], 8));
    }
  }

  /** The bytes can be read off the bits. */
  lemma BytesPrefix(s: seq<byte>, t: seq<byte>)
    requires BytesLsb(s) <= BytesLsb(t)
    ensures s <= t
  {
    forall k | 0 <= k < |s|
      ensures s[k] == t[k]
    {
      ByteAt(s, k);
      ByteAt(t, k);
      AtPrefix(BytesLsb(s), BytesLsb(t), 8 * k, Lsb(s[k], 8));
      Pow2Small();
      LsbRoundTrip(BytesLsb(t), 8 * k, s[k], 8);
      LsbRoundTrip(BytesLsb(t), 8 * k, t[k], 8);
    }
  }
}
