/** The Adler-32 trailer: sums in 32-bit variables that are reduced once per block of 5552 bytes. */
module AdlerSum {
  import opened Bits
  import opened Inflate

  const BLOCK := 5552
  const MAX32 := 0xffff_ffff

  /** The largest second sum after `k` bytes from reduced sums: each step adds the largest first sum. */
  ghost function Cap(k: nat): nat
  {
    if k == 0 then 65520 else Cap(k - 1) + (65520 + 255 * k)
  }

  ghost predicate Bounded(s1: nat, s2: nat, k: nat)
  {
    s1 <= 65520 + 255 * k && s2 <= Cap(k)
  }

  lemma {:induction false} CapClosed(k: nat)
    ensures 2 * Cap(k) == 2 * 65520 + k * (2 * 65520 + 255 * (k + 1))
  {
    if k > 0 {
      CapClosed(k - 1);
      assert k * (2 * 65520 + 255 * (k + 1)) == (k - 1) * (2 * 65520 + 255 * k) + 2 * 65520 + 2 * 255 * k;
    }
  }

  lemma {:induction false} CapMonotone(k: nat, n: nat)
    requires k <= n
    ensures Cap(k) <= Cap(n)
  {
    if k < n {
      CapMonotone(k, n - 1);
    }
  }

  /** Up to a full block both sums fit in 32 bits. */
  lemma BoundedFits(s1: nat, s2: nat, k: nat)
    requires Bounded(s1, s2, k) && k <= BLOCK
    ensures s1 <= MAX32 && s2 <= MAX32
  {
    CapMonotone(k, BLOCK);
    CapClosed(BLOCK);
  }

  /** Unsigned 32-bit arithmetic. */
  function Wrap(x: nat): nat
  {
    x % (MAX32 + 1)
  }

  lemma NoWrap(s1: nat, s2: nat, k: nat, d: nat)
    requires Bounded(s1, s2, k) && k < BLOCK && d <= 255
    ensures Bounded(s1 + d, s2 + (s1 + d), k + 1)
    ensures Wrap(s1 + d) == s1 + d && Wrap(s2 + (s1 + d)) == s2 + (s1 + d)
  {
    BoundedFits(s1 + d, s2 + (s1 + d), k + 1);
  }

  lemma AdlerSnoc(data: seq<byte>, j: nat)
    requires j < |data|
    ensures var (a, b) := Adler(data[..j]);
            Adler(data[..j + 1]) == ((a + data[j]) % ADLER_MOD, (b + (a + data[j]) % ADLER_MOD) % ADLER_MOD)
  {
    assert data[..j + 1][..j] == data[..j];
  }

  lemma ModAdd(x: nat, y: nat)
    ensures (x % ADLER_MOD + y) % ADLER_MOD == (x + y) % ADLER_MOD
  {
  }

  /** The sums stand for the checksum of the first `n` bytes. */
  ghost predicate Stands(data: seq<byte>, n: nat, s1: nat, s2: nat)
    requires n <= |data|
  {
    (s1 % ADLER_MOD, s2 % ADLER_MOD) == Adler(data[..n])
  }

  /** Adding without reducing is the same step modulo 65521. */
  lemma UnreducedStep(data: seq<byte>, n: nat, s1: nat, s2: nat)
    requires n < |data| && Stands(data, n, s1, s2)
    ensures Stands(data, n + 1, s1 + data[n], s2 + (s1 + data[n]))
  {
    AdlerSnoc(data, n);
    var t := s1 + data[n];
    ModAdd(s1, data[n]);
    ModAdd(s2, t % ADLER_MOD);
    ModAdd(t, s2);
  }

  /** One block.  `s1` and `s2` are unsigned 32-bit in the source: every sum is wrapped here, and the
      contract shows that wrapping never changes it. */
  method AddBlock(data: seq<byte>, j: nat, len: nat, s10: nat, s20: nat) returns (s1: nat, s2: nat)
    requires j + len <= |data| && len <= BLOCK && s10 < ADLER_MOD && s20 < ADLER_MOD
    requires Stands(data, j, s10, s20)
    ensures Bounded(s1, s2, len) && Stands(data, j + len, s1, s2)
  {
    s1, s2 := s10, s20;
    for i := 0 to len
      invariant Bounded(s1, s2, i) && Stands(data, j + i, s1, s2)
    {
      var d := data[j + i];
      NoWrap(s1, s2, i, d);
      UnreducedStep(data, j + i, s1, s2);
      s1 := Wrap(s1 + d);
      s2 := Wrap(s2 + s1);
    }
  }

  /** One block followed by the two reductions. */
  method ReducedBlock(data: seq<byte>, j: nat, len: nat, s10: nat, s20: nat) returns (s1: nat, s2: nat)
    requires j + len <= |data| && len <= BLOCK && s10 < ADLER_MOD && s20 < ADLER_MOD && Stands(data, j, s10, s20)
    ensures s1 < ADLER_MOD && s2 < ADLER_MOD && Stands(data, j + len, s1, s2)
  {
    var t1, t2 := AddBlock(data, j, len, s10, s20);
    Reduce(data, j + len, t1, t2);
    s1, s2 := t1 % ADLER_MOD, t2 % ADLER_MOD;
  }

  lemma Reduce(data: seq<byte>, n: nat, s1: nat, s2: nat)
    requires n <= |data| && Stands(data, n, s1, s2)
    ensures Stands(data, n, s1 % ADLER_MOD, s2 % ADLER_MOD)
  {
    ModAdd(s1, 0);
    ModAdd(s2, 0);
  }

  /** What is left before a block: the short block first, then whole blocks. */
  ghost predicate LeftOver(left: nat, blocklen: nat)
  {
    blocklen <= BLOCK && exists k: nat :: left == blocklen + k * BLOCK || (left == 0 && blocklen == BLOCK)
  }

  lemma FirstBlock(n: nat)
    ensures LeftOver(n, n % BLOCK)
  {
    assert n == n % BLOCK + (n / BLOCK) * BLOCK;
  }

  lemma NextBlock(left: nat, blocklen: nat)
    requires LeftOver(left, blocklen) && left > 0
    ensures blocklen <= left && LeftOver(left - blocklen, BLOCK)
    ensures blocklen == 0 ==> left >= BLOCK
  {
    var k: nat :| left == blocklen + k * BLOCK || (left == 0 && blocklen == BLOCK);
    if k > 0 {
      assert left - blocklen == BLOCK + (k - 1) * BLOCK;
    }
  }

  lemma Finished(data: seq<byte>, s1: nat, s2: nat)
    requires Stands(data, |data|, s1, s2) && s1 < ADLER_MOD && s2 < ADLER_MOD
    ensures (s1, s2) == Adler(data)
  {
    SmallMod(s1);
    SmallMod(s2);
    WholeAdler(data, s1, s2);
  }

  lemma SmallMod(x: nat)
    requires x < ADLER_MOD
    ensures x % ADLER_MOD == x
  {
  }

  lemma WholeAdler(data: seq<byte>, a: nat, b: nat)
    requires (a % ADLER_MOD, b % ADLER_MOD) == Adler(data[..|data|])
    ensures (a % ADLER_MOD, b % ADLER_MOD) == Adler(data)
  {
    assert data[..|data|] == data;
  }

  /** The short block comes first, whole blocks follow. */
  method Checksum(data: seq<byte>) returns (s1: nat, s2: nat)
    ensures (s1, s2) == Adler(data)
  {
    s1, s2 := 1, 0;
    var blocklen: nat := |data| % BLOCK;
    var j := 0;
    FirstBlock(|data|);
    assert Stands(data, 0, 1, 0);
    while j < |data|
      invariant j <= |data| && s1 < ADLER_MOD && s2 < ADLER_MOD && Stands(data, j, s1, s2)
      invariant LeftOver(|data| - j, blocklen)
      decreases |data| - j, BLOCK - blocklen
    {
      NextBlock(|data| - j, blocklen);
      s1, s2 := ReducedBlock(data, j, blocklen, s1, s2);
      j := j + blocklen;
      blocklen := BLOCK;
    }
    Finished(data, s1, s2);
  }
}
