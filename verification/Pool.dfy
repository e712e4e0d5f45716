/** RapidJSON's `MemoryPoolAllocator`. `memory` is the address space, addresses are its indices, and the
    base allocator is the `offer` parameter: the region it would return next, if any. */
module Pool {
  import opened Wrappers
  import opened Bits
  import opened PoolBlocks

  /** The first `n` bytes at `q` afterwards are those at `p` before. */
  ghost predicate SameBytes(p: nat, q: nat, n: nat, before: seq<byte>, after: seq<byte>)
  {
    p + n <= |before| && q + n <= |after| && after[q..q + n] == before[p..p + n]
  }

  /** No block but `p` has changed. */
  ghost predicate OthersKept(live: Blocks, p: nat, before: seq<byte>, after: seq<byte>)
  {
    forall q :: q in live && q != p ==> SameBytes(q, q, live[q].room, before, after)
  }

  /** Nothing at all has changed. */
  lemma NothingChanged(cs: seq<Chunk>, live: Blocks, p: nat, memory: seq<byte>)
    requires PoolOk(cs, live, |memory|)
    ensures OthersKept(live, p, memory, memory)
  {
    forall q | q in live
      ensures SameBytes(q, q, live[q].room, memory, memory)
    {
      InsideLimit(cs, live, |memory|, q);
    }
  }

  /** A copy into block `q` leaves the other blocks alone. */
  lemma CopyMissesOthers(cs: seq<Chunk>, live: Blocks, q: nat, n: nat, before: seq<byte>, after: seq<byte>)
    requires PoolOk(cs, live, |before|) && q in live && n <= live[q].room && |after| == |before|
    requires q + n <= |before| && after[..q] == before[..q] && after[q + n..] == before[q + n..]
    ensures OthersKept(live, q, before, after)
  {
    forall p | p in live && p != q
      ensures SameBytes(p, p, live[p].room, before, after)
    {
      InsideLimit(cs, live, |before|, p);
      assert Separate(p, live[p], q, live[q]);
      forall a | p <= a < p + live[p].room
        ensures after[a] == before[a]
      {
        if a < q {
          assert after[..q][a] == before[..q][a];
        } else {
          assert after[q + n..][a - (q + n)] == before[q + n..][a - (q + n)];
        }
      }
    }
  }

  /** Blocks that were there before a new one was added. */
  lemma OthersBefore(live: Blocks, q: nat, b: Block, p: nat, before: seq<byte>, after: seq<byte>)
    requires q !in live && OthersKept(live[q := b], q, before, after)
    ensures OthersKept(live, p, before, after)
  {
    forall a | a in live && a != p
      ensures SameBytes(a, a, live[a].room, before, after)
    {
      assert live[q := b][a] == live[a];
    }
  }

  lemma Shorter(s: seq<byte>, a: nat, n: nat, m: nat)
    requires m <= n && a + n <= |s|
    ensures s[a..a + m] == s[a..a + n][..m]
  {
  }

  /** The byte at `a` after `n` bytes have been copied. */
  ghost function Copied(before: seq<byte>, from: nat, to: nat, n: nat, a: nat): byte
    requires from + n <= |before| && a < |before|
  {
    if to <= a < to + n then before[from + (a - to)] else before[a]
  }

  class MemoryPool {
    const memory: array<byte>
    const chunkCapacity: nat
    const userBuffer: Option<nat>
    /** The list of chunks, head first. */
    var chunks: seq<Chunk>
    /** The blocks the client holds. */
    ghost var live: Blocks

    /** The user's buffer starts at a multiple of eight, as memory of the base allocator does. */
    ghost predicate Aligned()
    {
      userBuffer.Some? ==> Even8(userBuffer.value)
    }

    ghost predicate Valid()
      reads this
    {
      && PoolOk(chunks, live, memory.Length) && (Aligned() ==> AlignedOk(chunks, live))
      && (userBuffer.Some? ==> chunks != [] && chunks[|chunks| - 1].addr == userBuffer.value)
    }

    constructor (memory: array<byte>, chunkCapacity: nat)
      ensures Valid() && live == map[] && chunks == [] && this.memory == memory && userBuffer == None
      ensures this.chunkCapacity == chunkCapacity
    {
      this.memory, this.chunkCapacity, userBuffer := memory, chunkCapacity, None;
      chunks, live := [], map[];
    }

    /** With a buffer of the user as the first chunk. */
    constructor WithBuffer(memory: array<byte>, buffer: nat, size: nat, chunkCapacity: nat)
      requires buffer > 0 && size > HEADER && buffer + size <= memory.Length
      ensures Valid() && live == map[] && chunks == [Chunk(buffer, size - HEADER, 0)] && this.memory == memory
      ensures this.chunkCapacity == chunkCapacity && userBuffer == Some(buffer)
    {
      this.memory, this.chunkCapacity, userBuffer := memory, chunkCapacity, Some(buffer);
      chunks, live := [Chunk(buffer, size - HEADER, 0)], map[];
    }

    // --- Totals ---

    method Capacity() returns (r: nat)
      ensures r == TotalCapacity(chunks)
    {
      r := 0;
      for i := 0 to |chunks|
        invariant r + TotalCapacity(chunks[i..]) == TotalCapacity(chunks)
      {
        assert chunks[i..][1..] == chunks[i + 1..];
        r := r + chunks[i].capacity;
      }
    }

    method Size() returns (r: nat)
      requires Valid()
      ensures r == TotalSize(chunks) <= TotalCapacity(chunks)
    {
      r := 0;
      for i := 0 to |chunks|
        invariant r + TotalSize(chunks[i..]) == TotalSize(chunks)
      {
        assert chunks[i..][1..] == chunks[i + 1..];
        r := r + chunks[i].size;
      }
      SizeWithinCapacity(chunks, memory.Length);
    }

    // --- Allocation ---

    /** A new chunk is needed for `size` more bytes. */
    predicate NeedsChunk(size: nat)
      reads this`chunks
    {
      Short(chunks, size)
    }

    function ChunkFor(size: nat): (r: nat)
      ensures r >= size
    {
      if chunkCapacity > size then chunkCapacity else size
    }

    /** The base allocator returns memory that is not in use, or nothing. */
    ghost predicate Honest(offer: Option<nat>, size: nat)
      reads this`chunks
    {
      offer.Some? ==> Offered(chunks, memory.Length, offer.value, ChunkFor(Align(size)))
    }

    /** The chunks that a new block of `size` bytes is taken from: a new one in front if the head has no room. */
    function Room(cs: seq<Chunk>, size: nat, offer: Option<nat>): (r: seq<Chunk>)
      ensures !Refused(cs, size, offer) ==> r != []
    {
      if Short(cs, Align(size)) && offer.Some? then [Chunk(offer.value, ChunkFor(Align(size)), 0)] + cs else cs
    }

    /** A new block of `size` bytes at `q` is the next one of the head chunk, and nothing else is taken. */
    ghost predicate Taken(cs: seq<Chunk>, size: nat, offer: Option<nat>, q: nat, cs': seq<Chunk>)
    {
      !Refused(cs, size, offer) && q == Free(Room(cs, size, offer)) && cs' == Grow(Room(cs, size, offer), Align(size))
    }

    method AddChunk(capacity: nat, offer: Option<nat>) returns (ok: bool)
      requires Valid() && (offer.Some? ==> Offered(chunks, memory.Length, offer.value, capacity))
      modifies this`chunks
      ensures Valid() && ok == offer.Some?
      ensures chunks == if ok then [Chunk(offer.value, capacity, 0)] + old(chunks) else old(chunks)
    {
      if offer.None? {
        return false;
      }
      ChunkAdded(chunks, live, memory.Length, offer.value, capacity);
      assert Even8(0);
      chunks := [Chunk(offer.value, capacity, 0)] + chunks;
      return true;
    }

    /** The next block of the head chunk. */
    method Take(size: nat) returns (p: nat)
      requires Valid() && size > 0 && !NeedsChunk(Align(size))
      modifies this`chunks, this`live
      ensures Valid() && p !in old(live) && live == old(live)[p := Rounded(size)]
      ensures p == Free(old(chunks)) && chunks == Grow(old(chunks), Align(size))
      ensures TotalSize(chunks) == old(TotalSize(chunks)) + Align(size)
      ensures Aligned() ==> Even8(p)
    {
      p := Free(chunks);
      BlockAdded(chunks, live, memory.Length, Rounded(size));
      if Aligned() {
        AlignedAdded(chunks, live, size);
      }
      GrowTotal(chunks, Align(size));
      live := live[p := Rounded(size)];
      chunks := Grow(chunks, Align(size));
      assert Aligned() ==> AlignedBlock(p, live[p]);
    }

    /** A new block that overlaps no live block. */
    method Malloc(size: nat, offer: Option<nat>) returns (r: Option<nat>)
      requires Valid() && Honest(offer, size)
      modifies this`chunks, this`live
      ensures Valid()
      ensures r.None? <==> Refused(old(chunks), size, offer)
      ensures r.Some? ==> Taken(old(chunks), size, offer, r.value, chunks)
      ensures r.None? ==> chunks == old(chunks) && live == old(live)
      ensures r.Some? ==> r.value !in old(live) && live == old(live)[r.value := Rounded(size)]
      ensures r.Some? ==> TotalSize(chunks) == old(TotalSize(chunks)) + Align(size)
      ensures r.Some? && Aligned() ==> Even8(r.value)
    {
      if size == 0 {
        return None;
      }
      if NeedsChunk(Align(size)) {
        var ok := AddChunk(ChunkFor(Align(size)), offer);
        if !ok {
          return None;
        }
        assert chunks[1..] == old(chunks);
      }
      var p := Take(size);
      return Some(p);
    }

    /** `memcpy` between ranges that do not overlap. */
    method Copy(from: nat, to: nat, n: nat)
      requires from + n <= memory.Length && to + n <= memory.Length && (from + n <= to || to + n <= from)
      modifies memory
      ensures memory[to..to + n] == old(memory[from..from + n])
      ensures memory[..to] == old(memory[..to]) && memory[to + n..] == old(memory[to + n..])
    {
      ghost var before := memory[..];
      for i := 0 to n
        invariant forall a :: 0 <= a < memory.Length ==> memory[a] == Copied(before, from, to, i, a)
      {
        memory[to + i] := memory[from + i];
      }
    }

    // --- Reallocation ---

    /** The caller holds the block and knows its size. */
    ghost predicate Holds(p: nat, size: nat)
      reads this
    {
      p in live && live[p] == Rounded(size)
    }

    /** In place, exactly when the block is the last one and there is room behind it. */
    method Expand(p: nat, originalSize: nat, newSize: nat) returns (ok: bool)
      requires Valid() && Holds(p, originalSize) && Align(originalSize) < Align(newSize)
      modifies this`chunks, this`live
      ensures Valid()
      ensures ok <==> LastWithRoom(old(chunks), p, originalSize, newSize)
      ensures if ok then live == old(live)[p := Rounded(newSize)] else chunks == old(chunks) && live == old(live)
      ensures ok ==> chunks == Grow(old(chunks), Align(newSize) - Align(originalSize))
    {
      InsideLimit(chunks, live, memory.Length, p);
      var extra := Align(newSize) - Align(originalSize);
      if p + Align(originalSize) == Free(chunks) && chunks[0].size + extra <= chunks[0].capacity {
        BlockExtended(chunks, live, memory.Length, p, Rounded(newSize));
        if Aligned() {
          AlignedGrown(chunks, live, p, newSize);
        }
        live := live[p := Rounded(newSize)];
        chunks := Grow(chunks, extra);
        return true;
      }
      return false;
    }

    /** A new block that the caller fills with the old bytes; the old block is given up but not reused. */
    method Move(p: nat, originalSize: nat, newSize: nat, offer: Option<nat>) returns (r: Option<nat>)
      requires Valid() && Honest(offer, newSize) && Holds(p, originalSize) && Align(originalSize) < Align(newSize)
      modifies this`chunks, this`live, memory
      ensures Valid() && (r.None? <==> Refused(old(chunks), newSize, offer))
      ensures r.None? ==> chunks == old(chunks) && live == old(live) && memory[..] == old(memory[..])
      ensures r.Some? ==> Taken(old(chunks), newSize, offer, r.value, chunks)
      ensures r.Some? ==> r.value !in old(live) && live == (old(live) - {p})[r.value := Rounded(newSize)]
      ensures r.Some? ==> SameBytes(p, r.value, originalSize, old(memory[..]), memory[..])
      ensures OthersKept(old(live), p, old(memory[..]), memory[..])
    {
      NothingChanged(chunks, live, p, memory[..]);
      r := Malloc(newSize, offer);
      if r.Some? {
        MoveTo(p, r.value, originalSize, newSize, old(live));
      }
    }

    /** The second half of a move, to the new block `q`. */
    method MoveTo(p: nat, q: nat, originalSize: nat, newSize: nat, ghost before: Blocks)
      requires Valid() && p in before && q !in before && live == before[q := Rounded(newSize)]
      requires Holds(p, originalSize) && Align(originalSize) < Align(newSize)
      modifies this`live, memory
      ensures Valid() && live == (before - {p})[q := Rounded(newSize)]
      ensures SameBytes(p, q, originalSize, old(memory[..]), memory[..])
      ensures OthersKept(before, p, old(memory[..]), memory[..])
    {
      Fill(p, q, originalSize, newSize);
      OthersBefore(before, q, Rounded(newSize), p, old(memory[..]), memory[..]);
      GiveUp(p);
      PutElsewhere(before, p, q, Rounded(newSize));
    }

    ghost method GiveUp(p: nat)
      requires Valid()
      modifies this`live
      ensures Valid() && live == old(live) - {p}
    {
      FewerBlocks(chunks, live, p, memory.Length);
      live := live - {p};
    }

    method Fill(p: nat, q: nat, originalSize: nat, newSize: nat)
      requires Valid() && p != q && Holds(p, originalSize) && Holds(q, newSize) && Align(originalSize) < Align(newSize)
      modifies memory
      ensures SameBytes(p, q, originalSize, old(memory[..]), memory[..])
      ensures OthersKept(live, q, old(memory[..]), memory[..])
    {
      ghost var before := memory[..];
      var n := Align(originalSize);
      InsideLimit(chunks, live, memory.Length, p);
      InsideLimit(chunks, live, memory.Length, q);
      assert Separate(p, live[p], q, live[q]);
      Copy(p, q, n);
      Shorter(memory[..], q, n, originalSize);
      Shorter(before, p, n, originalSize);
      CopyMissesOthers(chunks, live, q, n, before, memory[..]);
    }

    /** The block stays where it is. */
    method Shrink(p: nat, originalSize: nat, newSize: nat)
      requires Valid() && Holds(p, originalSize) && 0 < Align(newSize) <= Align(originalSize)
      modifies this`live
      ensures Valid() && live == old(live)[p := Rounded(newSize)]
    {
      BlockShrunk(chunks, live, memory.Length, p, Rounded(newSize));
      if Aligned() {
        AlignedShrunk(chunks, live, p, newSize);
      }
      live := live[p := Rounded(newSize)];
    }

    /** Shrinks or expands the block in place, if that is possible. */
    method InPlace(p: nat, originalSize: nat, newSize: nat) returns (ok: bool)
      requires Valid() && Holds(p, originalSize) && newSize > 0
      modifies this`chunks, this`live
      ensures Valid()
      ensures live == if ok then old(live)[p := Rounded(newSize)] else old(live)
      ensures !ok ==> chunks == old(chunks) && Align(originalSize) < Align(newSize)
      ensures Align(newSize) <= Align(originalSize) ==> ok && chunks == old(chunks)
      ensures Align(originalSize) < Align(newSize) ==> (ok <==> LastWithRoom(old(chunks), p, originalSize, newSize))
      ensures ok && Align(originalSize) < Align(newSize) ==>
                chunks == Grow(old(chunks), Align(newSize) - Align(originalSize))
    {
      if Align(originalSize) >= Align(newSize) {
        Shrink(p, originalSize, newSize);
        return true;
      }
      ok := Expand(p, originalSize, newSize);
    }

    /** What a block that the caller holds becomes: it stays where it is when it need not grow, it grows in place
        exactly when it is the last one with room behind it, and otherwise a new block is taken for it, unless that
        is refused. */
    ghost predicate Reallocated(cs: seq<Chunk>, p: nat, originalSize: nat, newSize: nat, offer: Option<nat>,
                                r: Option<nat>, cs': seq<Chunk>)
    {
      if Align(newSize) <= Align(originalSize) then r == Some(p) && cs' == cs
      else if LastWithRoom(cs, p, originalSize, newSize) then
        r == Some(p) && cs' == Grow(cs, Align(newSize) - Align(originalSize))
      else if Refused(cs, newSize, offer) then r == None && cs' == cs
      else r.Some? && Taken(cs, newSize, offer, r.value, cs')
    }

    /** `Realloc` of a block that the caller holds. */
    method ReallocBlock(p: nat, originalSize: nat, newSize: nat, offer: Option<nat>) returns (r: Option<nat>)
      requires Valid() && Honest(offer, newSize) && Holds(p, originalSize) && newSize > 0
      modifies this`chunks, this`live, memory
      ensures Valid() && Reallocated(old(chunks), p, originalSize, newSize, offer, r, chunks)
      ensures r.None? ==> live == old(live) && memory[..] == old(memory[..])
      ensures r.Some? ==> live == (old(live) - {p})[r.value := Rounded(newSize)]
      ensures r.Some? ==> r.value == p || r.value !in old(live)
      ensures r.Some? ==> SameBytes(p, r.value, Least(originalSize, newSize), old(memory[..]), memory[..])
      ensures OthersKept(old(live), p, old(memory[..]), memory[..])
    {
      NothingChanged(chunks, live, p, memory[..]);
      InsideLimit(chunks, live, memory.Length, p);
      var ok := InPlace(p, originalSize, newSize);
      if ok {
        PutBack(old(live), p, Rounded(newSize));
        return Some(p);
      }
      assert originalSize < newSize;
      r := Move(p, originalSize, newSize, offer);
    }

    /** The block keeps its first bytes, wherever it ends up, and no other live block changes. */
    method Realloc(ptr: Option<nat>, originalSize: nat, newSize: nat, offer: Option<nat>) returns (r: Option<nat>)
      requires Valid() && Honest(offer, newSize) && (ptr.Some? ==> Holds(ptr.value, originalSize))
      modifies this`chunks, this`live, memory
      ensures Valid() && (r.None? ==> newSize == 0 || offer.None?)
      ensures r.None? ==> chunks == old(chunks) && live == old(live) && memory[..] == old(memory[..])
      ensures ptr.None? ==> (r.None? <==> Refused(old(chunks), newSize, offer))
      ensures ptr.None? && r.Some? ==> Taken(old(chunks), newSize, offer, r.value, chunks)
      ensures ptr.Some? ==>
                if newSize == 0 then r == None
                else Reallocated(old(chunks), ptr.value, originalSize, newSize, offer, r, chunks)
      ensures r.Some? && ptr.None? ==> r.value !in old(live) && live == old(live)[r.value := Rounded(newSize)]
      ensures r.Some? && ptr.Some? ==> live == (old(live) - {ptr.value})[r.value := Rounded(newSize)]
      ensures r.Some? && ptr.Some? ==> r == ptr || r.value !in old(live)
      ensures r.Some? && ptr.Some? ==>
                SameBytes(ptr.value, r.value, Least(originalSize, newSize), old(memory[..]), memory[..])
      ensures ptr.Some? ==> OthersKept(old(live), ptr.value, old(memory[..]), memory[..])
      ensures ptr.None? ==> memory[..] == old(memory[..])
    {
      if ptr.None? {
        r := Malloc(newSize, offer);
      } else if newSize == 0 {
        NothingChanged(chunks, live, ptr.value, memory[..]);
        r := None;
      } else {
        r := ReallocBlock(ptr.value, originalSize, newSize, offer);
      }
    }

    /** All chunks but the user's buffer go, and with them all blocks. */
    method Clear()
      requires Valid()
      modifies this`chunks, this`live
      ensures Valid() && live == map[]
      ensures chunks == if userBuffer.Some? then [old(chunks)[|old(chunks)| - 1].(size := 0)] else []
    {
      ghost var cs := chunks;
      ghost var k := 0;
      while chunks != [] && Some(chunks[0].addr) != userBuffer
        invariant k <= |cs| && chunks == cs[k..]
        invariant userBuffer.Some? ==> k < |cs|
        decreases |chunks|
      {
        assert cs[k] == chunks[0];
        chunks, k := chunks[1..], k + 1;
      }
      if chunks != [] {
        LastOnly(cs, memory.Length, k);
        assert chunks == [cs[k]];
        ClearedOk(cs, old(live), memory.Length);
        chunks := [chunks[0].(size := 0)];
      }
      live := map[];
    }
  }

  /** The head chunk has no room for `size` more bytes. */
  predicate Short(cs: seq<Chunk>, size: nat)
  {
    cs == [] || cs[0].size + size > cs[0].capacity
  }

  /** No block: none was asked for, or the base allocator has no memory where it is needed. */
  predicate Refused(cs: seq<Chunk>, size: nat, offer: Option<nat>)
  {
    size == 0 || (Short(cs, Align(size)) && offer.None?)
  }

  /** Block `p` is the last of the head chunk, and the chunk has room for it to grow. */
  predicate LastWithRoom(cs: seq<Chunk>, p: nat, originalSize: nat, newSize: nat)
  {
    && cs != [] && p + Align(originalSize) == Free(cs)
    && cs[0].size + (Align(newSize) - Align(originalSize)) <= cs[0].capacity
  }

  lemma PutElsewhere(live: Blocks, p: nat, q: nat, b: Block)
    requires p != q
    ensures live[q := b] - {p} == (live - {p})[q := b]
  {
  }

  lemma PutBack(live: Blocks, p: nat, b: Block)
    ensures (live - {p})[p := b] == live[p := b]
  {
  }

  lemma ClearedOk(cs: seq<Chunk>, live: Blocks, limit: nat)
    requires ChunksOk(cs, limit) && cs != []
    ensures PoolOk([cs[|cs| - 1].(size := 0)], map[], limit)
    ensures AlignedOk(cs, live) ==> AlignedOk([cs[|cs| - 1].(size := 0)], map[])
  {
    assert ChunkOk(cs[|cs| - 1], limit) && Even8(0);
    assert AlignedOk(cs, live) ==> AlignedChunk(cs[|cs| - 1]);
  }

  function Least(a: nat, b: nat): nat
  {
    if a < b then a else b
  }
}
