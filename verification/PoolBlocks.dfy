/** Chunks and blocks of the RapidJSON memory pool, as address ranges. */
module PoolBlocks {

  // --- Alignment ---

  predicate Even8(x: nat)
  {
    x % 8 == 0
  }

  /** `RAPIDJSON_ALIGN`: the next multiple of eight. */
  function Align(x: nat): (r: nat)
    ensures x <= r < x + 8 && Even8(r)
    ensures Even8(x) ==> r == x
  {
    (x + 7) / 8 * 8
  }

  lemma Multiple(a: nat)
    ensures Even8(8 * a)
  {
  }

  lemma Even8Sum(x: nat, y: nat)
    requires Even8(x) && Even8(y)
    ensures Even8(x + y)
    ensures x >= y ==> Even8(x - y)
  {
    var a, b := x / 8, y / 8;
    Multiple(a + b);
    assert x + y == 8 * (a + b);
    if x >= y {
      Multiple(a - b);
      assert x - y == 8 * (a - b);
    }
  }

  // --- Chunks ---

  /** `sizeof(ChunkHeader)`, a multiple of the alignment. */
  const HEADER: nat := 24

  /** A chunk at `addr`: its header, then `capacity` bytes of which `size` are in use. */
  datatype Chunk = Chunk(addr: nat, capacity: nat, size: nat)

  function Data(c: Chunk): nat
  {
    c.addr + HEADER
  }

  function End(c: Chunk): nat
  {
    c.addr + HEADER + c.capacity
  }

  ghost predicate ChunkOk(c: Chunk, limit: nat)
  {
    0 < c.addr && c.size <= c.capacity && End(c) <= limit
  }

  ghost predicate Apart(c: Chunk, d: Chunk)
  {
    End(c) <= d.addr || End(d) <= c.addr
  }

  ghost predicate ChunksOk(cs: seq<Chunk>, limit: nat)
  {
    && (forall i {:trigger ChunkOk(cs[i], limit)} :: 0 <= i < |cs| ==> ChunkOk(cs[i], limit))
    && (forall i, j {:trigger Apart(cs[i], cs[j])} :: 0 <= i < j < |cs| ==> Apart(cs[i], cs[j]))
  }

  // --- Live blocks, by address ---

  /** The client asked for `size` bytes and owns `room`. */
  datatype Block = Block(size: nat, room: nat)

  type Blocks = map<nat, Block>

  function Rounded(size: nat): Block
  {
    Block(size, Align(size))
  }

  /** The range lies in the part of the chunk that is in use. */
  ghost predicate InUse(c: Chunk, p: nat, room: nat)
  {
    Data(c) <= p && p + room <= Data(c) + c.size
  }

  ghost predicate Housed(cs: seq<Chunk>, p: nat, room: nat)
  {
    exists i :: 0 <= i < |cs| && InUse(cs[i], p, room)
  }

  ghost predicate BlockOk(cs: seq<Chunk>, p: nat, b: Block)
  {
    0 < b.room && b.size <= b.room && Housed(cs, p, b.room)
  }

  ghost predicate Separate(p: nat, b: Block, q: nat, c: Block)
  {
    p + b.room <= q || q + c.room <= p
  }

  /** Live blocks are in use and do not overlap. */
  ghost predicate LiveOk(cs: seq<Chunk>, live: Blocks)
  {
    && (forall p {:trigger BlockOk(cs, p, live[p])} :: p in live ==> BlockOk(cs, p, live[p]))
    && (forall p, q {:trigger Separate(p, live[p], q, live[q])} ::
          p in live && q in live && p != q ==> Separate(p, live[p], q, live[q]))
  }

  ghost predicate PoolOk(cs: seq<Chunk>, live: Blocks, limit: nat)
  {
    ChunksOk(cs, limit) && LiveOk(cs, live)
  }

  /** Chunks and blocks start at multiples of eight. */
  ghost predicate AlignedOk(cs: seq<Chunk>, live: Blocks)
  {
    && (forall i {:trigger AlignedChunk(cs[i])} :: 0 <= i < |cs| ==> AlignedChunk(cs[i]))
    && (forall p {:trigger AlignedBlock(p, live[p])} :: p in live ==> AlignedBlock(p, live[p]))
  }

  ghost predicate AlignedChunk(c: Chunk)
  {
    Even8(c.addr) && Even8(c.size)
  }

  ghost predicate AlignedBlock(p: nat, b: Block)
  {
    Even8(p) && Even8(b.room)
  }

  // --- Growing the head chunk ---

  function Grow(cs: seq<Chunk>, n: nat): seq<Chunk>
    requires cs != []
  {
    [cs[0].(size := cs[0].size + n)] + cs[1..]
  }

  /** Where the free part of the head chunk starts. */
  function Free(cs: seq<Chunk>): nat
    requires cs != []
  {
    Data(cs[0]) + cs[0].size
  }

  lemma GrowChunks(cs: seq<Chunk>, n: nat, limit: nat)
    requires ChunksOk(cs, limit) && cs != [] && cs[0].size + n <= cs[0].capacity
    ensures ChunksOk(Grow(cs, n), limit)
  {
    var cs' := Grow(cs, n);
    forall i | 0 <= i < |cs'|
      ensures ChunkOk(cs'[i], limit)
    {
      assert ChunkOk(cs[i], limit);
    }
    forall i, j | 0 <= i < j < |cs'|
      ensures Apart(cs'[i], cs'[j])
    {
      assert Apart(cs[i], cs[j]);
    }
  }

  lemma GrowHouses(cs: seq<Chunk>, n: nat, p: nat, room: nat)
    requires cs != [] && Housed(cs, p, room)
    ensures Housed(Grow(cs, n), p, room)
  {
    var i :| 0 <= i < |cs| && InUse(cs[i], p, room);
    assert InUse(Grow(cs, n)[i], p, room);
  }

  /** What is in use ends before the free part of the head chunk, or starts after the chunk. */
  lemma FreeIsFree(cs: seq<Chunk>, limit: nat, p: nat, room: nat)
    requires ChunksOk(cs, limit) && cs != [] && Housed(cs, p, room)
    ensures p + room <= Free(cs) || End(cs[0]) <= p
  {
    var i :| 0 <= i < |cs| && InUse(cs[i], p, room);
    assert ChunkOk(cs[i], limit) && ChunkOk(cs[0], limit);
    assert i > 0 ==> Apart(cs[0], cs[i]);
  }

  /** One block put in, all others as before, and the head chunk grown by `n`. */
  lemma BlockPut(cs: seq<Chunk>, live: Blocks, limit: nat, n: nat, p: nat, b: Block)
    requires PoolOk(cs, live, limit) && cs != [] && cs[0].size + n <= cs[0].capacity
    requires BlockOk(Grow(cs, n), p, b) && forall q :: q in live && q != p ==> Separate(q, live[q], p, b)
    ensures PoolOk(Grow(cs, n), live[p := b], limit)
  {
    GrowChunks(cs, n, limit);
    forall q | q in live && q != p
      ensures BlockOk(Grow(cs, n), q, live[q])
    {
      assert BlockOk(cs, q, live[q]);
      GrowHouses(cs, n, q, live[q].room);
    }
  }

  /** Handing out the free part of the head chunk. */
  lemma BlockAdded(cs: seq<Chunk>, live: Blocks, limit: nat, b: Block)
    requires PoolOk(cs, live, limit) && cs != [] && 0 < b.room && b.size <= b.room
    requires cs[0].size + b.room <= cs[0].capacity
    ensures Free(cs) !in live && PoolOk(Grow(cs, b.room), live[Free(cs) := b], limit)
  {
    var p := Free(cs);
    forall q | q in live
      ensures q != p && Separate(q, live[q], p, b)
    {
      assert BlockOk(cs, q, live[q]);
      FreeIsFree(cs, limit, q, live[q].room);
    }
    assert InUse(Grow(cs, b.room)[0], p, b.room);
    BlockPut(cs, live, limit, b.room, p, b);
  }

  /** A block that ends where the head chunk's used part ends is in the head chunk. */
  lemma LastInHead(cs: seq<Chunk>, limit: nat, p: nat, room: nat)
    requires ChunksOk(cs, limit) && cs != [] && Housed(cs, p, room) && room > 0 && p + room == Free(cs)
    ensures InUse(cs[0], p, room)
  {
    var i :| 0 <= i < |cs| && InUse(cs[i], p, room);
    assert ChunkOk(cs[i], limit) && ChunkOk(cs[0], limit);
    assert i > 0 ==> Apart(cs[0], cs[i]);
  }

  /** Extending the last block in place reaches only free space. */
  lemma BlockExtended(cs: seq<Chunk>, live: Blocks, limit: nat, p: nat, b: Block)
    requires PoolOk(cs, live, limit) && cs != [] && p in live && live[p].room <= b.room && b.size <= b.room
    requires p + live[p].room == Free(cs) && cs[0].size + (b.room - live[p].room) <= cs[0].capacity
    ensures PoolOk(Grow(cs, b.room - live[p].room), live[p := b], limit)
  {
    var extra := b.room - live[p].room;
    assert BlockOk(cs, p, live[p]);
    LastInHead(cs, limit, p, live[p].room);
    assert InUse(Grow(cs, extra)[0], p, b.room);
    forall q | q in live && q != p
      ensures Separate(q, live[q], p, b)
    {
      assert BlockOk(cs, q, live[q]) && Separate(p, live[p], q, live[q]);
      FreeIsFree(cs, limit, q, live[q].room);
    }
    BlockPut(cs, live, limit, extra, p, b);
  }

  /** A block may be replaced by one that needs no more room. */
  lemma BlockShrunk(cs: seq<Chunk>, live: Blocks, limit: nat, p: nat, b: Block)
    requires PoolOk(cs, live, limit) && p in live && 0 < b.room <= live[p].room && b.size <= b.room
    ensures PoolOk(cs, live[p := b], limit)
  {
    assert BlockOk(cs, p, live[p]);
    var i :| 0 <= i < |cs| && InUse(cs[i], p, live[p].room);
    assert InUse(cs[i], p, b.room);
    forall q | q in live && q != p
      ensures BlockOk(cs, q, live[q]) && Separate(q, live[q], p, b)
    {
      assert Separate(p, live[p], q, live[q]);
    }
  }

  // --- Adding a chunk ---

  /** A region that the base allocator may return. */
  ghost predicate Offered(cs: seq<Chunk>, limit: nat, addr: nat, capacity: nat)
  {
    && Even8(addr) && ChunkOk(Chunk(addr, capacity, 0), limit)
    && forall i :: 0 <= i < |cs| ==> Apart(Chunk(addr, capacity, 0), cs[i])
  }

  lemma ChunkAdded(cs: seq<Chunk>, live: Blocks, limit: nat, addr: nat, capacity: nat)
    requires PoolOk(cs, live, limit) && Offered(cs, limit, addr, capacity)
    ensures PoolOk([Chunk(addr, capacity, 0)] + cs, live, limit)
  {
    var cs' := [Chunk(addr, capacity, 0)] + cs;
    forall p | p in live
      ensures BlockOk(cs', p, live[p])
    {
      assert BlockOk(cs, p, live[p]);
      var i :| 0 <= i < |cs| && InUse(cs[i], p, live[p].room);
      assert InUse(cs'[i + 1], p, live[p].room);
    }
  }

  lemma FewerBlocks(cs: seq<Chunk>, live: Blocks, p: nat, limit: nat)
    requires PoolOk(cs, live, limit)
    ensures PoolOk(cs, live - {p}, limit) && (AlignedOk(cs, live) ==> AlignedOk(cs, live - {p}))
  {
    var live' := live - {p};
    forall a | a in live'
      ensures BlockOk(cs, a, live'[a]) && (AlignedOk(cs, live) ==> AlignedBlock(a, live'[a]))
    {
      assert BlockOk(cs, a, live[a]) && (AlignedOk(cs, live) ==> AlignedBlock(a, live[a]));
    }
    forall a, b | a in live' && b in live' && a != b
      ensures Separate(a, live'[a], b, live'[b])
    {
      assert Separate(a, live[a], b, live[b]);
    }
  }

  lemma InsideLimit(cs: seq<Chunk>, live: Blocks, limit: nat, p: nat)
    requires PoolOk(cs, live, limit) && p in live
    ensures cs != [] && 0 < p && p + live[p].room <= limit
  {
    assert BlockOk(cs, p, live[p]);
    var i :| 0 <= i < |cs| && InUse(cs[i], p, live[p].room);
    assert ChunkOk(cs[i], limit);
  }

  /** Handing out the free part keeps everything aligned. */
  lemma AlignedAdded(cs: seq<Chunk>, live: Blocks, size: nat)
    requires AlignedOk(cs, live) && cs != []
    ensures AlignedOk(Grow(cs, Align(size)), live[Free(cs) := Rounded(size)])
  {
    assert AlignedChunk(cs[0]);
    Even8Sum(cs[0].size, Align(size));
    assert Even8(HEADER);
    Even8Sum(cs[0].addr, HEADER);
    Even8Sum(Data(cs[0]), cs[0].size);
    AlignedPut(cs, live, Align(size), Free(cs), size);
  }

  lemma AlignedPut(cs: seq<Chunk>, live: Blocks, n: nat, p: nat, size: nat)
    requires AlignedOk(cs, live) && cs != [] && Even8(cs[0].size + n) && Even8(p)
    ensures AlignedOk(Grow(cs, n), live[p := Rounded(size)])
  {
    var cs', live' := Grow(cs, n), live[p := Rounded(size)];
    forall i | 0 <= i < |cs'|
      ensures AlignedChunk(cs'[i])
    {
      assert AlignedChunk(cs[i]);
    }
    forall q | q in live'
      ensures AlignedBlock(q, live'[q])
    {
      assert q != p ==> AlignedBlock(q, live[q]);
    }
  }

  lemma AlignedGrown(cs: seq<Chunk>, live: Blocks, p: nat, size: nat)
    requires AlignedOk(cs, live) && cs != [] && p in live && live[p].room <= Align(size)
    ensures AlignedOk(Grow(cs, Align(size) - live[p].room), live[p := Rounded(size)])
  {
    assert AlignedBlock(p, live[p]) && AlignedChunk(cs[0]);
    Even8Sum(Align(size), live[p].room);
    Even8Sum(cs[0].size, Align(size) - live[p].room);
    AlignedPut(cs, live, Align(size) - live[p].room, p, size);
  }

  lemma AlignedShrunk(cs: seq<Chunk>, live: Blocks, p: nat, size: nat)
    requires AlignedOk(cs, live) && p in live
    ensures AlignedOk(cs, live[p := Rounded(size)])
  {
    var live' := live[p := Rounded(size)];
    forall q | q in live'
      ensures AlignedBlock(q, live'[q])
    {
      assert AlignedBlock(q, live[q]);
    }
  }

  // --- Totals ---

  function TotalSize(cs: seq<Chunk>): nat
  {
    if cs == [] then 0 else cs[0].size + TotalSize(cs[1..])
  }

  function TotalCapacity(cs: seq<Chunk>): nat
  {
    if cs == [] then 0 else cs[0].capacity + TotalCapacity(cs[1..])
  }

  lemma {:induction false} SizeWithinCapacity(cs: seq<Chunk>, limit: nat)
    requires ChunksOk(cs, limit)
    ensures TotalSize(cs) <= TotalCapacity(cs)
    decreases |cs|
  {
    if cs != [] {
      assert ChunkOk(cs[0], limit);
      forall i, j | 0 <= i < j < |cs[1..]|
        ensures Apart(cs[1..][i], cs[1..][j])
      {
        assert Apart(cs[i + 1], cs[j + 1]);
      }
      SizeWithinCapacity(cs[1..], limit);
    }
  }

  lemma GrowTotal(cs: seq<Chunk>, n: nat)
    requires cs != []
    ensures TotalSize(Grow(cs, n)) == TotalSize(cs) + n
  {
    assert Grow(cs, n)[1..] == cs[1..];
  }

  /** The chunk at the address of the last one is the last one. */
  lemma LastOnly(cs: seq<Chunk>, limit: nat, i: nat)
    requires ChunksOk(cs, limit) && i < |cs| && cs[i].addr == cs[|cs| - 1].addr
    ensures i == |cs| - 1
  {
    assert i < |cs| - 1 ==> Apart(cs[i], cs[|cs| - 1]);
  }
}
