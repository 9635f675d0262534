/** `rapidjson::MemoryPoolAllocator`: bump allocation in the head of a list of
    chunks.  Addresses are numbers; the base allocator answers a request with
    some free, aligned address range or not at all. */
module MemoryPool {

  const SIZEOF_SHARED_DATA: nat := 32
  const SIZEOF_CHUNK_HEADER: nat := 24
  const SIZE_MAX: nat := 0xFFFF_FFFF_FFFF_FFFF

  /** `RAPIDJSON_ALIGN`, for sizes that do not wrap around. */
  function Align(size: nat): (r: nat)
    ensures size <= r < size + 8 && r % 8 == 0
  {
    (size + 7) / 8 * 8
  }

  /** Sums and `RAPIDJSON_ALIGN` as the code computes them. */
  function Sum64(x: nat, y: nat): nat { (x + y) % (SIZE_MAX + 1) }
  function Align64(size: nat): nat { Sum64(size, 7) / 8 * 8 }

  lemma Sum64Cases(x: nat, y: nat)
    requires x <= SIZE_MAX && y <= SIZE_MAX
    ensures Sum64(x, y) == if x + y <= SIZE_MAX then x + y else x + y - (SIZE_MAX + 1)
  {
  }

  /** Aligning never shrinks a size, except that the seven largest become 0. */
  lemma Align64Exactly(size: nat)
    requires size <= SIZE_MAX
    ensures Align64(size) == if size <= SIZE_MAX - 7 then Align(size) else 0
    ensures Align64(size) >= size <==> size <= SIZE_MAX - 7
  {
    Sum64Cases(size, 7);
  }

  datatype Option<T> = None | Some(value: T)

  /** `capacity` and `size` exclude the header, which lies at `base`. */
  datatype Chunk = Chunk(base: nat, capacity: nat, size: nat) {
    function Buffer(): nat { base + SIZEOF_CHUNK_HEADER }
    function End(): nat { Buffer() + capacity }
  }

  /** A block handed out; `extent` is the aligned size it occupies. */
  datatype Block = Block(addr: nat, extent: nat)

  ghost predicate Apart(p: nat, m: nat, q: nat, n: nat) {
    p + m <= q || q + n <= p
  }

  /** `bs` are non-empty, aligned and fill [addr, addr + size) without gaps. */
  ghost predicate Tiles(bs: seq<Block>, addr: nat, size: nat) {
    if bs == [] then size == 0
    else
      var b := bs[0];
      b.addr == addr && 0 < b.extent <= size && b.extent % 8 == 0 &&
      Tiles(bs[1..], addr + b.extent, size - b.extent)
  }

  ghost predicate ChunkOk(c: Chunk, bs: seq<Block>) {
    c.base % 8 == 0 && c.size <= c.capacity && c.End() <= SIZE_MAX && Tiles(bs, c.Buffer(), c.size)
  }

  /** The head chunk comes first; `blocks[i]` are the blocks of `chunks[i]`. */
  ghost predicate PoolOk(chunks: seq<Chunk>, blocks: seq<seq<Block>>) {
    |chunks| == |blocks| > 0 &&
    (forall i :: 0 <= i < |chunks| ==> ChunkOk(chunks[i], blocks[i])) &&
    (forall i, j :: 0 <= i < j < |chunks| ==> ChunksApart(chunks[i], chunks[j]))
  }

  ghost predicate ChunksApart(c: Chunk, d: Chunk) {
    Apart(c.base, SIZEOF_CHUNK_HEADER + c.capacity, d.base, SIZEOF_CHUNK_HEADER + d.capacity)
  }

  // ----- Facts about one chunk -----

  lemma {:induction false} TileInside(bs: seq<Block>, addr: nat, size: nat, k: nat)
    requires Tiles(bs, addr, size) && k < |bs|
    ensures addr <= bs[k].addr && bs[k].addr + bs[k].extent <= addr + size && bs[k].extent > 0
    ensures addr % 8 == 0 ==> bs[k].addr % 8 == 0
    ensures k == |bs| - 1 <==> bs[k].addr + bs[k].extent == addr + size
  {
    if k > 0 {
      TileInside(bs[1..], addr + bs[0].extent, size - bs[0].extent, k - 1);
    } else if |bs| > 1 {
      TileInside(bs[1..], addr + bs[0].extent, size - bs[0].extent, 0);
    } else {
      assert bs[1..] == [];
    }
  }

  lemma {:induction false} TilesApart(bs: seq<Block>, addr: nat, size: nat, k: nat, l: nat)
    requires Tiles(bs, addr, size) && k < l < |bs|
    ensures bs[k].addr + bs[k].extent <= bs[l].addr
  {
    if k > 0 {
      TilesApart(bs[1..], addr + bs[0].extent, size - bs[0].extent, k - 1, l - 1);
    } else {
      TileInside(bs[1..], addr + bs[0].extent, size - bs[0].extent, l - 1);
    }
  }

  lemma {:induction false} TileAppend(bs: seq<Block>, addr: nat, size: nat, extent: nat)
    requires Tiles(bs, addr, size) && extent > 0 && extent % 8 == 0
    ensures Tiles(bs + [Block(addr + size, extent)], addr, size + extent)
  {
    var b := Block(addr + size, extent);
    if bs == [] {
      assert (bs + [b])[1..] == [];
    } else {
      assert (bs + [b])[1..] == bs[1..] + [b];
      TileAppend(bs[1..], addr + bs[0].extent, size - bs[0].extent, extent);
    }
  }

  /** Growing the last block in place. */
  lemma {:induction false} TileGrow(bs: seq<Block>, addr: nat, size: nat, increment: nat)
    requires Tiles(bs, addr, size) && bs != [] && increment % 8 == 0
    ensures var last := bs[|bs| - 1];
      Tiles(bs[|bs| - 1 := Block(last.addr, last.extent + increment)], addr, size + increment)
  {
    var n := |bs| - 1;
    var b := Block(bs[n].addr, bs[n].extent + increment);
    if n == 0 {
      assert bs[n := b][1..] == [] && bs[1..] == [];
    } else {
      assert bs[n := b][1..] == bs[1..][n - 1 := b];
      TileGrow(bs[1..], addr + bs[0].extent, size - bs[0].extent, increment);
    }
  }

  ghost function Extents(bs: seq<Block>): nat {
    if bs == [] then 0 else bs[0].extent + Extents(bs[1..])
  }

  lemma {:induction false} TileSum(bs: seq<Block>, addr: nat, size: nat)
    requires Tiles(bs, addr, size)
    ensures Extents(bs) == size
  {
    if bs != [] {
      TileSum(bs[1..], addr + bs[0].extent, size - bs[0].extent);
    }
  }

  // ----- Facts about the whole pool -----

  /** All blocks are aligned, inside their chunks and pairwise disjoint. */
  lemma BlocksAreSeparate(chunks: seq<Chunk>, blocks: seq<seq<Block>>, i: nat, k: nat, j: nat, l: nat)
    requires PoolOk(chunks, blocks) && i < |blocks| && k < |blocks[i]| && j < |blocks| && l < |blocks[j]|
    ensures var b, c := blocks[i][k], blocks[j][l];
      b.addr % 8 == 0 && b.extent > 0 &&
      chunks[i].Buffer() <= b.addr && b.addr + b.extent <= chunks[i].End() &&
      (i != j || k != l ==> Apart(b.addr, b.extent, c.addr, c.extent))
  {
    TileInside(blocks[i], chunks[i].Buffer(), chunks[i].size, k);
    TileInside(blocks[j], chunks[j].Buffer(), chunks[j].size, l);
    if i == j && k < l {
      TilesApart(blocks[i], chunks[i].Buffer(), chunks[i].size, k, l);
    } else if i == j && l < k {
      TilesApart(blocks[i], chunks[i].Buffer(), chunks[i].size, l, k);
    }
    hide Tiles;
    if i < j {
      assert ChunksApart(chunks[i], chunks[j]);
    } else if j < i {
      assert ChunksApart(chunks[j], chunks[i]);
    }
  }

  ghost function UsedSize(chunks: seq<Chunk>): nat {
    if chunks == [] then 0 else chunks[0].size + UsedSize(chunks[1..])
  }

  ghost function TotalCapacity(chunks: seq<Chunk>): nat {
    if chunks == [] then 0 else chunks[0].capacity + TotalCapacity(chunks[1..])
  }

  ghost function AllExtents(blocks: seq<seq<Block>>): nat {
    if blocks == [] then 0 else Extents(blocks[0]) + AllExtents(blocks[1..])
  }

  lemma {:induction false} SizesAddUp(chunks: seq<Chunk>, blocks: seq<seq<Block>>)
    requires |chunks| == |blocks| && forall i :: 0 <= i < |chunks| ==> ChunkOk(chunks[i], blocks[i])
    ensures UsedSize(chunks) == AllExtents(blocks) <= TotalCapacity(chunks)
  {
    if chunks != [] {
      TileSum(blocks[0], chunks[0].Buffer(), chunks[0].size);
      SizesAddUp(chunks[1..], blocks[1..]);
    }
  }

  /** The test for "last allocation": with a size that does not exceed the
      block, it succeeds exactly for the last block of the head chunk at its
      full extent, wherever the chunks lie. */
  lemma LastAllocationExactly(chunks: seq<Chunk>, blocks: seq<seq<Block>>, i: nat, k: nat, originalSize: nat)
    requires PoolOk(chunks, blocks) && i < |blocks| && k < |blocks[i]|
    requires originalSize <= blocks[i][k].extent
    ensures blocks[i][k].addr + originalSize == chunks[0].Buffer() + chunks[0].size <==>
      i == 0 && k == |blocks[0]| - 1 && originalSize == blocks[i][k].extent
  {
    TileInside(blocks[i], chunks[i].Buffer(), chunks[i].size, k);
    if i > 0 {
      assert ChunksApart(chunks[0], chunks[i]);
    }
  }

  // ----- When `Malloc` hands out as many bytes as it was asked for -----

  function Larger(x: nat, y: nat): nat { if x > y then x else y }
  function Smaller(x: nat, y: nat): nat { if x < y then x else y }

  /** The test for a new chunk. */
  predicate NeedsChunk(head: Chunk, size: nat) {
    Sum64(head.size, Align64(size)) > head.capacity
  }

  /** The bytes that `AddChunk` asks for. */
  function RequestFor(chunkCapacity: nat, size: nat): nat {
    Sum64(SIZEOF_CHUNK_HEADER, Larger(chunkCapacity, Align64(size)))
  }

  /** `size` bytes from the returned pointer on lie in the head chunk, or in the
      bytes obtained for a new one. */
  predicate HandsOut(head: Chunk, chunkCapacity: nat, size: nat) {
    if NeedsChunk(head, size) then SIZEOF_CHUNK_HEADER + size <= RequestFor(chunkCapacity, size)
    else head.size + size <= head.capacity
  }

  /** No alignment and no sum wraps around on the way. */
  predicate Exact(head: Chunk, chunkCapacity: nat, size: nat) {
    size <= SIZE_MAX - 7 && head.size + Align(size) <= SIZE_MAX &&
    (head.size + Align(size) > head.capacity ==>
      SIZEOF_CHUNK_HEADER + Larger(chunkCapacity, Align(size)) <= SIZE_MAX)
  }

  lemma HandsOutExactly(head: Chunk, chunkCapacity: nat, size: nat)
    requires head.size <= head.capacity && head.End() <= SIZE_MAX
    requires chunkCapacity <= SIZE_MAX && 0 < size <= SIZE_MAX
    ensures HandsOut(head, chunkCapacity, size) <==> Exact(head, chunkCapacity, size)
    ensures Exact(head, chunkCapacity, size) ==>
      Align64(size) == Align(size) && (NeedsChunk(head, size) <==> head.size + Align(size) > head.capacity)
  {
    hide Align, Align64, Sum64;
    Align64Exactly(size);
    Sum64Cases(head.size, Align64(size));
    Sum64Cases(SIZEOF_CHUNK_HEADER, Larger(chunkCapacity, Align64(size)));
  }

  /** The largest size gets a pointer to no bytes at all, without any request. */
  lemma LargestSizeAlignsToZero(head: Chunk, chunkCapacity: nat)
    requires head.size <= head.capacity && head.End() <= SIZE_MAX
    ensures Align64(SIZE_MAX) == 0 && !NeedsChunk(head, SIZE_MAX) && !HandsOut(head, chunkCapacity, SIZE_MAX)
  {
    Align64Exactly(SIZE_MAX);
  }

  // ----- What the operations do to the pool -----

  predicate FitsHead(head: Chunk, aligned: nat) {
    head.size + aligned <= head.capacity
  }

  /** Block `b` is at the end of the head chunk if it fits there, and otherwise
      alone in a new chunk of `capacity` bytes at the answered address. */
  ghost predicate Serves(c0: seq<Chunk>, b0: seq<seq<Block>>, c1: seq<Chunk>, b1: seq<seq<Block>>,
                         capacity: nat, answer: Option<nat>, b: Block)
    requires c0 != [] && b0 != []
  {
    if FitsHead(c0[0], b.extent) then
      b.addr == c0[0].Buffer() + c0[0].size &&
      c1 == c0[0 := c0[0].(size := c0[0].size + b.extent)] && b1 == b0[0 := b0[0] + [b]]
    else
      answer.Some? && b.addr == answer.value + SIZEOF_CHUNK_HEADER &&
      c1 == [Chunk(answer.value, capacity, b.extent)] + c0 && b1 == [[b]] + b0
  }

  /** Room first, then the block. */
  lemma RoomThenBlock(c0: seq<Chunk>, b0: seq<seq<Block>>, c1: seq<Chunk>, b1: seq<seq<Block>>,
                      capacity: nat, answer: Option<nat>, aligned: nat)
    requires c0 != [] && b0 != [] && aligned > 0
    requires FitsHead(c0[0], aligned) ==> c1 == c0 && b1 == b0
    requires !FitsHead(c0[0], aligned) ==>
      answer.Some? && c1 == [Chunk(answer.value, capacity, 0)] + c0 && b1 == [[]] + b0
    ensures var c := c1[0];
      var b := Block(c.Buffer() + c.size, aligned);
      Serves(c0, b0, c1[0 := c.(size := c.size + aligned)], b1[0 := b1[0] + [b]], capacity, answer, b)
  {
    if !FitsHead(c0[0], aligned) {
      var b := Block(c1[0].Buffer() + c1[0].size, aligned);
      assert [] + [b] == [b] && b1[0] == [];
      assert b1[0 := [b]] == [[b]] + b0;
    }
  }

  /** Block (i, k) is the last one of the head chunk, at its full extent. */
  ghost predicate IsLast(blocks: seq<seq<Block>>, i: nat, k: nat, extent: nat) {
    i == 0 && blocks != [] && k < |blocks[0]| && k == |blocks[0]| - 1 && blocks[0][k].extent == extent
  }

  /** ... and can grow to `newAligned` bytes. */
  ghost predicate InPlace(chunks: seq<Chunk>, blocks: seq<seq<Block>>, i: nat, k: nat,
                          oldAligned: nat, newAligned: nat)
  {
    IsLast(blocks, i, k, oldAligned) && chunks != [] && oldAligned <= newAligned &&
    FitsHead(chunks[0], newAligned - oldAligned)
  }

  /** The last block of the head chunk grows by `increment` where it is. */
  ghost predicate Grows(c0: seq<Chunk>, b0: seq<seq<Block>>, c1: seq<Chunk>, b1: seq<seq<Block>>, increment: nat)
    requires c0 != [] && b0 != [] && b0[0] != []
  {
    var last := |b0[0]| - 1;
    c1 == c0[0 := c0[0].(size := c0[0].size + increment)] &&
    b1 == b0[0 := b0[0][last := Block(b0[0][last].addr, b0[0][last].extent + increment)]]
  }

  class Pool {
    var chunks: seq<Chunk>
    var chunkCapacity: nat
    var memory: nat -> bv8
    ghost var blocks: seq<seq<Block>>

    ghost predicate Valid()
      reads this
    {
      PoolOk(chunks, blocks) && chunkCapacity <= SIZE_MAX
    }

    /** The base allocator may answer with this address to a request for
        `size` bytes. */
    ghost predicate Offers(address: Option<nat>, size: nat)
      reads this
    {
      address.Some? ==>
        address.value % 8 == 0 && address.value + size <= SIZE_MAX &&
        forall i :: 0 <= i < |chunks| ==>
          Apart(address.value, size, chunks[i].base, SIZEOF_CHUNK_HEADER + chunks[i].capacity)
    }

    /** The pool owns the block at `addr`. */
    ghost predicate Owns(i: nat, k: nat, addr: nat, size: nat)
      reads this
    {
      i < |blocks| && k < |blocks[i]| && blocks[i][k].addr == addr && size <= blocks[i][k].extent
    }

    /** Without a user buffer: an empty first chunk behind the shared data. */
    constructor (shared: nat, chunkSize: nat, memory: nat -> bv8)
      requires chunkSize <= SIZE_MAX && shared % 8 == 0 && shared + SIZEOF_SHARED_DATA + SIZEOF_CHUNK_HEADER <= SIZE_MAX
      ensures Valid() && blocks == [[]] && chunkCapacity == chunkSize && this.memory == memory
    {
      chunks := [Chunk(shared + SIZEOF_SHARED_DATA, 0, 0)];
      chunkCapacity, this.memory, blocks := chunkSize, memory, [[]];
    }

    /** With a user buffer, which is aligned first. */
    constructor FromBuffer(buffer: nat, size: nat, chunkSize: nat, memory: nat -> bv8)
      requires buffer + size <= SIZE_MAX && chunkSize <= SIZE_MAX
      requires Align(buffer) - buffer + SIZEOF_SHARED_DATA + SIZEOF_CHUNK_HEADER <= size
      ensures Valid() && blocks == [[]] && chunkCapacity == chunkSize && this.memory == memory
      ensures buffer <= chunks[0].base && chunks[0].End() == buffer + size
    {
      var aligned := Align(buffer);
      var rest := size - (aligned - buffer);
      chunks := [Chunk(aligned + SIZEOF_SHARED_DATA, rest - SIZEOF_SHARED_DATA - SIZEOF_CHUNK_HEADER, 0)];
      chunkCapacity, this.memory, blocks := chunkSize, memory, [[]];
    }

    /** `Clear`: all chunks but the first one are returned. */
    method Clear()
      requires Valid()
      modifies this
      ensures Valid() && blocks == [[]]
      ensures chunks == [old(chunks)[|old(chunks)| - 1].(size := 0)]
      ensures memory == old(memory) && chunkCapacity == old(chunkCapacity)
    {
      while |chunks| > 1
        invariant 0 < |chunks| <= |old(chunks)| && chunks == old(chunks)[|old(chunks)| - |chunks|..]
        invariant memory == old(memory) && chunkCapacity == old(chunkCapacity)
        decreases |chunks|
      {
        chunks := chunks[1..];
      }
      assert ChunkOk(chunks[0], old(blocks)[|old(blocks)| - 1]);
      chunks := [chunks[0].(size := 0)];
      blocks := [[]];
    }

    method Size() returns (size: nat)
      requires Valid()
      ensures size == AllExtents(blocks) <= TotalCapacity(chunks)
    {
      SizesAddUp(chunks, blocks);
      size := 0;
      for i := 0 to |chunks|
        invariant size + UsedSize(chunks[i..]) == UsedSize(chunks)
      {
        assert chunks[i..][1..] == chunks[i + 1..];
        size := size + chunks[i].size;
      }
      assert chunks[|chunks|..] == [];
    }

    method Capacity() returns (capacity: nat)
      ensures capacity == TotalCapacity(chunks)
    {
      capacity := 0;
      for i := 0 to |chunks|
        invariant capacity + TotalCapacity(chunks[i..]) == TotalCapacity(chunks)
      {
        assert chunks[i..][1..] == chunks[i + 1..];
        capacity := capacity + chunks[i].capacity;
      }
      assert chunks[|chunks|..] == [];
    }

    /** `AddChunk` */
    method AddChunk(capacity: nat, answer: Option<nat>) returns (ok: bool)
      requires Valid() && Offers(answer, SIZEOF_CHUNK_HEADER + capacity)
      modifies this`chunks, this`blocks
      ensures Valid() && ok == answer.Some?
      ensures chunks == (if ok then [Chunk(answer.value, capacity, 0)] else []) + old(chunks)
      ensures blocks == (if ok then [[]] else []) + old(blocks)
    {
      if answer.None? {
        return false;
      }
      var c := Chunk(answer.value, capacity, 0);
      ChunkPrepended(chunks, blocks, c);
      hide PoolOk;
      chunks := [c] + chunks;
      blocks := [[]] + blocks;
      return true;
    }

    ghost predicate NoWrap(size: nat)
      reads this
      requires Valid()
    {
      Exact(chunks[0], chunkCapacity, size)
    }

    /** `Malloc`.  A non-empty request that succeeds adds one block at the end
        of the head chunk and leaves every other block alone.  `short` means
        that the code returns a pointer to fewer than `size` bytes of the pool;
        the model stops before that. */
    method Malloc(size: nat, answer: Option<nat>) returns (r: Option<nat>, short: bool)
      requires Valid() && size <= SIZE_MAX && Offers(answer, RequestFor(chunkCapacity, size))
      modifies this`chunks, this`blocks
      ensures Valid()
      ensures short <==>
        size > 0 && !old(NoWrap(size)) && (NeedsChunk(old(chunks)[0], size) ==> answer.Some?)
      ensures size == 0 || short ==> r == None && chunks == old(chunks)
      ensures r.None? ==> blocks == old(blocks) && (size > 0 && !short ==> answer == None)
      ensures r.Some? ==> size > 0 && blocks != [] && blocks[0] != []
      ensures r.Some? ==> blocks[0][|blocks[0]| - 1] == Block(r.value, Align(size))
      ensures r.Some? ==>
        Serves(old(chunks), old(blocks), chunks, blocks, Larger(chunkCapacity, Align(size)), answer,
               Block(r.value, Align(size)))
      ensures size > 0 && r.None? && !short ==> !FitsHead(old(chunks)[0], Align(size)) && answer == None
      ensures Added(old(blocks), blocks) && (r.Some? ==> blocks != old(blocks))
    {
      assert |chunks| == |blocks| > 0;
      hide PoolOk, Align, Align64, Added, HandsOut, Exact, Sum64, Serves, FitsHead, NeedsChunk, RequestFor;
      if size == 0 {
        Unchanged(blocks);
        return None, false;
      }
      var aligned := Align64(size);
      var ok;
      ok, short := MakeRoom(size, answer);
      if !ok {
        Unchanged(blocks);
        return None, short;
      }
      r := Some(chunks[0].Buffer() + chunks[0].size);
      RoomThenBlock(old(chunks), old(blocks), chunks, blocks, Larger(chunkCapacity, aligned), answer, aligned);
      Bump(aligned);
      ServesAdds(old(chunks), old(blocks), chunks, blocks, Larger(chunkCapacity, aligned), answer,
                 Block(r.value, aligned));
    }

    /** The first half of `Malloc`: afterwards the head chunk has room. */
    method MakeRoom(size: nat, answer: Option<nat>) returns (ok: bool, short: bool)
      requires Valid() && 0 < size <= SIZE_MAX && Offers(answer, RequestFor(chunkCapacity, size))
      modifies this`chunks, this`blocks
      ensures Valid()
      ensures short <==> !old(NoWrap(size)) && (NeedsChunk(old(chunks)[0], size) ==> answer.Some?)
      ensures !ok ==> chunks == old(chunks) && blocks == old(blocks)
      ensures !ok && !short ==> !FitsHead(chunks[0], Align(size)) && answer == None
      ensures ok ==> !short && Align64(size) == Align(size) && |chunks| == |blocks| > 0
      ensures ok ==> chunks[0].size + Align(size) <= chunks[0].capacity
      ensures ok && FitsHead(old(chunks)[0], Align(size)) ==> chunks == old(chunks) && blocks == old(blocks)
      ensures ok && !FitsHead(old(chunks)[0], Align(size)) ==>
        answer.Some? && blocks == [[]] + old(blocks) &&
        chunks == [Chunk(answer.value, Larger(chunkCapacity, Align(size)), 0)] + old(chunks)
    {
      assert |chunks| == |blocks| > 0 && ChunkOk(chunks[0], blocks[0]);
      hide PoolOk, Align, Align64, Tiles;
      HandsOutExactly(chunks[0], chunkCapacity, size);
      var aligned := Align64(size);
      if Sum64(chunks[0].size, aligned) > chunks[0].capacity {
        var capacity := Larger(chunkCapacity, aligned);
        if answer.Some? && SIZEOF_CHUNK_HEADER + size > RequestFor(chunkCapacity, size) {
          return false, true;
        }
        ok := AddChunk(capacity, answer);
        short := false;
      } else {
        short := chunks[0].size + size > chunks[0].capacity;
        ok := !short;
      }
    }

    /** `chunkHead->size += size` */
    method Bump(aligned: nat)
      requires Valid() && aligned > 0 && aligned % 8 == 0 && chunks[0].size + aligned <= chunks[0].capacity
      modifies this`chunks, this`blocks
      ensures Valid()
      ensures chunks == old(chunks)[0 := old(chunks)[0].(size := old(chunks)[0].size + aligned)]
      ensures var c := old(chunks)[0];
        blocks == old(blocks)[0 := old(blocks)[0] + [Block(c.Buffer() + c.size, aligned)]]
    {
      var c := chunks[0];
      TileAppend(blocks[0], c.Buffer(), c.size, aligned);
      ResizeHead(chunks, blocks, c.(size := c.size + aligned), blocks[0] + [Block(c.Buffer() + c.size, aligned)]);
      blocks := blocks[0 := blocks[0] + [Block(c.Buffer() + c.size, aligned)]];
      chunks := chunks[0 := c.(size := c.size + aligned)];
    }

    /** `Realloc` of a null pointer is `Malloc`; otherwise `originalPtr` is a
        block of the pool and `originalSize` does not exceed it. */
    method Realloc(originalPtr: Option<nat>, originalSize: nat, newSize: nat, answer: Option<nat>,
                   ghost i: nat, ghost k: nat)
      returns (r: Option<nat>, short: bool)
      requires Valid() && newSize <= SIZE_MAX && Offers(answer, RequestFor(chunkCapacity, newSize))
      requires originalPtr.Some? ==> Owns(i, k, originalPtr.value, Align(originalSize))
      modifies this
      ensures Valid()
      ensures short ==> !old(NoWrap(newSize))
      ensures newSize > SIZE_MAX - 7 && originalPtr.Some? ==> short && r == originalPtr
      ensures newSize == 0 ==> r == None
      ensures r == None ==> blocks == old(blocks) && memory == old(memory)
      // the result is a block of the pool, large enough
      ensures r.Some? && !short ==> exists j, l :: Owns(j, l, r.value, newSize)
      // the old bytes are there, and nothing outside the result is written
      ensures r.Some? && originalPtr.Some? && !short ==>
        Copied(old(memory), memory, originalPtr.value, r.value, Smaller(originalSize, newSize))
      ensures r.Some? ==> WrittenOnly(old(memory), memory, r.value, Align(newSize))
      // a block that is large enough stays as it is, the last one grows where
      // it is if there is room, and otherwise one block is added
      ensures originalPtr.Some? && newSize > 0 && !short ==>
        if Align(newSize) <= Align(originalSize) then
          r == originalPtr && chunks == old(chunks) && blocks == old(blocks) && memory == old(memory)
        else if InPlace(old(chunks), old(blocks), i, k, Align(originalSize), Align(newSize)) then
          r == originalPtr && memory == old(memory) &&
          Grows(old(chunks), old(blocks), chunks, blocks, Align(newSize) - Align(originalSize))
        else
          r.Some? ==> Serves(old(chunks), old(blocks), chunks, blocks, Larger(chunkCapacity, Align(newSize)), answer,
                             Block(r.value, Align(newSize)))
      ensures originalPtr.None? && r.Some? ==>
        memory == old(memory) &&
        Serves(old(chunks), old(blocks), chunks, blocks, Larger(chunkCapacity, Align(newSize)), answer,
               Block(r.value, Align(newSize)))
      ensures r == None && newSize > 0 && !short ==> answer == None
      // every other block keeps its place and extent
      ensures Kept(old(blocks), blocks, if originalPtr.Some? && r == originalPtr then (i, k) else (|old(blocks)|, 0))
    {
      hide Align, Align64, Added, Kept, Holds, PoolOk, Copied, WrittenOnly, Serves, Grows, IsLast;
      Align64Exactly(newSize);
      if originalPtr.None? {
        r, short := Malloc(newSize, answer);
        AddedBlockKeepsOthers(old(blocks), blocks);
        if r.Some? {
          NothingWritten(memory, r.value, 0, Align(newSize));
        }
        assert r.Some? ==> Owns(0, |blocks[0]| - 1, r.value, newSize);
      } else if newSize == 0 {
        KeptItself(blocks);
        r, short := None, false;
      } else if Align64(newSize) < newSize {
        // the original size is not smaller than 0, so the block is returned as it is
        KeptItself(blocks);
        NothingWritten(memory, originalPtr.value, 0, Align(newSize));
        r, short := originalPtr, true;
      } else {
        r, short := Resize(originalPtr.value, Align(originalSize), Align64(newSize), newSize, answer, i, k);
        if r.Some? {
          CopiedLess(old(memory), memory, originalPtr.value, r.value, Smaller(originalSize, newSize),
                     Smaller(Align(originalSize), Align(newSize)));
        }
      }
    }

    method Resize(ptr: nat, oldAligned: nat, newAligned: nat, newSize: nat, answer: Option<nat>,
                  ghost i: nat, ghost k: nat)
      returns (r: Option<nat>, short: bool)
      requires Valid() && 0 < newSize <= SIZE_MAX - 7 && Offers(answer, RequestFor(chunkCapacity, newSize))
      requires Owns(i, k, ptr, oldAligned) && oldAligned % 8 == 0 && newAligned == Align(newSize)
      modifies this
      ensures Valid()
      ensures short ==> r == None && !old(NoWrap(newSize))
      ensures r == None ==> blocks == old(blocks) && memory == old(memory)
      ensures r == None && !short ==> answer == None
      ensures !short ==>
        if newAligned <= oldAligned then
          r == Some(ptr) && chunks == old(chunks) && blocks == old(blocks) && memory == old(memory)
        else if InPlace(old(chunks), old(blocks), i, k, oldAligned, newAligned) then
          r == Some(ptr) && memory == old(memory) &&
          Grows(old(chunks), old(blocks), chunks, blocks, newAligned - oldAligned)
        else
          r.Some? ==> Serves(old(chunks), old(blocks), chunks, blocks, Larger(chunkCapacity, newAligned), answer,
                             Block(r.value, newAligned))
      ensures r.Some? ==> exists j, l :: Owns(j, l, r.value, newSize)
      ensures r.Some? ==>
        Copied(old(memory), memory, ptr, r.value, Smaller(oldAligned, newAligned)) &&
        WrittenOnly(old(memory), memory, r.value, newAligned)
      ensures Kept(old(blocks), blocks, if r == Some(ptr) then (i, k) else (|old(blocks)|, 0))
    {
      hide PoolOk, Align, Added, Kept, Holds, Copied, WrittenOnly, NeedsChunk, RequestFor, Tiles, Serves, Grows, IsLast;
      NothingWritten(memory, ptr, oldAligned, newAligned);
      if oldAligned >= newAligned {
        KeptItself(blocks);
        assert Owns(i, k, ptr, newSize);
        return Some(ptr), false;
      }
      var grown;
      grown, short := ExpandLast(ptr, oldAligned, newAligned, newSize, i, k);
      if grown || short {
        assert grown ==> Owns(i, k, ptr, newSize);
        return if grown then Some(ptr) else None, short;
      }
      r, short := AllocateAndCopy(ptr, oldAligned, newSize, answer, i, k);
      if r.Some? {
        WrittenLess(old(memory), memory, r.value, oldAligned, newAligned);
      }
      AddedBlockKeepsOthers(old(blocks), blocks);
    }

    /** The expansion of the last allocation, exactly if there is room for it. */
    method ExpandLast(ptr: nat, oldAligned: nat, newAligned: nat, ghost newSize: nat, ghost i: nat, ghost k: nat)
      returns (grown: bool, short: bool)
      requires Valid() && 0 < newSize <= SIZE_MAX - 7 && newAligned == Align(newSize)
      requires Owns(i, k, ptr, oldAligned) && oldAligned % 8 == 0 && oldAligned < newAligned
      modifies this`chunks, this`blocks
      ensures Valid()
      ensures grown || short <==>
        IsLast(old(blocks), i, k, oldAligned) &&
        Sum64(old(chunks)[0].size, newAligned - oldAligned) <= old(chunks)[0].capacity
      ensures grown <==> InPlace(old(chunks), old(blocks), i, k, oldAligned, newAligned)
      ensures grown ==> Grows(old(chunks), old(blocks), chunks, blocks, newAligned - oldAligned)
      ensures short ==> !grown && !old(NoWrap(newSize))
      ensures !grown ==> blocks == old(blocks) && chunks == old(chunks)
      ensures grown ==> Owns(i, k, ptr, newSize)
      ensures Kept(old(blocks), blocks, if grown then (i, k) else (|old(blocks)|, 0))
    {
      assert |chunks| == |blocks| > 0 && ChunkOk(chunks[0], blocks[0]);
      hide PoolOk, Align, Kept, Holds, Sum64, Tiles, Grows;
      KeptItself(blocks);
      grown, short := false, false;
      var head := chunks[0];
      LastAllocationExactly(chunks, blocks, i, k, oldAligned);
      if ptr + oldAligned == head.Buffer() + head.size {
        var increment := newAligned - oldAligned;
        Sum64Cases(head.size, increment);
        if Sum64(head.size, increment) <= head.capacity {
          if head.size + increment > head.capacity {
            return false, true;
          }
          GrowLast(increment);
          GrownBlockKeepsOthers(old(chunks), old(blocks), chunks, blocks, k, increment);
          grown := true;
        }
      }
    }

    /** The last part of `Realloc`. */
    method AllocateAndCopy(ptr: nat, oldAligned: nat, newSize: nat, answer: Option<nat>, ghost i: nat, ghost k: nat)
      returns (r: Option<nat>, short: bool)
      requires Valid() && newSize <= SIZE_MAX && Offers(answer, RequestFor(chunkCapacity, newSize))
      requires Owns(i, k, ptr, oldAligned) && oldAligned < Align(newSize)
      modifies this
      ensures Valid() && Added(old(blocks), blocks)
      ensures r == None && !short ==> answer == None
      ensures r.Some? ==>
        Serves(old(chunks), old(blocks), chunks, blocks, Larger(chunkCapacity, Align(newSize)), answer,
               Block(r.value, Align(newSize)))
      ensures short ==> r == None && !old(NoWrap(newSize))
      ensures r == None ==> blocks == old(blocks) && memory == old(memory)
      ensures r.Some? ==> r.value != ptr && blocks != [] && blocks[0] != []
      ensures r.Some? ==> Owns(0, |blocks[0]| - 1, r.value, newSize)
      ensures r.Some? ==>
        Copied(old(memory), memory, ptr, r.value, oldAligned) && WrittenOnly(old(memory), memory, r.value, oldAligned)
    {
      assert blocks != [];
      hide PoolOk, Align, Added;
      r, short := Malloc(newSize, answer);
      if r.Some? {
        OldAndNewAreApart(old(blocks), chunks, blocks, i, k, oldAligned);
        CopyBytes(r.value, ptr, oldAligned);
      }
    }

    method GrowLast(increment: nat)
      requires Valid() && blocks[0] != [] && increment % 8 == 0
      requires chunks[0].size + increment <= chunks[0].capacity
      modifies this`chunks, this`blocks
      ensures Valid()
      ensures Grows(old(chunks), old(blocks), chunks, blocks, increment)
    {
      var c := chunks[0];
      ghost var last := blocks[0][|blocks[0]| - 1];
      ghost var grown := blocks[0][|blocks[0]| - 1 := Block(last.addr, last.extent + increment)];
      TileGrow(blocks[0], c.Buffer(), c.size, increment);
      ResizeHead(chunks, blocks, c.(size := c.size + increment), grown);
      blocks := blocks[0 := grown];
      chunks := chunks[0 := c.(size := c.size + increment)];
    }

    /** `std::memcpy`, whose ranges must not overlap. */
    method CopyBytes(to: nat, from: nat, n: nat)
      requires Apart(to, n, from, n)
      modifies this`memory
      ensures Copied(old(memory), memory, from, to, n) && WrittenOnly(old(memory), memory, to, n)
    {
      var before := memory;
      memory := (a: nat) => if to <= a < to + n then before(from + (a - to)) else before(a);
    }
  }

  /** `n` bytes at `to` are those that were at `from`. */
  ghost predicate Copied(before: nat -> bv8, after: nat -> bv8, from: nat, to: nat, n: nat) {
    forall a: nat :: to <= a < to + n ==> after(a) == before(from + (a - to))
  }

  ghost predicate WrittenOnly(before: nat -> bv8, after: nat -> bv8, to: nat, n: nat) {
    forall a: nat :: !(to <= a < to + n) ==> after(a) == before(a)
  }

  lemma NothingWritten(memory: nat -> bv8, addr: nat, m: nat, n: nat)
    ensures Copied(memory, memory, addr, addr, m) && Copied(memory, memory, addr, addr, n)
    ensures WrittenOnly(memory, memory, addr, n)
  {
  }

  lemma CopiedLess(before: nat -> bv8, after: nat -> bv8, from: nat, to: nat, m: nat, n: nat)
    requires Copied(before, after, from, to, n) && m <= n
    ensures Copied(before, after, from, to, m)
  {
  }

  lemma WrittenLess(before: nat -> bv8, after: nat -> bv8, to: nat, m: nat, n: nat)
    requires WrittenOnly(before, after, to, m) && m <= n
    ensures WrittenOnly(before, after, to, n)
  {
  }

  lemma ChunkPrepended(chunks: seq<Chunk>, blocks: seq<seq<Block>>, c: Chunk)
    requires PoolOk(chunks, blocks) && ChunkOk(c, [])
    requires forall i :: 0 <= i < |chunks| ==> ChunksApart(c, chunks[i])
    ensures PoolOk([c] + chunks, [[]] + blocks)
  {
    var all, lists := [c] + chunks, [[]] + blocks;
    hide Tiles;
    forall i | 0 <= i < |all| ensures ChunkOk(all[i], lists[i]) {
      if i > 0 {
        assert all[i] == chunks[i - 1] && lists[i] == blocks[i - 1];
      }
    }
    forall i, j | 0 <= i < j < |all| ensures ChunksApart(all[i], all[j]) {
      if i > 0 {
        assert ChunksApart(chunks[i - 1], chunks[j - 1]);
      }
    }
  }

  lemma ResizeHead(chunks: seq<Chunk>, blocks: seq<seq<Block>>, c: Chunk, bs: seq<Block>)
    requires PoolOk(chunks, blocks) && ChunkOk(c, bs)
    requires c.base == chunks[0].base && c.capacity == chunks[0].capacity
    ensures PoolOk(chunks[0 := c], blocks[0 := bs])
  {
    var chunks' := chunks[0 := c];
    forall i, j | 0 <= i < j < |chunks'| ensures ChunksApart(chunks'[i], chunks'[j]) {
      assert ChunksApart(chunks[i], chunks[j]);
    }
  }

  /** Every block of `before` other than number `except` is in `after`. */
  ghost predicate Kept(before: seq<seq<Block>>, after: seq<seq<Block>>, except: (nat, nat)) {
    forall i, k :: 0 <= i < |before| && 0 <= k < |before[i]| && (i, k) != except ==> Holds(after, before[i][k])
  }

  ghost predicate Holds(blocks: seq<seq<Block>>, b: Block) {
    exists i, k :: 0 <= i < |blocks| && 0 <= k < |blocks[i]| && blocks[i][k] == b
  }

  /** What `Malloc` does to the blocks: nothing, or one more in the head chunk. */
  ghost predicate Added(before: seq<seq<Block>>, after: seq<seq<Block>>) {
    after == before ||
    (after != [] && after[0] != [] && before == [after[0][..|after[0]| - 1]] + after[1..]) ||
    (after != [] && |after[0]| == 1 && before == after[1..])
  }

  lemma ServesAdds(c0: seq<Chunk>, b0: seq<seq<Block>>, c1: seq<Chunk>, b1: seq<seq<Block>>,
                   capacity: nat, answer: Option<nat>, b: Block)
    requires c0 != [] && b0 != [] && Serves(c0, b0, c1, b1, capacity, answer, b)
    ensures Added(b0, b1) && b1 != b0 && b1 != [] && b1[0] != [] && b1[0][|b1[0]| - 1] == b
  {
    if FitsHead(c0[0], b.extent) {
      assert b1[0][..|b1[0]| - 1] == b0[0] && b0 == [b0[0]] + b1[1..];
      assert |b1[0]| != |b0[0]|;
    } else {
      assert b1[1..] == b0;
    }
  }

  lemma Unchanged(blocks: seq<seq<Block>>)
    ensures Added(blocks, blocks)
  {
  }

  /** Where block (i, k) is afterwards. */
  ghost function Relocated(before: seq<seq<Block>>, after: seq<seq<Block>>, i: nat, k: nat): (r: (nat, nat))
    requires Added(before, after) && i < |before| && k < |before[i]|
    ensures r.0 < |after| && r.1 < |after[r.0]| && after[r.0][r.1] == before[i][k]
    ensures after != before && after[0] != [] ==> r != (0, |after[0]| - 1)
  {
    if after == before || (after[0] != [] && before == [after[0][..|after[0]| - 1]] + after[1..]) then (i, k)
    else (i + 1, k)
  }

  /** A block from before and the one just added do not overlap. */
  lemma OldAndNewAreApart(before: seq<seq<Block>>, chunks: seq<Chunk>, after: seq<seq<Block>>, i: nat, k: nat, n: nat)
    requires PoolOk(chunks, after) && Added(before, after) && after != before && after[0] != []
    requires i < |before| && k < |before[i]|
    requires var last := after[0][|after[0]| - 1]; n <= before[i][k].extent && n <= last.extent
    ensures var last := after[0][|after[0]| - 1];
      last.addr != before[i][k].addr && Apart(last.addr, n, before[i][k].addr, n)
  {
    var (i', k') := Relocated(before, after, i, k);
    BlocksAreSeparate(chunks, after, i', k', 0, |after[0]| - 1);
    BlocksAreSeparate(chunks, after, 0, |after[0]| - 1, i', k');
  }

  lemma AddedBlockKeepsOthers(before: seq<seq<Block>>, after: seq<seq<Block>>)
    requires Added(before, after)
    ensures Kept(before, after, (|before|, 0))
  {
    forall i, k | 0 <= i < |before| && 0 <= k < |before[i]| ensures Holds(after, before[i][k]) {
      var (i', k') := Relocated(before, after, i, k);
      assert after[i'][k'] == before[i][k];
    }
  }

  lemma KeptItself(blocks: seq<seq<Block>>)
    ensures forall except: (nat, nat) :: Kept(blocks, blocks, except)
  {
    forall i, k | 0 <= i < |blocks| && 0 <= k < |blocks[i]| ensures Holds(blocks, blocks[i][k]) {
    }
  }

  /** Every other block keeps its place, and the last one its address. */
  lemma GrownBlockKeepsOthers(c0: seq<Chunk>, before: seq<seq<Block>>, c1: seq<Chunk>, after: seq<seq<Block>>,
                              k: nat, increment: nat)
    requires c0 != [] && before != [] && k + 1 == |before[0]| && Grows(c0, before, c1, after, increment)
    ensures Kept(before, after, (0, k))
    ensures |after| == |before| && k < |after[0]|
    ensures after[0][k] == Block(before[0][k].addr, before[0][k].extent + increment)
  {
    forall i, l | 0 <= i < |before| && 0 <= l < |before[i]| && (i, l) != (0, k)
      ensures Holds(after, before[i][l])
    {
      if i > 0 {
        assert before[1..][i - 1] == after[1..][i - 1];
      }
      assert after[i][l] == before[i][l];
    }
  }
}
