/** The allocator itself: headers live in raw memory and are rewritten in place. Every method
    is proved to act on the block list as HeapSpec says and to leave payload bytes alone. */
module Heap {
  import opened Common
  import opened Bytes
  import opened HeapSpec
  import opened HeapLaws
  import opened HeapMemory
  import opened HeapRelease

  class Heap {
    const ram: array<byte>
    var head: int
    ghost var blocks: seq<Block>

    ghost predicate Valid()
      reads this, ram
    {
      ram.Length == HEAP_SIZE && head == HEAP_START && Inv(blocks) && Encodes(ram[..], blocks)
    }

    /** memory_init: one free block over the whole region, its payload zeroed. */
    constructor (memory: array<byte>)
      requires memory.Length == HEAP_SIZE
      modifies memory
      ensures Valid() && ram == memory && blocks == InitBlocks
      ensures forall x :: HDR_SIZE <= x < HEAP_SIZE ==> ram[x] == 0
    {
      ram := memory;
      head := HEAP_START;
      blocks := InitBlocks;
      new;
      hide ReadHeader, Rewrites;
      WriteHeader(HEAP_START, Header(BLOCK_MAGIC, HEAP_SIZE - HDR_SIZE, 0, 0, 0));
      RewritesReads(ram[..], HEAP_START, Header(BLOCK_MAGIC, HEAP_SIZE - HDR_SIZE, 0, 0, 0), old(memory[..]));
      ghost var m := ram[..];
      var i := HDR_SIZE;
      while i < HEAP_SIZE
        invariant HDR_SIZE <= i <= HEAP_SIZE
        invariant forall x :: HDR_SIZE <= x < i ==> ram[x] == 0
        invariant forall x :: 0 <= x < HDR_SIZE ==> ram[x] == m[x]
        modifies ram
      {
        ram[i] := 0;
        i := i + 1;
      }
      SameHeader(m, ram[..], HEAP_START);
    }

    // ----- single stores

    method StoreWord(i: int, v: int)
      requires 0 <= i && i + 4 <= ram.Length && 0 <= v < U32
      modifies ram
      ensures ram[..] == Splice(old(ram[..]), i, Bytes32(v))
    {
      var s := Bytes32(v);
      ram[i] := s[0];
      ram[i + 1] := s[1];
      ram[i + 2] := s[2];
      ram[i + 3] := s[3];
    }

    method Store(a: int, f: Field, v: int)
      requires ram.Length == HEAP_SIZE && HeaderInHeap(a) && 0 <= v < U32
      modifies ram
      ensures ram[..] == Put(old(ram[..]), a, f, v)
      ensures Rewrites(old(ram[..]), ram[..], a, With(old(ReadHeader(ram[..], a)), f, v))
    {
      StoreRewrites(ram[..], a, f, v);
      StoreWord(a - HEAP_START + f.Offset(), v);
    }

    method StoreUsed(a: int, v: byte)
      requires ram.Length == HEAP_SIZE && HeaderInHeap(a)
      modifies ram
      ensures ram[..] == PutUsed(old(ram[..]), a, v)
      ensures Rewrites(old(ram[..]), ram[..], a, old(ReadHeader(ram[..], a)).(used := v))
    {
      StoreUsedRewrites(ram[..], a, v);
      ram[a - HEAP_START + 8] := v;
    }

    method WriteHeader(a: int, h: Header)
      requires ram.Length == HEAP_SIZE && HeaderInHeap(a)
      requires 0 <= h.magic < U32 && 0 <= h.size < U32 && 0 <= h.used < 256 && 0 <= h.next < U32 && 0 <= h.prev < U32
      modifies ram
      ensures Rewrites(old(ram[..]), ram[..], a, h)
    {
      Store(a, Magic, h.magic);
      Store(a, Size, h.size);
      StoreUsed(a, h.used);
      Store(a, Next, h.next);
      Store(a, Prev, h.prev);
    }

    // ----- kmalloc

    /** Stores the used flag of block `i`. */
    method Mark(a: int, used: bool, ghost i: nat)
      requires ram.Length == HEAP_SIZE && Tiles(blocks, HEAP_START, HEAP_END) && Encodes(ram[..], blocks)
      requires i < |blocks| && a == blocks[i].addr
      modifies ram, this`blocks
      ensures blocks == old(blocks)[i := old(blocks)[i].(used := used)]
      ensures Tiles(blocks, HEAP_START, HEAP_END) && Encodes(ram[..], blocks)
      ensures SamePayloads(old(ram[..]), ram[..], Live(blocks))
    {
      hide ReadHeader, Tiles, SamePayloads;
      ghost var m, bs := ram[..], blocks;
      StoreUsed(a, if used then 1 else 0);
      MarkEncodes(m, ram[..], bs, i, used);
      MarkTiles(bs, i, used);
      blocks := bs[i := bs[i].(used := used)];
      assert blocks[i].addr == a;
      HeaderStoresSparePayloads(m, ram[..], blocks, {a});
    }

    /** Hands out block `i`, splitting it when there is room. */
    method Grant(cur: int, size: int, ghost i: nat)
      requires Valid() && i < |blocks| && cur == blocks[i].addr && Fits(blocks[i], size)
      requires 0 <= size < HEAP_SIZE
      modifies ram, this`blocks
      ensures Valid() && blocks == Take(old(blocks), i, size)
      ensures SamePayloads(old(ram[..]), ram[..], Live(blocks))
    {
      hide ReadHeader, Tiles, NoAdjacentFree, SamePayloads;
      ghost var bs := blocks;
      var hdr := ReadHeader(ram[..], cur);
      if hdr.size >= (size + HDR_SIZE + 8) % U32 {
        Split(cur, size, i);
      } else {
        Mark(cur, true, i);
        TakeTiles(bs, i, size);
        assert blocks == Take(bs, i, size);
      }
    }

    method Split(cur: int, size: int, ghost i: nat)
      requires Valid() && i < |blocks| && cur == blocks[i].addr && !blocks[i].used
      requires 0 <= size && blocks[i].size >= size + HDR_SIZE + 8
      modifies ram, this`blocks
      ensures Valid() && blocks == Take(old(blocks), i, size)
      ensures SamePayloads(old(ram[..]), ram[..], Live(blocks))
    {
      hide ReadHeader, Tiles, NoAdjacentFree, SamePayloads, Put, PutUsed;
      ghost var m, bs := ram[..], blocks;
      SplitApart(bs, i, size);
      TakeTiles(bs, i, size);
      var hdr := ReadHeader(ram[..], cur);
      var nextBlk := cur + HDR_SIZE + size;
      WriteHeader(nextBlk, Header(BLOCK_MAGIC, hdr.size - size - HDR_SIZE, 0, hdr.next, cur));
      if hdr.next != 0 {
        Store(hdr.next, Prev, nextBlk);
      }
      Store(cur, Next, nextBlk);
      Store(cur, Size, size);
      StoreUsed(cur, 1);

      SplitEncodes(m, ram[..], bs, i, size);
      blocks := Take(bs, i, size);
      assert blocks[i].addr == cur && blocks[i + 1].addr == nextBlk;
      assert i + 1 < |bs| ==> blocks[i + 2] == bs[i + 1];
      HeaderStoresSparePayloads(m, ram[..], blocks,
                                if i + 1 < |bs| then {cur, nextBlk, bs[i + 1].addr} else {cur, nextBlk});
    }

    method KMalloc(request: int) returns (ptr: int)
      requires Valid() && 0 <= request < U32
      modifies ram, this`blocks
      ensures Valid()
      ensures (blocks, ptr) == Alloc(old(blocks), request)
      ensures SamePayloads(old(ram[..]), ram[..], Live(blocks))
      ensures ptr == 0 ==> ram[..] == old(ram[..]) && blocks == old(blocks)
    {
      hide ReadHeader, Tiles, NoAdjacentFree, Round8, SamePayloads, Take;
      SamePayloadsRefl(ram[..], Live(blocks));
      HeadBlock(blocks);
      if request == 0 { return 0; }
      var size := Round8(request);
      var cur := head;
      ghost var i := 0;
      while cur != 0
        invariant 0 <= i <= |blocks| && cur == if i < |blocks| then blocks[i].addr else 0
        invariant FirstFit(blocks, size, 0) == FirstFit(blocks, size, i)
        decreases |blocks| - i
        modifies {}
      {
        var hdr := ReadHeader(ram[..], cur);
        if hdr.used == 0 && hdr.size >= size { break; }
        cur := hdr.next;
        i := i + 1;
      }
      if cur == 0 { return 0; }
      TilesWithin(blocks, HEAP_START, HEAP_END, i);
      Grant(cur, size, i);
      return cur + HDR_SIZE;
    }

    // ----- kfree

    method MergeWithNext(blk: int)
      requires ram.Length == HEAP_SIZE && HeaderInHeap(blk) && JoinNext(ram[..], blk).Some?
      modifies ram
      ensures ram[..] == JoinNext(old(ram[..]), blk).value
    {
      hide ReadHeader, Put, Rewrites;
      var next := ReadHeader(ram[..], blk).next;
      if next != 0 && ReadHeader(ram[..], next).used == 0 {
        Store(blk, Size, (ReadHeader(ram[..], blk).size + HDR_SIZE + ReadHeader(ram[..], next).size) % U32);
        HeaderWords(ram[..], next);
        Store(blk, Next, ReadHeader(ram[..], next).next);
        var far := ReadHeader(ram[..], blk).next;
        if far != 0 { Store(far, Prev, blk); }
      }
    }

    method MergeWithPrev(blk: int)
      requires ram.Length == HEAP_SIZE && HeaderInHeap(blk) && JoinPrev(ram[..], blk).Some?
      modifies ram
      ensures ram[..] == JoinPrev(old(ram[..]), blk).value
    {
      hide ReadHeader, Put, Rewrites;
      var prev := ReadHeader(ram[..], blk).prev;
      if prev != 0 && ReadHeader(ram[..], prev).used == 0 {
        Store(prev, Size, (ReadHeader(ram[..], prev).size + HDR_SIZE + ReadHeader(ram[..], blk).size) % U32);
        HeaderWords(ram[..], blk);
        Store(ReadHeader(ram[..], blk).prev, Next, ReadHeader(ram[..], blk).next);
        HeaderWords(ram[..], blk);
        var far := ReadHeader(ram[..], blk).next;
        if far != 0 { Store(far, Prev, ReadHeader(ram[..], blk).prev); }
      }
    }

    /** `ptr` may be NULL, a live payload, or any address from which the release touches no header
        outside the heap. A live pointer gives back exactly its block; the magic word survives. */
    method KFree(ptr: int)
      requires ram.Length == HEAP_SIZE
      requires ptr == 0 || HeaderInHeap(ptr - HDR_SIZE)
      requires Guarded(ram[..], ptr) || (Valid() && exists i :: LiveAt(blocks, i, ptr)) || Released(ram[..], ptr - HDR_SIZE).Some?
      modifies ram, this`blocks
      ensures ptr == 0 || old(ReadHeader(ram[..], ptr - HDR_SIZE).magic) != 0xA3A3_0000 ==>
                ram[..] == old(ram[..]) && blocks == old(blocks)
      ensures !old(Guarded(ram[..], ptr)) ==> Some(ram[..]) == Released(old(ram[..]), ptr - HDR_SIZE)
      ensures (forall i :: !LiveAt(old(blocks), i, ptr)) ==> blocks == old(blocks)
      ensures old(Valid()) ==> forall i :: LiveAt(old(blocks), i, ptr) ==>
                                             && Valid() && blocks == FreeAt(old(blocks), i)
                                             && SamePayloads(old(ram[..]), ram[..], Live(blocks))
                                             && ReadHeader(ram[..], ptr - HDR_SIZE).magic == BLOCK_MAGIC
    {
      hide ReadHeader, Tiles, NoAdjacentFree, SamePayloads, FreeAt, JoinNext, JoinPrev, Rewrites, PutUsed;
      ghost var m, bs := ram[..], blocks;
      ghost var live := Valid() && exists i :: LiveAt(blocks, i, ptr);
      if ptr == 0 { return; }
      var blk := ptr - HDR_SIZE;
      if ReadHeader(ram[..], blk).magic != BLOCK_MAGIC { return; }
      if live {
        ghost var i :| LiveAt(bs, i, ptr);
        forall j | LiveAt(bs, j, ptr) ensures j == i { LiveAtUnique(bs, i, j, ptr); }
        ReleasesLive(m, bs, i);
        blocks := FreeAt(bs, i);
      }
      StoreUsed(blk, 0);
      MergeWithNext(blk);
      MergeWithPrev(blk);
    }

    // ----- memory_stats

    method MemoryStats() returns (used: int, freeBytes: int)
      requires Valid()
      ensures used == SumSizes(blocks, true) && freeBytes == SumSizes(blocks, false)
      ensures used + freeBytes + HDR_SIZE * |blocks| == HEAP_SIZE
    {
      hide ReadHeader, NoAdjacentFree, Tiles;
      used, freeBytes := 0, 0;
      var cur := head;
      ghost var i := 0;
      HeadBlock(blocks);
      while cur != 0
        invariant 0 <= i <= |blocks| && cur == if i < |blocks| then blocks[i].addr else 0
        invariant used == SumSizes(blocks[..i], true) && freeBytes == SumSizes(blocks[..i], false)
        decreases |blocks| - i
      {
        PrefixTiles(blocks, i + 1);
        var hdr := ReadHeader(ram[..], cur);
        assert blocks[..i + 1][..i] == blocks[..i];
        if hdr.used != 0 {
          used := (used + hdr.size) % U32;
        } else {
          freeBytes := (freeBytes + hdr.size) % U32;
        }
        cur := hdr.next;
        i := i + 1;
      }
      assert blocks[..i] == blocks;
      StatsConserve(blocks, HEAP_START, HEAP_END);
    }
  }
}
