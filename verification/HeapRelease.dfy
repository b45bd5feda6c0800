/** kfree on raw memory, whatever the header under the pointer holds: what it does to a live
    block, to a block that is already free, and to a pointer released a moment ago. */
module HeapRelease {
  import opened Common
  import opened Bytes
  import opened HeapSpec
  import opened HeapLaws
  import opened HeapMemory

  /** The merge with the next block, reading memory anew after each store. None stands for an
      access to a header outside the heap. */
  function JoinNext(m: seq<byte>, blk: int): (r: Option<seq<byte>>)
    requires |m| == HEAP_SIZE && HeaderInHeap(blk)
    ensures r.Some? ==> |r.value| == HEAP_SIZE
  {
    var next := ReadHeader(m, blk).next;
    if next == 0 then Some(m)
    else if !HeaderInHeap(next) then None
    else if ReadHeader(m, next).used != 0 then Some(m)
    else
      var m1 := Put(m, blk, Size, (ReadHeader(m, blk).size + HDR_SIZE + ReadHeader(m, next).size) % U32);
      var m2 := Put(m1, blk, Next, ReadHeader(m1, next).next);
      var far := ReadHeader(m2, blk).next;
      if far == 0 then Some(m2)
      else if !HeaderInHeap(far) then None
      else Some(Put(m2, far, Prev, blk))
  }

  /** The merge with the previous block. */
  function JoinPrev(m: seq<byte>, blk: int): (r: Option<seq<byte>>)
    requires |m| == HEAP_SIZE && HeaderInHeap(blk)
    ensures r.Some? ==> |r.value| == HEAP_SIZE
  {
    var prev := ReadHeader(m, blk).prev;
    if prev == 0 then Some(m)
    else if !HeaderInHeap(prev) then None
    else if ReadHeader(m, prev).used != 0 then Some(m)
    else
      var m1 := Put(m, prev, Size, (ReadHeader(m, prev).size + HDR_SIZE + ReadHeader(m, blk).size) % U32);
      var h := ReadHeader(m1, blk);
      if !HeaderInHeap(h.prev) then None else
      var m2 := Put(m1, h.prev, Next, h.next);
      var h' := ReadHeader(m2, blk);
      if h'.next == 0 then Some(m2)
      else if !HeaderInHeap(h'.next) then None
      else Some(Put(m2, h'.next, Prev, h'.prev))
  }

  /** The memory after the release of the block whose header is at `blk`. */
  function Released(m: seq<byte>, blk: int): (r: Option<seq<byte>>)
    requires |m| == HEAP_SIZE && HeaderInHeap(blk)
    ensures r.Some? ==> |r.value| == HEAP_SIZE
  {
    var joined := JoinNext(PutUsed(m, blk, 0), blk);
    if joined.None? then None else JoinPrev(joined.value, blk)
  }

  /** The pointers that kfree ignores: NULL, and those without the magic word. */
  predicate Guarded(m: seq<byte>, ptr: int)
    requires |m| == HEAP_SIZE && (ptr == 0 || HeaderInHeap(ptr - HDR_SIZE))
  {
    ptr == 0 || ReadHeader(m, ptr - HDR_SIZE).magic != BLOCK_MAGIC
  }

  // ----- a live block

  /** From `m` to `m'` the list goes from `bs` to `bs'`; the stores reach no live payload. */
  ghost predicate Moves(m: seq<byte>, bs: seq<Block>, m': seq<byte>, bs': seq<Block>)
    requires |m| == |m'| == HEAP_SIZE
  {
    && Tiles(bs', HEAP_START, HEAP_END) && Encodes(m', bs')
    && Live(bs') <= Live(bs) && SamePayloads(m, m', Live(bs'))
  }

  lemma MovesRefl(m: seq<byte>, bs: seq<Block>)
    requires |m| == HEAP_SIZE && Tiles(bs, HEAP_START, HEAP_END) && Encodes(m, bs)
    ensures Moves(m, bs, m, bs)
  {}

  lemma MovesTrans(m: seq<byte>, bs: seq<Block>, m': seq<byte>, bs': seq<Block>, m'': seq<byte>, bs'': seq<Block>)
    requires |m| == |m'| == |m''| == HEAP_SIZE && Moves(m, bs, m', bs') && Moves(m', bs', m'', bs'')
    ensures Moves(m, bs, m'', bs'')
  {
    hide Tiles, Encodes, Live;
  }

  /** The three stores of a merge: the block at `a` takes over `size` and `next`. */
  function Swallow(m: seq<byte>, a: int, size: int, next: int): (m': seq<byte>)
    requires |m| == HEAP_SIZE && HeaderInHeap(a) && 0 <= size < U32 && (next == 0 || HeaderInHeap(next))
    ensures |m'| == HEAP_SIZE
  {
    var m2 := Put(Put(m, a, Size, size), a, Next, next);
    if next == 0 then m2 else Put(m2, next, Prev, a)
  }

  /** What every header of the list reads after these stores. */
  lemma SwallowReads(m: seq<byte>, bs: seq<Block>, i: nat)
    requires |m| == HEAP_SIZE && Tiles(bs, HEAP_START, HEAP_END) && Encodes(m, bs) && i + 1 < |bs|
    ensures 0 <= bs[i].size + HDR_SIZE + bs[i + 1].size < U32
    ensures var size, next := bs[i].size + HDR_SIZE + bs[i + 1].size, NextAddr(bs, i + 1);
            var m' := Swallow(m, bs[i].addr, size, next);
            && ReadHeader(m', bs[i].addr) == HeaderOf(bs, i).(size := size, next := next)
            && (i + 2 < |bs| ==> ReadHeader(m', next) == HeaderOf(bs, i + 2).(prev := bs[i].addr))
            && (forall k :: 0 <= k < |bs| && k != i && k != i + 2 ==> ReadHeader(m', bs[k].addr) == HeaderOf(bs, k))
            && OnlyHeaders(m, m', if i + 2 < |bs| then {bs[i].addr, next} else {bs[i].addr})
  {
    hide ReadHeader, Tiles, Put;
    AbsorbApart(bs, i);
    var a, size, next := bs[i].addr, bs[i].size + HDR_SIZE + bs[i + 1].size, NextAddr(bs, i + 1);
    StoreRewrites(m, a, Size, size);
    var m1 := Put(m, a, Size, size);
    StoreRewrites(m1, a, Next, next);
    if i + 2 < |bs| { StoreRewrites(Put(m1, a, Next, next), next, Prev, a); }
  }

  lemma SwallowMoves(m: seq<byte>, bs: seq<Block>, i: nat)
    requires |m| == HEAP_SIZE && Tiles(bs, HEAP_START, HEAP_END) && Encodes(m, bs)
    requires i + 1 < |bs| && !bs[i].used && !bs[i + 1].used
    ensures 0 <= bs[i].size + HDR_SIZE + bs[i + 1].size < U32
    ensures var m' := Swallow(m, bs[i].addr, bs[i].size + HDR_SIZE + bs[i + 1].size, NextAddr(bs, i + 1));
            Moves(m, bs, m', Absorb(bs, i)) && ReadHeader(m', bs[i + 1].addr) == HeaderOf(bs, i + 1)
  {
    hide ReadHeader, Tiles, SamePayloads, Absorb, Live, Swallow, OnlyHeaders;
    SwallowReads(m, bs, i);
    var m' := Swallow(m, bs[i].addr, bs[i].size + HDR_SIZE + bs[i + 1].size, NextAddr(bs, i + 1));
    AbsorbEncodes(m, m', bs, i);
    HeaderStoresSparePayloads(m, m', bs, if i + 2 < |bs| then {bs[i].addr, NextAddr(bs, i + 1)} else {bs[i].addr});
    AbsorbTiles(bs, i);
    AbsorbLive(bs, i);
  }

  lemma JoinNextMoves(m: seq<byte>, bs: seq<Block>, i: nat)
    requires |m| == HEAP_SIZE && Tiles(bs, HEAP_START, HEAP_END) && Encodes(m, bs) && i < |bs| && !bs[i].used
    ensures JoinNext(m, bs[i].addr).Some?
    ensures Moves(m, bs, JoinNext(m, bs[i].addr).value, MergeNext(bs, i))
  {
    hide ReadHeader, Tiles, Moves, Put, Absorb;
    if i + 1 == |bs| || bs[i + 1].used {
      MovesRefl(m, bs);
    } else {
      AbsorbApart(bs, i);
      SwallowMoves(m, bs, i);
      var a, size := bs[i].addr, bs[i].size + HDR_SIZE + bs[i + 1].size;
      StoreRewrites(m, a, Size, size);
      StoreRewrites(Put(m, a, Size, size), a, Next, NextAddr(bs, i + 1));
      assert JoinNext(m, a) == Some(Swallow(m, a, size, NextAddr(bs, i + 1)));
    }
  }

  lemma JoinPrevMoves(m: seq<byte>, bs: seq<Block>, i: nat)
    requires |m| == HEAP_SIZE && Tiles(bs, HEAP_START, HEAP_END) && Encodes(m, bs) && i < |bs| && !bs[i].used
    ensures JoinPrev(m, bs[i].addr).Some?
    ensures Moves(m, bs, JoinPrev(m, bs[i].addr).value, MergePrev(bs, i))
    ensures ReadHeader(JoinPrev(m, bs[i].addr).value, bs[i].addr) == HeaderOf(bs, i)
  {
    hide ReadHeader, Tiles, Moves, Put, Absorb;
    if i == 0 || bs[i - 1].used {
      MovesRefl(m, bs);
    } else {
      AbsorbApart(bs, i - 1);
      SwallowMoves(m, bs, i - 1);
      var p, size := bs[i - 1].addr, bs[i - 1].size + HDR_SIZE + bs[i].size;
      StoreRewrites(m, p, Size, size);
      StoreRewrites(Put(m, p, Size, size), p, Next, NextAddr(bs, i));
      assert JoinPrev(m, bs[i].addr) == Some(Swallow(m, p, size, NextAddr(bs, i)));
    }
  }

  lemma MarkMoves(m: seq<byte>, bs: seq<Block>, i: nat)
    requires |m| == HEAP_SIZE && Tiles(bs, HEAP_START, HEAP_END) && Encodes(m, bs) && i < |bs|
    ensures Moves(m, bs, PutUsed(m, bs[i].addr, 0), bs[i := bs[i].(used := false)])
  {
    hide ReadHeader, Tiles, SamePayloads, PutUsed;
    var a, bs' := bs[i].addr, bs[i := bs[i].(used := false)];
    StoreUsedRewrites(m, a, 0);
    MarkEncodes(m, PutUsed(m, a, 0), bs, i, false);
    MarkTiles(bs, i, false);
    assert bs'[i].addr == a;
    HeaderStoresSparePayloads(m, PutUsed(m, a, 0), bs', {a});
  }

  /** The list between the two merges of a release. */
  function HalfFreed(bs: seq<Block>, i: nat): seq<Block>
    requires i < |bs|
  { MergeNext(bs[i := bs[i].(used := false)], i) }

  /** Releasing a live block never leaves the heap, gives back that block and spares the other
      payloads. The header it leaves at the pointer keeps its magic word. */
  lemma ReleasesLive(m: seq<byte>, bs: seq<Block>, i: nat)
    requires |m| == HEAP_SIZE && Inv(bs) && Encodes(m, bs) && i < |bs| && bs[i].used
    ensures Released(m, bs[i].addr).Some?
    ensures var m' := Released(m, bs[i].addr).value;
            && Inv(FreeAt(bs, i)) && Encodes(m', FreeAt(bs, i))
            && SamePayloads(m, m', Live(FreeAt(bs, i)))
            && Tiles(HalfFreed(bs, i), HEAP_START, HEAP_END) && i < |HalfFreed(bs, i)|
            && ReadHeader(m', bs[i].addr) == HeaderOf(HalfFreed(bs, i), i)
  {
    hide ReadHeader, Tiles, NoAdjacentFree, SamePayloads, Live, JoinNext, JoinPrev, PutUsed;
    assert HeaderInHeap(bs[i].addr);
    hide Encodes;
    var a, b0, b1 := bs[i].addr, bs[i := bs[i].(used := false)], HalfFreed(bs, i);
    var m0 := PutUsed(m, a, 0);
    MarkMoves(m, bs, i);
    JoinNextMoves(m0, b0, i);
    var m1 := JoinNext(m0, a).value;
    JoinPrevMoves(m1, b1, i);
    MovesTrans(m, bs, m0, b0, m1, b1);
    MovesTrans(m, bs, m1, b1, JoinPrev(m1, a).value, FreeAt(bs, i));
    FreeKeepsInv(bs, i);
  }

  // ----- a block that is already free

  lemma ClearedAlready(m: seq<byte>, a: int)
    requires |m| == HEAP_SIZE && HeaderInHeap(a) && ReadHeader(m, a).used == 0
    ensures PutUsed(m, a, 0) == m
  {}

  lemma ReleaseOfFree(m: seq<byte>, bs: seq<Block>, j: nat)
    requires |m| == HEAP_SIZE && Inv(bs) && Encodes(m, bs) && j < |bs| && !bs[j].used
    ensures Released(m, bs[j].addr) == Some(m)
  {
    hide ReadHeader, Tiles, PutUsed, Put;
    ClearedAlready(m, bs[j].addr);
  }

  // ----- a pointer released a moment ago

  /** `m` holds the list `bs`, except that block `j` claims `size` bytes. */
  ghost predicate Swollen(m: seq<byte>, bs: seq<Block>, j: nat, size: int)
    requires |m| == HEAP_SIZE && j < |bs|
  {
    forall k :: 0 <= k < |bs| ==>
                  && HeaderInHeap(bs[k].addr)
                  && ReadHeader(m, bs[k].addr) == if k == j then HeaderOf(bs, k).(size := size) else HeaderOf(bs, k)
  }

  /** If such a memory holds any heap at all, then the claim is true. */
  lemma SizeIsForced(m: seq<byte>, bs: seq<Block>, j: nat, size: int, bs': seq<Block>)
    requires |m| == HEAP_SIZE && Inv(bs) && j < |bs| && Swollen(m, bs, j, size)
    requires Inv(bs') && Encodes(m, bs')
    ensures size == bs[j].size
  {
    hide ReadHeader, NoAdjacentFree;
    var k := 0;
    while k < j
      invariant 0 <= k <= j && k < |bs'| && bs'[k].addr == bs[k].addr
    {
      assert HeaderOf(bs', k).next == HeaderOf(bs, k).next;
      k := k + 1;
    }
    assert HeaderOf(bs', j).next == HeaderOf(bs, j).next;
    assert bs'[j].size == size;
    assert bs[j].End() == bs'[j].End();
  }

  lemma MergedApart(bs: seq<Block>, i: nat)
    requires Tiles(bs, HEAP_START, HEAP_END) && 0 < i < |bs|
    ensures 0 <= bs[i].size <= HEAP_SIZE
    ensures var merged := Absorb(bs, i - 1); forall k :: 0 <= k < |merged| ==> Apart(bs[i].addr, merged[k].addr)
  {
    hide Tiles;
    TilesWithin(bs, HEAP_START, HEAP_END, i);
    forall k | 0 <= k < |bs| && k != i ensures Apart(bs[i].addr, bs[k].addr) { BlocksApart(bs, i, k); }
  }

  /** kfree of a block whose previous neighbour was free leaves a header that still points to that
      neighbour; releasing it again makes the neighbour grow a second time. */
  lemma ReleaseOfMerged(m: seq<byte>, bs: seq<Block>, a: int, j: nat, size: int)
    requires |m| == HEAP_SIZE && Inv(bs) && Encodes(m, bs) && j < |bs| && !bs[j].used && 0 <= size <= HEAP_SIZE
    requires HeaderInHeap(a) && forall k :: 0 <= k < |bs| ==> Apart(a, bs[k].addr)
    requires ReadHeader(m, a) == Header(BLOCK_MAGIC, size, 0, NextAddr(bs, j), bs[j].addr)
    ensures Released(m, a).Some? && Swollen(Released(m, a).value, bs, j, bs[j].size + HDR_SIZE + size)
  {
    hide ReadHeader, Tiles, PutUsed, Put;
    ClearedAlready(m, a);
    TilesWithin(bs, HEAP_START, HEAP_END, j);
    assert JoinNext(m, a) == Some(m);
    var p, grown := bs[j].addr, bs[j].size + HDR_SIZE + size;
    var m1 := Put(m, p, Size, grown % U32);
    StoreRewrites(m, p, Size, grown % U32);
    var m2 := Put(m1, p, Next, NextAddr(bs, j));
    StoreRewrites(m1, p, Next, NextAddr(bs, j));
    if j + 1 < |bs| { StoreRewrites(m2, bs[j + 1].addr, Prev, p); }
    forall k, l | 0 <= k < |bs| && 0 <= l < |bs| && k != l ensures Apart(bs[k].addr, bs[l].addr) { BlocksApart(bs, k, l); }
  }

  /** A second kfree of the same pointer, right after the first: the magic word lets it pass, and
      the memory still holds a heap if and only if the block before the released one was in use or there
      is none. */
  lemma SecondRelease(m: seq<byte>, bs: seq<Block>, i: nat)
    requires |m| == HEAP_SIZE && Inv(bs) && Encodes(m, bs) && i < |bs| && bs[i].used
    ensures Released(m, bs[i].addr).Some?
    ensures var m1 := Released(m, bs[i].addr).value;
            && !Guarded(m1, bs[i].Payload()) && Released(m1, bs[i].addr).Some?
            && var m2 := Released(m1, bs[i].addr).value;
            && ((exists bs' :: Inv(bs') && Encodes(m2, bs')) <==> MergeLo(bs, i) == i)
            && (MergeLo(bs, i) == i ==> m2 == m1)
  {
    hide ReadHeader, Tiles, NoAdjacentFree, SamePayloads, Live, Released;
    var a, bs1 := bs[i].addr, FreeAt(bs, i);
    assert HeaderInHeap(a);
    hide Encodes;
    ReleasesLive(m, bs, i);
    var m1 := Released(m, a).value;
    if MergeLo(bs, i) == i {
      ReleaseOfFree(m1, bs1, i);
    } else {
      var half := HalfFreed(bs, i);
      MergedApart(half, i);
      ReleaseOfMerged(m1, bs1, a, i - 1, half[i].size);
      var m2 := Released(m1, a).value;
      if exists bs' :: Inv(bs') && Encodes(m2, bs') {
        var bs' :| Inv(bs') && Encodes(m2, bs');
        SizeIsForced(m2, bs1, i - 1, bs1[i - 1].size + HDR_SIZE + half[i].size, bs');
      }
    }
  }

  /** Such a heap is reached by two requests and the release of the first. */
  lemma SecondReleaseBreaks() returns (run: seq<seq<Block>>)
    ensures IsRun(run, [Malloc(8), Malloc(8), Free(0)]) && |run[3]| > 1 && run[3][1].used && MergeLo(run[3], 1) == 0
  {
    var rest := Block(HEAP_START + 28, HEAP_SIZE - 48, false);
    var last := Block(HEAP_START + 56, HEAP_SIZE - 76, false);
    var a, b := Block(HEAP_START, 8, true), Block(HEAP_START + 28, 8, true);
    assert FirstFit(InitBlocks, 8, 0) == 0 && FirstFit([a, rest], 8, 0) == 1;
    assert Take(InitBlocks, 0, 8) == [a, rest];
    assert Take([a, rest], 1, 8) == [a, b, last];
    assert FreeAt([a, b, last], 0) == [a.(used := false), b, last];
    run := [InitBlocks, [a, rest], [a, b, last], [a.(used := false), b, last]];
    var ops := [Malloc(8), Malloc(8), Free(0)];
    assert Step(run[0], ops[0]) == run[1] && Step(run[1], ops[1]) == run[2] && Step(run[2], ops[2]) == run[3];
  }
}
