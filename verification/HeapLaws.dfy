/** What holds of the heap over every run of kmalloc and of kfree on live pointers. */
module HeapLaws {
  import opened Bytes
  import opened HeapSpec

  // ----- each step keeps the invariant and changes the live set by one block

  /** Tidy stretches join when the blocks that meet are not both free. */
  lemma TidyConcat(bs: seq<Block>, cs: seq<Block>, lo: int, mid: int, hi: int)
    requires Tidy(bs, lo, mid) && Tidy(cs, mid, hi)
    requires bs != [] && cs != [] ==> bs[|bs| - 1].used || cs[0].used
    ensures Tidy(bs + cs, lo, hi)
  {
    var ds := bs + cs;
    forall i, j | 0 <= i && j == i + 1 < |ds|
      ensures ds[i].End() == ds[j].addr && (ds[i].used || ds[j].used)
    {
      if j < |bs| {
        assert ds[i] == bs[i] && ds[j] == bs[j];
      } else if i >= |bs| {
        assert ds[i] == cs[i - |bs|] && ds[j] == cs[j - |bs|];
      }
    }
    if bs == [] { assert ds == cs; }
    if cs == [] { assert ds == bs; }
  }

  lemma TidySplit(bs: seq<Block>, lo: int, hi: int, i: nat)
    requires Tidy(bs, lo, hi) && i < |bs|
    ensures Tidy(bs[..i], lo, bs[i].addr)
    ensures Tidy(bs[i + 1..], bs[i].End(), hi)
    ensures i > 0 ==> bs[i - 1].used || bs[i].used
    ensures i + 1 < |bs| ==> bs[i].used || bs[i + 1].used
  {
    assert forall j :: 0 <= j < i ==> bs[..i][j] == bs[j];
    var cs := bs[i + 1..];
    assert forall j, k :: 0 <= j && k == i + 1 + j < |bs| ==> cs[j] == bs[k];
  }

  /** A tidy heap stays tidy when one block is replaced by a tidy stretch whose free ends
      meet no free neighbour. */
  lemma TidyReplace(bs: seq<Block>, i: nat, cs: seq<Block>)
    requires Inv(bs) && i < |bs| && cs != [] && Tidy(cs, bs[i].addr, bs[i].End())
    requires i > 0 ==> bs[i - 1].used || cs[0].used
    requires i + 1 < |bs| ==> cs[|cs| - 1].used || bs[i + 1].used
    ensures Inv(bs[..i] + cs + bs[i + 1..])
  {
    TidySplit(bs, HEAP_START, HEAP_END, i);
    TidyConcat(bs[..i], cs, HEAP_START, bs[i].addr, bs[i].End());
    TidyConcat(bs[..i] + cs, bs[i + 1..], HEAP_START, bs[i].End(), HEAP_END);
  }

  lemma TakeTiles(bs: seq<Block>, i: nat, n: int)
    requires Inv(bs) && i < |bs| && Fits(bs[i], n) && n >= 0
    ensures Inv(Take(bs, i, n))
  {
    TidySplit(bs, HEAP_START, HEAP_END, i);
    TidyReplace(bs, i, Carve(bs[i], n));
  }

  lemma TakeLive(bs: seq<Block>, i: nat, n: int)
    requires Inv(bs) && i < |bs| && Fits(bs[i], n) && n >= 0
    ensures Live(Take(bs, i, n)) == Live(bs) + {Carve(bs[i], n)[0]}
    ensures Carve(bs[i], n)[0] !in Live(bs)
    ensures LiveAt(Take(bs, i, n), i, bs[i].Payload())
  {
    var bs' := Take(bs, i, n);
    forall b | b in bs && b.used ensures b in bs' && b != Carve(bs[i], n)[0] {
      var j :| 0 <= j < |bs| && bs[j] == b;
      assert b in bs[..i] || b in bs[i + 1..];
      if j < i { TilesOrdered(bs, HEAP_START, HEAP_END, j, i); } else { TilesOrdered(bs, HEAP_START, HEAP_END, i, j); }
    }
    assert bs' == bs[..i] + Carve(bs[i], n) + bs[i + 1..];
    assert bs'[i] == Carve(bs[i], n)[0];
  }

  /** The first and last index of the stretch that freeing block `i` makes one block. */
  function MergeLo(bs: seq<Block>, i: nat): nat
    requires i < |bs|
  { if i > 0 && !bs[i - 1].used then i - 1 else i }

  function MergeHi(bs: seq<Block>, i: nat): nat
    requires i < |bs|
  { if i + 1 < |bs| && !bs[i + 1].used then i + 1 else i }

  /** The list with blocks `lo` to `hi` made one free block. */
  function Merged(bs: seq<Block>, lo: nat, hi: nat): seq<Block>
    requires lo <= hi < |bs|
  { bs[..lo] + [Block(bs[lo].addr, bs[hi].End() - bs[lo].addr - HDR_SIZE, false)] + bs[hi + 1..] }

  /** kfree turns that stretch into one free block and leaves the rest alone. */
  lemma FreeShape(bs: seq<Block>, i: nat)
    requires Inv(bs) && i < |bs| && bs[i].used
    ensures FreeAt(bs, i) == Merged(bs, MergeLo(bs, i), MergeHi(bs, i))
  {
    MergesNeighbours(bs, i);
  }

  lemma MergesNeighbours(bs: seq<Block>, i: nat)
    requires i < |bs| && (i > 0 ==> bs[i - 1].End() == bs[i].addr) && (i + 1 < |bs| ==> bs[i].End() == bs[i + 1].addr)
    ensures FreeAt(bs, i) == Merged(bs, MergeLo(bs, i), MergeHi(bs, i))
  {
    var lo, hi := MergeLo(bs, i), MergeHi(bs, i);
    var b0 := bs[i := bs[i].(used := false)];
    var b1 := MergeNext(b0, i);
    assert b1 == bs[..i] + [Block(bs[i].addr, bs[hi].End() - bs[i].addr - HDR_SIZE, false)] + bs[hi + 1..];
    assert MergePrev(b1, i) == if lo == i then b1 else Absorb(b1, lo);
  }

  /** A stretch between used neighbours becomes one free block. */
  lemma MergeStretch(bs: seq<Block>, lo: nat, hi: nat)
    requires Inv(bs) && lo <= hi < |bs| && bs[lo].addr + HDR_SIZE <= bs[hi].End()
    requires lo > 0 ==> bs[lo - 1].used
    requires hi + 1 < |bs| ==> bs[hi + 1].used
    ensures Inv(Merged(bs, lo, hi))
  {
    var m := [Block(bs[lo].addr, bs[hi].End() - bs[lo].addr - HDR_SIZE, false)];
    TidySplit(bs, HEAP_START, HEAP_END, lo);
    TidySplit(bs, HEAP_START, HEAP_END, hi);
    TidyConcat(bs[..lo], m, HEAP_START, bs[lo].addr, bs[hi].End());
    TidyConcat(bs[..lo] + m, bs[hi + 1..], HEAP_START, bs[hi].End(), HEAP_END);
  }

  lemma MergeEnds(bs: seq<Block>, i: nat)
    requires Inv(bs) && i < |bs| && bs[i].used
    ensures var lo, hi := MergeLo(bs, i), MergeHi(bs, i);
            && lo <= hi && bs[lo].addr + HDR_SIZE <= bs[hi].End()
            && (lo > 0 ==> bs[lo - 1].used)
            && (hi + 1 < |bs| ==> bs[hi + 1].used)
  {
    var lo, hi := MergeLo(bs, i), MergeHi(bs, i);
    if lo < hi { TilesOrdered(bs, HEAP_START, HEAP_END, lo, hi); }
  }

  /** Releasing a live block leaves a tiled heap without free neighbours. */
  lemma FreeKeepsInv(bs: seq<Block>, i: nat)
    requires Inv(bs) && i < |bs| && bs[i].used
    ensures Inv(FreeAt(bs, i))
  {
    hide Merged;
    FreeShape(bs, i);
    MergeEnds(bs, i);
    MergeStretch(bs, MergeLo(bs, i), MergeHi(bs, i));
  }

  lemma AbsorbTiles(bs: seq<Block>, i: nat)
    requires Tiles(bs, HEAP_START, HEAP_END) && i + 1 < |bs|
    ensures Tiles(Absorb(bs, i), HEAP_START, HEAP_END)
  {
    var bs' := Absorb(bs, i);
    assert forall j :: 0 <= j < |bs'| && j != i ==> bs'[j] == if j < i then bs[j] else bs[j + 1];
  }

  lemma AbsorbLive(bs: seq<Block>, i: nat)
    requires i + 1 < |bs| && !bs[i].used && !bs[i + 1].used
    ensures Live(Absorb(bs, i)) == Live(bs)
  {
    assert bs == bs[..i] + [bs[i], bs[i + 1]] + bs[i + 2..];
  }

  lemma FreeLive(bs: seq<Block>, i: nat)
    requires Inv(bs) && i < |bs| && bs[i].used
    ensures Live(FreeAt(bs, i)) == Live(bs) - {bs[i]}
  {
    var b0 := bs[i := bs[i].(used := false)];
    assert Live(b0) == Live(bs) - {bs[i]} by {
      forall j | 0 <= j < |bs| && j != i ensures bs[j] != bs[i] {
        if j < i { TilesOrdered(bs, HEAP_START, HEAP_END, j, i); } else { TilesOrdered(bs, HEAP_START, HEAP_END, i, j); }
      }
      forall b | b in bs && b.used && b != bs[i] ensures b in b0 {
        var j :| 0 <= j < |bs| && bs[j] == b;
        assert b0[j] == b;
      }
    }
    var b1 := MergeNext(b0, i);
    if b1 != b0 { AbsorbLive(b0, i); }
    if MergePrev(b1, i) != b1 { AbsorbLive(b1, i - 1); }
  }

  // ----- the canonical form

  lemma TailTiles(bs: seq<Block>, lo: int, hi: int)
    requires Tidy(bs, lo, hi) && |bs| > 0
    ensures Tidy(bs[1..], bs[0].End(), hi)
    ensures Live(bs[1..]) == Live(bs) - {bs[0]}
    ensures forall b :: b in bs[1..] ==> b.addr >= bs[0].End()
  {
    TidySplit(bs, lo, hi, 0);
    forall b | b in bs[1..] ensures b.addr >= bs[0].End() {
      var j :| 0 < j < |bs| && bs[j] == b;
      TilesOrdered(bs, lo, hi, 0, j);
    }
    assert bs == [bs[0]] + bs[1..];
  }

  /** A used block at the front of one list is also at the front of the other. */
  lemma SameUsedHead(bs: seq<Block>, cs: seq<Block>, lo: int, hi: int)
    requires Tiles(bs, lo, hi) && Tiles(cs, lo, hi) && NoAdjacentFree(cs)
    requires Live(bs) == Live(cs) && |bs| > 0 && |cs| > 0 && bs[0].used
    ensures cs[0] == bs[0]
  {
    assert bs[0] in Live(cs);
    TailTiles(cs, lo, hi);
    assert cs == [cs[0]] + cs[1..];
  }

  /** Two free front blocks cannot have different lengths. */
  lemma FreeHeadNotShorter(bs: seq<Block>, cs: seq<Block>, lo: int, hi: int)
    requires Tiles(bs, lo, hi) && Tiles(cs, lo, hi) && NoAdjacentFree(bs) && NoAdjacentFree(cs)
    requires Live(bs) == Live(cs) && |bs| > 0 && |cs| > 0 && !bs[0].used && !cs[0].used
    ensures bs[0].size >= cs[0].size
  {
    TilesWithin(cs, lo, hi, 0);
    TailTiles(cs, lo, hi);
    assert cs == [cs[0]] + cs[1..];
    if |bs| > 1 {
      assert bs[1].addr == bs[0].End() && bs[1] in Live(cs);
    }
  }

  /** Under the invariant the block list is a function of the live allocations. */
  lemma {:induction false} CanonicalForm(bs: seq<Block>, cs: seq<Block>, lo: int, hi: int)
    requires Tiles(bs, lo, hi) && NoAdjacentFree(bs)
    requires Tiles(cs, lo, hi) && NoAdjacentFree(cs)
    requires Live(bs) == Live(cs)
    ensures bs == cs
  {
    if |bs| > 0 { TilesWithin(bs, lo, hi, 0); }
    if |cs| > 0 { TilesWithin(cs, lo, hi, 0); }
    if |bs| > 0 && |cs| > 0 {
      if bs[0].used {
        SameUsedHead(bs, cs, lo, hi);
      } else if cs[0].used {
        SameUsedHead(cs, bs, lo, hi);
      } else {
        FreeHeadNotShorter(bs, cs, lo, hi);
        FreeHeadNotShorter(cs, bs, lo, hi);
      }
      TailTiles(bs, lo, hi);
      TailTiles(cs, lo, hi);
      CanonicalForm(bs[1..], cs[1..], bs[0].End(), hi);
      assert bs == [bs[0]] + bs[1..];
      assert cs == [cs[0]] + cs[1..];
    }
  }

  /** kfree(kmalloc(size)) puts every header back as it was. */
  lemma FreeUndoesAlloc(bs: seq<Block>, size: int, i: nat)
    requires Inv(bs) && 0 < size < U32
    requires Alloc(bs, size).1 != 0
    requires LiveAt(Alloc(bs, size).0, i, Alloc(bs, size).1)
    ensures FreeAt(Alloc(bs, size).0, i) == bs
  {
    var n := Round8(size);
    var k := FirstFit(bs, n, 0);
    var bs' := Take(bs, k, n);
    TakeTiles(bs, k, n);
    TakeLive(bs, k, n);
    if i < k { TilesOrdered(bs', HEAP_START, HEAP_END, i, k); }
    if k < i { TilesOrdered(bs', HEAP_START, HEAP_END, k, i); }
    assert bs'[i] == Carve(bs[k], n)[0];
    FreeKeepsInv(bs', i);
    FreeLive(bs', i);
    CanonicalForm(FreeAt(bs', i), bs, HEAP_START, HEAP_END);
  }

  // ----- completeness of first fit

  /** No live block touches any of the `len` bytes from `e` on. */
  ghost predicate Unallocated(bs: seq<Block>, e: int, len: int) {
    && HEAP_START <= e && e + len <= HEAP_END
    && forall i :: 0 <= i < |bs| && bs[i].used ==> bs[i].End() <= e || e + len <= bs[i].addr
  }

  /** Coalescing at work: an unallocated extent lies inside one free block. */
  lemma ExtentInOneBlock(bs: seq<Block>, e: int, len: int) returns (i: int)
    requires Inv(bs) && Unallocated(bs, e, len) && len > 0
    ensures 0 <= i < |bs| && !bs[i].used && bs[i].addr <= e && e + len <= bs[i].End()
  {
    i := BlockAround(bs, HEAP_START, HEAP_END, e);
    if i + 1 < |bs| {
      assert bs[i + 1].addr == bs[i].End() && (bs[i].used || bs[i + 1].used);
    }
  }

  lemma FreeBlockIsExtent(bs: seq<Block>, i: int)
    requires Inv(bs) && 0 <= i < |bs| && !bs[i].used
    ensures Unallocated(bs, bs[i].addr, HDR_SIZE + bs[i].size)
  {
    TilesWithin(bs, HEAP_START, HEAP_END, i);
    forall j | 0 <= j < |bs| && bs[j].used ensures bs[j].End() <= bs[i].addr || bs[i].End() <= bs[j].addr {
      if j < i { TilesOrdered(bs, HEAP_START, HEAP_END, j, i); } else { TilesOrdered(bs, HEAP_START, HEAP_END, i, j); }
    }
  }

  /** kmalloc returns NULL exactly when no extent for a header and the rounded size is left;
      otherwise the block it hands out starts at the lowest such extent. */
  lemma AllocComplete(bs: seq<Block>, size: int)
    requires Inv(bs) && 0 < size < U32
    ensures var len, ptr := HDR_SIZE + Round8(size), Alloc(bs, size).1;
            && (ptr == 0 <==> forall e :: !Unallocated(bs, e, len))
            && (ptr != 0 ==> Unallocated(bs, ptr - HDR_SIZE, len))
            && (ptr != 0 ==> forall e :: Unallocated(bs, e, len) ==> ptr - HDR_SIZE <= e)
  {
    var n := Round8(size);
    var len := HDR_SIZE + n;
    var k := FirstFit(bs, n, 0);
    forall e | Unallocated(bs, e, len) ensures k < |bs| && bs[k].addr <= e {
      var i := ExtentInOneBlock(bs, e, len);
      assert Fits(bs[i], n);
      if k < i { TilesOrdered(bs, HEAP_START, HEAP_END, k, i); }
    }
    if k < |bs| {
      FreeBlockIsExtent(bs, k);
      TilesWithin(bs, HEAP_START, HEAP_END, k);
      assert Unallocated(bs, bs[k].addr, len);
    }
  }

  /** A request fails exactly when it is for 0 bytes or nothing fits, and then every block stays as it is. */
  lemma AllocFails(bs: seq<Block>, size: int)
    requires Inv(bs) && 0 <= size < U32
    ensures var len := HDR_SIZE + Round8(size);
            Alloc(bs, size).1 == 0 <==> size == 0 || forall e :: !Unallocated(bs, e, len)
    ensures Alloc(bs, size).1 == 0 ==> Alloc(bs, size).0 == bs
  {
    if size > 0 {
      AllocComplete(bs, size);
      var k := FirstFit(bs, Round8(size), 0);
      if k < |bs| { TilesWithin(bs, HEAP_START, HEAP_END, k); }
    }
  }

  /** What a successful kmalloc hands out: one new live block around the returned pointer, inside
      the heap, wasting less than a header and 8 bytes, and at least as large as asked for exactly
      when the rounding did not wrap. */
  lemma AllocGrants(bs: seq<Block>, size: int) returns (b: Block)
    requires Inv(bs) && 0 < size < U32 && Alloc(bs, size).1 != 0
    ensures b.used && b.Payload() == Alloc(bs, size).1 && b !in Live(bs)
    ensures Live(Alloc(bs, size).0) == Live(bs) + {b}
    ensures HEAP_START <= b.addr && b.End() <= HEAP_END
    ensures Round8(size) <= b.size < Round8(size) + HDR_SIZE + 8
    ensures size <= 0xFFFF_FFF8 ==> size <= b.size
    ensures size > 0xFFFF_FFF8 ==> b.size < size
  {
    var n := Round8(size);
    var k := FirstFit(bs, n, 0);
    b := Carve(bs[k], n)[0];
    TakeLive(bs, k, n);
    TilesWithin(bs, HEAP_START, HEAP_END, k);
  }

  // ----- runs

  datatype Op = Malloc(size: int) | Free(index: nat)

  /** kfree is called on the live block at `index`; kmalloc takes any size_t. */
  predicate Enabled(bs: seq<Block>, op: Op) {
    match op
    case Malloc(size) => 0 <= size < U32
    case Free(i) => i < |bs| && bs[i].used
  }

  function Step(bs: seq<Block>, op: Op): seq<Block>
    requires Enabled(bs, op)
  {
    match op
    case Malloc(size) => Alloc(bs, size).0
    case Free(i) => FreeAt(bs, i)
  }

  /** `run` is the list of heap states, one more than there are operations. */
  ghost predicate IsRun(run: seq<seq<Block>>, ops: seq<Op>) {
    && |run| == |ops| + 1 && run[0] == InitBlocks
    && forall k :: 0 <= k < |ops| ==> Enabled(run[k], ops[k]) && run[k + 1] == Step(run[k], ops[k])
  }

  lemma StepKeepsInv(bs: seq<Block>, op: Op)
    requires Inv(bs) && Enabled(bs, op)
    ensures Inv(Step(bs, op))
  {
    match op
    case Free(i) => FreeKeepsInv(bs, i);
    case Malloc(size) =>
      if size > 0 {
        var k := FirstFit(bs, Round8(size), 0);
        if k < |bs| { TakeTiles(bs, k, Round8(size)); }
      }
  }

  lemma CarveSizes(b: Block, n: int)
    requires b.size % 4 == 0 && n % 8 == 0
    ensures forall c :: c in Carve(b, n) ==> c.size % 4 == 0
    ensures b.size >= 8 && n >= 8 ==> forall c :: c in Carve(b, n) ==> c.size >= 8
  {
    var rest := b.size - n - HDR_SIZE;
    assert n % 4 == 0 && rest % 4 == 0;
  }

  lemma TakeKeepsSizes(bs: seq<Block>, i: nat, n: int)
    requires SizesMultipleOf4(bs) && i < |bs| && n % 8 == 0
    ensures SizesMultipleOf4(Take(bs, i, n))
    ensures SizesAtLeast8(bs) && n >= 8 ==> SizesAtLeast8(Take(bs, i, n))
  {
    CarveSizes(bs[i], n);
  }

  lemma AbsorbKeepsSizes(bs: seq<Block>, i: nat)
    requires SizesMultipleOf4(bs) && i + 1 < |bs|
    ensures SizesMultipleOf4(Absorb(bs, i))
    ensures SizesAtLeast8(bs) ==> SizesAtLeast8(Absorb(bs, i))
  {
    assert (bs[i].size + HDR_SIZE + bs[i + 1].size) % 4 == 0;
  }

  lemma FreeKeepsSizes(bs: seq<Block>, i: nat)
    requires SizesMultipleOf4(bs) && i < |bs|
    ensures SizesMultipleOf4(FreeAt(bs, i))
    ensures SizesAtLeast8(bs) ==> SizesAtLeast8(FreeAt(bs, i))
  {
    var b0 := bs[i := bs[i].(used := false)];
    var b1 := MergeNext(b0, i);
    if b1 != b0 { AbsorbKeepsSizes(b0, i); }
    if MergePrev(b1, i) != b1 { AbsorbKeepsSizes(b1, i - 1); }
  }

  lemma StepKeepsSizes(bs: seq<Block>, op: Op)
    requires Inv(bs) && Enabled(bs, op) && SizesMultipleOf4(bs)
    ensures SizesMultipleOf4(Step(bs, op))
    ensures SizesAtLeast8(bs) && (op.Malloc? ==> op.size <= 0xFFFF_FFF8) ==> SizesAtLeast8(Step(bs, op))
  {
    match op
    case Free(i) =>
      FreeKeepsSizes(bs, i);
    case Malloc(size) =>
      if size > 0 {
        var n := Round8(size);
        var k := FirstFit(bs, n, 0);
        if k < |bs| { TakeKeepsSizes(bs, k, n); }
      }
  }

  /** Every state of every run is tiled and coalesced, with sizes that are multiples of 4. */
  lemma {:induction false} RunKeepsInv(run: seq<seq<Block>>, ops: seq<Op>, k: nat)
    requires IsRun(run, ops) && k <= |ops|
    ensures Inv(run[k]) && SizesMultipleOf4(run[k])
  {
    if k > 0 {
      RunKeepsInv(run, ops, k - 1);
      StepKeepsInv(run[k - 1], ops[k - 1]);
      StepKeepsSizes(run[k - 1], ops[k - 1]);
    }
  }

  /** Without a wrapping request no block is ever smaller than 8 bytes. */
  lemma {:induction false} RunKeepsSizes(run: seq<seq<Block>>, ops: seq<Op>, k: nat)
    requires IsRun(run, ops) && k <= |ops|
    requires forall j :: 0 <= j < k && ops[j].Malloc? ==> ops[j].size <= 0xFFFF_FFF8
    ensures SizesAtLeast8(run[k])
  {
    if k > 0 {
      RunKeepsInv(run, ops, k - 1);
      RunKeepsSizes(run, ops, k - 1);
      StepKeepsSizes(run[k - 1], ops[k - 1]);
    }
  }

  /** A run that has freed everything is back to the single block of memory_init. */
  lemma AllFreedIsInitial(run: seq<seq<Block>>, ops: seq<Op>)
    requires IsRun(run, ops) && Live(run[|ops|]) == {}
    ensures run[|ops|] == InitBlocks
  {
    RunKeepsInv(run, ops, |ops|);
    assert Live(InitBlocks) == {};
    CanonicalForm(run[|ops|], InitBlocks, HEAP_START, HEAP_END);
  }

  /** Live payloads of a reachable heap are pairwise disjoint and inside the heap. */
  lemma LivePayloadsDisjoint(run: seq<seq<Block>>, ops: seq<Op>, b: Block, c: Block)
    requires IsRun(run, ops) && b in Live(run[|ops|]) && c in Live(run[|ops|]) && b != c
    ensures HEAP_START < b.Payload() && b.End() <= HEAP_END
    ensures b.End() <= c.addr || c.End() <= b.addr
  {
    var bs := run[|ops|];
    RunKeepsInv(run, ops, |ops|);
    var i :| 0 <= i < |bs| && bs[i] == b;
    var j :| 0 <= j < |bs| && bs[j] == c;
    TilesWithin(bs, HEAP_START, HEAP_END, i);
    if i < j { TilesOrdered(bs, HEAP_START, HEAP_END, i, j); } else { TilesOrdered(bs, HEAP_START, HEAP_END, j, i); }
  }

  /** A wrapped request breaks the promise: the first kmalloc(0xFFFFFFF9) succeeds with an empty block. */
  lemma WrappedRequestIsEmpty()
    ensures Alloc(InitBlocks, 0xFFFF_FFF9)
         == ([Block(HEAP_START, 0, true), Block(HEAP_START + HDR_SIZE, HEAP_SIZE - 2 * HDR_SIZE, false)], HEAP_START + HDR_SIZE)
  {
    assert Round8(0xFFFF_FFF9) == 0;
    assert FirstFit(InitBlocks, 0, 0) == 0;
    assert Take(InitBlocks, 0, 0) == Carve(InitBlocks[0], 0);
  }

  // ----- memory_stats

  function SumSizes(bs: seq<Block>, used: bool): int {
    if bs == [] then 0
    else SumSizes(bs[..|bs| - 1], used) + if bs[|bs| - 1].used == used then bs[|bs| - 1].size else 0
  }

  /** Used bytes, free bytes and headers account for the whole range. */
  lemma {:induction false} StatsConserve(bs: seq<Block>, lo: int, hi: int)
    requires Tiles(bs, lo, hi)
    ensures SumSizes(bs, true) >= 0 && SumSizes(bs, false) >= 0
    ensures SumSizes(bs, true) + SumSizes(bs, false) + HDR_SIZE * |bs| == hi - lo
  {
    if |bs| > 0 {
      var ps := bs[..|bs| - 1];
      assert Tiles(ps, lo, bs[|bs| - 1].addr);
      StatsConserve(ps, lo, bs[|bs| - 1].addr);
    }
  }

  lemma {:induction false} SumConcat(bs: seq<Block>, cs: seq<Block>, used: bool)
    ensures SumSizes(bs + cs, used) == SumSizes(bs, used) + SumSizes(cs, used)
  {
    if cs == [] {
      assert bs + cs == bs;
    } else {
      SumConcat(bs, cs[..|cs| - 1], used);
      assert (bs + cs)[..|bs + cs| - 1] == bs + cs[..|cs| - 1];
    }
  }

  lemma SumOne(b: Block, used: bool)
    ensures SumSizes([b], used) == if b.used == used then b.size else 0
  {
    assert [b][..0] == [];
  }

  /** The sum over a list of which the stretch from `i` to `j` is looked at on its own. */
  lemma SumParts(bs: seq<Block>, i: nat, j: nat, used: bool)
    requires i <= j <= |bs|
    ensures SumSizes(bs, used) == SumSizes(bs[..i], used) + SumSizes(bs[i..j], used) + SumSizes(bs[j..], used)
  {
    SumConcat(bs[..i], bs[i..j], used);
    SumConcat(bs[..i] + bs[i..j], bs[j..], used);
    assert bs[..i] + bs[i..j] + bs[j..] == bs;
  }

  /** Nothing is counted as used while nothing is live. */
  lemma {:induction false} UsedNone(bs: seq<Block>)
    requires Live(bs) == {}
    ensures SumSizes(bs, true) == 0
  {
    if bs != [] {
      var ps, b := bs[..|bs| - 1], bs[|bs| - 1];
      assert bs == ps + [b];
      assert Live(ps) <= Live(bs) && (b.used ==> b in Live(bs));
      UsedNone(ps);
    }
  }

  /** A successful kmalloc raises the used bytes by the size of the one block it makes live. */
  lemma UsedAfterAlloc(bs: seq<Block>, size: int, b: Block)
    requires Inv(bs) && 0 < size < U32 && Alloc(bs, size).1 != 0
    requires b !in Live(bs) && Live(Alloc(bs, size).0) == Live(bs) + {b}
    ensures SumSizes(Alloc(bs, size).0, true) == SumSizes(bs, true) + b.size
  {
    hide Tiles, NoAdjacentFree, Live, SumSizes;
    var n := Round8(size);
    var k := FirstFit(bs, n, 0);
    var cs := Carve(bs[k], n);
    TakeLive(bs, k, n);
    assert b == cs[0] by { assert b in Live(bs) + {cs[0]}; }
    SumParts(bs, k, k + 1, true);
    assert bs[k..k + 1] == [bs[k]];
    SumOne(bs[k], true);
    SumConcat(bs[..k], cs, true);
    SumConcat(bs[..k] + cs, bs[k + 1..], true);
    SumOne(cs[0], true);
    if |cs| == 2 {
      SumOne(cs[1], true);
      SumConcat([cs[0]], [cs[1]], true);
      assert cs == [cs[0]] + [cs[1]];
    } else {
      assert cs == [cs[0]];
    }
  }

  lemma UsedAfterAbsorb(bs: seq<Block>, i: nat)
    requires i + 1 < |bs| && !bs[i].used && !bs[i + 1].used
    ensures SumSizes(Absorb(bs, i), true) == SumSizes(bs, true)
  {
    hide SumSizes;
    var b := bs[i].(size := bs[i].size + HDR_SIZE + bs[i + 1].size);
    SumParts(bs, i, i + 2, true);
    assert bs[i..i + 2] == [bs[i]] + [bs[i + 1]];
    SumConcat([bs[i]], [bs[i + 1]], true);
    SumOne(bs[i], true);
    SumOne(bs[i + 1], true);
    SumOne(b, true);
    SumConcat(bs[..i], [b], true);
    SumConcat(bs[..i] + [b], bs[i + 2..], true);
  }

  /** kfree lowers the used bytes by the size of the block it releases. */
  lemma UsedAfterFree(bs: seq<Block>, i: nat)
    requires i < |bs| && bs[i].used
    ensures SumSizes(FreeAt(bs, i), true) == SumSizes(bs, true) - bs[i].size
  {
    hide SumSizes, Absorb;
    var b0 := bs[i := bs[i].(used := false)];
    SumParts(bs, i, i + 1, true);
    SumParts(b0, i, i + 1, true);
    assert b0[..i] == bs[..i] && b0[i..i + 1] == [b0[i]] && b0[i + 1..] == bs[i + 1..] && bs[i..i + 1] == [bs[i]];
    SumOne(bs[i], true);
    SumOne(b0[i], true);
    var b1 := MergeNext(b0, i);
    if i + 1 < |b0| && !b0[i + 1].used {
      UsedAfterAbsorb(b0, i);
      AbsorbAt(b0, i);
    }
    if i > 0 && !b1[i - 1].used { UsedAfterAbsorb(b1, i - 1); }
  }

  lemma AbsorbAt(bs: seq<Block>, i: nat)
    requires i + 1 < |bs|
    ensures |Absorb(bs, i)| == |bs| - 1 && Absorb(bs, i)[i].used == bs[i].used
    ensures forall j :: 0 <= j < i ==> Absorb(bs, i)[j] == bs[j]
  {}
}
