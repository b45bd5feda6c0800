/** The kernel heap as a list of blocks: what kmalloc and kfree do to the list, and
    the laws that follow from the list alone. */
module HeapSpec {
  import opened Bytes

  const HEAP_START := 0x0020_0000
  const HEAP_SIZE := 0x0008_0000
  const HEAP_END := HEAP_START + HEAP_SIZE
  const HDR_SIZE := 20

  /** A block: the address of its header, the size of its payload, and its state. */
  datatype Block = Block(addr: int, size: int, used: bool) {
    function Payload(): int { addr + HDR_SIZE }
    function End(): int { addr + HDR_SIZE + size }
  }

  const InitBlocks: seq<Block> := [Block(HEAP_START, HEAP_SIZE - HDR_SIZE, false)]

  // ----- the invariant

  /** The blocks lie end to end from `lo` to `hi`. */
  ghost predicate Tiles(bs: seq<Block>, lo: int, hi: int) {
    && (forall i :: 0 <= i < |bs| ==> bs[i].size >= 0)
    && (forall i, j :: 0 <= i && j == i + 1 < |bs| ==> bs[i].End() == bs[j].addr)
    && (if |bs| == 0 then lo == hi else bs[0].addr == lo && bs[|bs| - 1].End() == hi)
  }

  ghost predicate NoAdjacentFree(bs: seq<Block>) {
    forall i, j :: 0 <= i && j == i + 1 < |bs| ==> bs[i].used || bs[j].used
  }

  ghost predicate Tidy(bs: seq<Block>, lo: int, hi: int) {
    Tiles(bs, lo, hi) && NoAdjacentFree(bs)
  }

  ghost predicate Inv(bs: seq<Block>) { Tidy(bs, HEAP_START, HEAP_END) }

  ghost predicate SizesMultipleOf4(bs: seq<Block>) {
    forall i :: 0 <= i < |bs| ==> bs[i].size % 4 == 0
  }

  ghost predicate SizesAtLeast8(bs: seq<Block>) {
    forall i :: 0 <= i < |bs| ==> bs[i].size >= 8
  }

  /** The live allocations. */
  ghost function Live(bs: seq<Block>): set<Block> {
    set b | b in bs && b.used
  }

  // ----- kmalloc

  /** size = (size + 7) & ~7 in 32-bit unsigned arithmetic. */
  function Round8(size: int): (n: int)
    requires 0 <= size < U32
    ensures n % 8 == 0
    ensures size <= 0xFFFF_FFF8 ==> size <= n < size + 8
    ensures 0 < size <= 0xFFFF_FFF8 ==> n >= 8
    ensures size > 0xFFFF_FFF8 ==> n == 0
  {
    var t := (size + 7) % U32;
    t - t % 8
  }

  predicate Fits(b: Block, n: int) { !b.used && b.size >= n }

  /** The index of the first block from `i` on that fits, or |bs|. */
  function FirstFit(bs: seq<Block>, n: int, i: nat): (r: nat)
    requires i <= |bs|
    ensures i <= r <= |bs|
    ensures forall j :: i <= j < r ==> !Fits(bs[j], n)
    ensures r < |bs| ==> Fits(bs[r], n)
    decreases |bs| - i
  {
    if i == |bs| || Fits(bs[i], n) then i else FirstFit(bs, n, i + 1)
  }

  /** Block `b` handed out for `n` bytes, split when the rest can hold a header and 8 bytes. */
  function Carve(b: Block, n: int): seq<Block> {
    if b.size >= n + HDR_SIZE + 8 then
      [Block(b.addr, n, true), Block(b.addr + HDR_SIZE + n, b.size - n - HDR_SIZE, false)]
    else
      [b.(used := true)]
  }

  function Take(bs: seq<Block>, i: nat, n: int): seq<Block>
    requires i < |bs|
  {
    bs[..i] + Carve(bs[i], n) + bs[i + 1..]
  }

  /** The new block list and the pointer returned (0 is NULL). */
  function Alloc(bs: seq<Block>, size: int): (seq<Block>, int)
    requires 0 <= size < U32
  {
    if size == 0 then (bs, 0) else
    var n := Round8(size);
    var i := FirstFit(bs, n, 0);
    if i == |bs| then (bs, 0) else (Take(bs, i, n), bs[i].Payload())
  }

  // ----- kfree

  /** Block `i` absorbs block `i + 1`, header included. */
  function Absorb(bs: seq<Block>, i: nat): seq<Block>
    requires i + 1 < |bs|
  {
    bs[..i] + [bs[i].(size := bs[i].size + HDR_SIZE + bs[i + 1].size)] + bs[i + 2..]
  }

  function MergeNext(bs: seq<Block>, i: nat): seq<Block>
    requires i < |bs|
  {
    if i + 1 < |bs| && !bs[i + 1].used then Absorb(bs, i) else bs
  }

  function MergePrev(bs: seq<Block>, i: nat): seq<Block>
    requires i < |bs|
  {
    if i > 0 && !bs[i - 1].used then Absorb(bs, i - 1) else bs
  }

  function FreeAt(bs: seq<Block>, i: nat): seq<Block>
    requires i < |bs|
  {
    MergePrev(MergeNext(bs[i := bs[i].(used := false)], i), i)
  }

  /** `ptr` is the payload address of live block `i`. */
  predicate LiveAt(bs: seq<Block>, i: int, ptr: int) {
    0 <= i < |bs| && bs[i].used && bs[i].Payload() == ptr
  }

  // ----- consequences of tiling

  lemma TilesWithin(bs: seq<Block>, lo: int, hi: int, i: int)
    requires Tiles(bs, lo, hi)
    requires 0 <= i < |bs|
    ensures lo <= bs[i].addr && bs[i].size >= 0 && bs[i].End() <= hi
  {
    var k := 0;
    while k < i
      invariant 0 <= k <= i && lo <= bs[k].addr
    { k := k + 1; }
    k := |bs| - 1;
    while k > i
      invariant i <= k < |bs| && bs[k].End() <= hi
    { k := k - 1; }
  }

  /** Blocks are laid out in list order and never overlap. */
  lemma {:induction false} TilesOrdered(bs: seq<Block>, lo: int, hi: int, i: int, j: int)
    requires Tiles(bs, lo, hi)
    requires 0 <= i < j < |bs|
    ensures bs[i].size >= 0 && bs[i].End() <= bs[j].addr
  {
    if i + 1 < j { TilesOrdered(bs, lo, hi, i, j - 1); }
  }

  /** Every address of a tiled range belongs to some block. */
  lemma BlockAround(bs: seq<Block>, lo: int, hi: int, e: int) returns (i: int)
    requires Tiles(bs, lo, hi) && lo <= e < hi
    ensures 0 <= i < |bs| && bs[i].addr <= e < bs[i].End()
  {
    i := 0;
    while bs[i].End() <= e
      invariant 0 <= i < |bs| && bs[i].addr <= e
      decreases |bs| - i
    { i := i + 1; }
  }
}
