/** How a block list shows in raw memory, and which bytes a store into a header changes. */
module HeapMemory {
  import opened Bytes
  import opened HeapSpec
  import opened HeapLaws

  const BLOCK_MAGIC := 0xA3A3_0000

  /** block_hdr_t on i386: magic, size, used (one byte, three bytes of padding), next, prev. */
  datatype Header = Header(magic: int, size: int, used: int, next: int, prev: int)

  predicate HeaderInHeap(a: int) { HEAP_START <= a && a + HDR_SIZE <= HEAP_END }

  function ReadHeader(m: seq<byte>, a: int): Header
    requires |m| == HEAP_SIZE && HeaderInHeap(a)
  {
    var o := a - HEAP_START;
    Header(Get32(m, o), Get32(m, o + 4), m[o + 8], Get32(m, o + 12), Get32(m, o + 16))
  }

  lemma HeaderWords(m: seq<byte>, a: int)
    requires |m| == HEAP_SIZE && HeaderInHeap(a)
    ensures 0 <= ReadHeader(m, a).next < U32 && 0 <= ReadHeader(m, a).prev < U32
  {}

  // ----- the representation

  function NextAddr(bs: seq<Block>, i: int): int
    requires 0 <= i < |bs|
  { if i + 1 < |bs| then bs[i + 1].addr else 0 }

  function PrevAddr(bs: seq<Block>, i: int): int
    requires 0 <= i < |bs|
  { if i > 0 then bs[i - 1].addr else 0 }

  /** The header that block `i` must have: next and prev are inverse by construction. */
  function HeaderOf(bs: seq<Block>, i: int): Header
    requires 0 <= i < |bs|
  {
    Header(BLOCK_MAGIC, bs[i].size, if bs[i].used then 1 else 0, NextAddr(bs, i), PrevAddr(bs, i))
  }

  ghost predicate Encodes(m: seq<byte>, bs: seq<Block>)
    requires |m| == HEAP_SIZE
  {
    forall i :: 0 <= i < |bs| ==> HeaderInHeap(bs[i].addr) && ReadHeader(m, bs[i].addr) == HeaderOf(bs, i)
  }

  predicate Apart(a: int, b: int) { a + HDR_SIZE <= b || b + HDR_SIZE <= a }

  /** From `m` to `m'` only the header at `a` was written, and it now reads `h`. */
  ghost predicate Rewrites(m: seq<byte>, m': seq<byte>, a: int, h: Header)
    requires |m| == |m'| == HEAP_SIZE && HeaderInHeap(a)
  {
    && ReadHeader(m', a) == h
    && (forall b :: HeaderInHeap(b) && Apart(a, b) ==> ReadHeader(m', b) == ReadHeader(m, b))
    && (forall x :: 0 <= x < HEAP_SIZE && !(a <= x + HEAP_START < a + HDR_SIZE) ==> m'[x] == m[x])
  }

  lemma BlocksApart(bs: seq<Block>, i: int, j: int)
    requires Tiles(bs, HEAP_START, HEAP_END) && 0 <= i < |bs| && 0 <= j < |bs| && i != j
    ensures Apart(bs[i].addr, bs[j].addr)
  {
    if i < j { TilesOrdered(bs, HEAP_START, HEAP_END, i, j); } else { TilesOrdered(bs, HEAP_START, HEAP_END, j, i); }
  }

  /** The word-sized header fields, by their offset. */
  datatype Field = Magic | Size | Next | Prev {
    function Offset(): int {
      match this
      case Magic => 0
      case Size => 4
      case Next => 12
      case Prev => 16
    }
  }

  function With(h: Header, f: Field, v: int): Header {
    match f
    case Magic => h.(magic := v)
    case Size => h.(size := v)
    case Next => h.(next := v)
    case Prev => h.(prev := v)
  }

  lemma SpliceWord(m: seq<byte>, i: int, v: int)
    requires 0 <= i && i + 4 <= |m| && 0 <= v < U32
    ensures Get32(Splice(m, i, Bytes32(v)), i) == v
    ensures forall j :: 0 <= j && j + 4 <= |m| && (j + 4 <= i || i + 4 <= j) ==>
              Get32(Splice(m, i, Bytes32(v)), j) == Get32(m, j)
  {
    var s := Bytes32(v);
    var m' := Splice(m, i, s);
    assert m'[i] == s[0] && m'[i + 1] == s[1] && m'[i + 2] == s[2] && m'[i + 3] == s[3];
  }

  /** The memory after the store of `v` into field `f` of the header at `a`. */
  function Put(m: seq<byte>, a: int, f: Field, v: int): (m': seq<byte>)
    requires |m| == HEAP_SIZE && HeaderInHeap(a) && 0 <= v < U32
    ensures |m'| == HEAP_SIZE
  {
    Splice(m, a - HEAP_START + f.Offset(), Bytes32(v))
  }

  lemma StoreRewrites(m: seq<byte>, a: int, f: Field, v: int)
    requires |m| == HEAP_SIZE && HeaderInHeap(a) && 0 <= v < U32
    ensures Rewrites(m, Put(m, a, f, v), a, With(ReadHeader(m, a), f, v))
  {
    SpliceWord(m, a - HEAP_START + f.Offset(), v);
  }

  function PutUsed(m: seq<byte>, a: int, v: byte): (m': seq<byte>)
    requires |m| == HEAP_SIZE && HeaderInHeap(a)
    ensures |m'| == HEAP_SIZE
  {
    m[a - HEAP_START + 8 := v]
  }

  lemma StoreUsedRewrites(m: seq<byte>, a: int, v: byte)
    requires |m| == HEAP_SIZE && HeaderInHeap(a)
    ensures Rewrites(m, PutUsed(m, a, v), a, ReadHeader(m, a).(used := v))
  {}

  lemma SplitApart(bs: seq<Block>, i: nat, size: int)
    requires Tiles(bs, HEAP_START, HEAP_END) && i < |bs| && 0 <= size && size + HDR_SIZE + 8 <= bs[i].size
    ensures HEAP_START <= bs[i].addr && bs[i].End() <= HEAP_END
    ensures forall j :: 0 <= j < |bs| && j != i ==> Apart(bs[i].addr, bs[j].addr) && Apart(bs[i].addr + HDR_SIZE + size, bs[j].addr)
    ensures i + 1 < |bs| ==> forall j :: 0 <= j < |bs| && j != i + 1 ==> Apart(bs[i + 1].addr, bs[j].addr)
  {
    hide Tiles;
    TilesWithin(bs, HEAP_START, HEAP_END, i);
    forall j | 0 <= j < |bs| && j != i ensures Apart(bs[i].addr, bs[j].addr) && Apart(bs[i].addr + HDR_SIZE + size, bs[j].addr) {
      if j < i { TilesOrdered(bs, HEAP_START, HEAP_END, j, i); } else { TilesOrdered(bs, HEAP_START, HEAP_END, i, j); }
    }
    if i + 1 < |bs| {
      forall j | 0 <= j < |bs| && j != i + 1 ensures Apart(bs[i + 1].addr, bs[j].addr) { BlocksApart(bs, i + 1, j); }
    }
  }

  lemma AbsorbApart(bs: seq<Block>, i: nat)
    requires Tiles(bs, HEAP_START, HEAP_END) && i + 1 < |bs|
    ensures 0 <= bs[i].size && 0 <= bs[i + 1].size && HEAP_START <= bs[i].addr
    ensures bs[i].End() == bs[i + 1].addr && bs[i + 1].End() <= HEAP_END
    ensures forall j :: 0 <= j < |bs| && j != i ==> Apart(bs[i].addr, bs[j].addr)
    ensures i + 2 < |bs| ==> forall j :: 0 <= j < |bs| && j != i + 2 ==> Apart(bs[i + 2].addr, bs[j].addr)
  {
    assert bs[i].End() == bs[i + 1].addr;
    hide Tiles;
    TilesWithin(bs, HEAP_START, HEAP_END, i);
    TilesWithin(bs, HEAP_START, HEAP_END, i + 1);
    forall j | 0 <= j < |bs| && j != i ensures Apart(bs[i].addr, bs[j].addr) { BlocksApart(bs, i, j); }
    if i + 2 < |bs| {
      forall j | 0 <= j < |bs| && j != i + 2 ensures Apart(bs[i + 2].addr, bs[j].addr) { BlocksApart(bs, i + 2, j); }
    }
  }

  // ----- how the three edits of the list show in memory

  /** Headers `i` and its neighbours are the only ones an edit around `i` rewrites. */
  lemma SplitEncodes(m: seq<byte>, m': seq<byte>, bs: seq<Block>, i: nat, n: int)
    requires |m| == |m'| == HEAP_SIZE && Inv(bs) && Encodes(m, bs)
    requires i < |bs| && n >= 0 && bs[i].size >= n + HDR_SIZE + 8
    requires var rest := Carve(bs[i], n)[1];
             && HeaderInHeap(rest.addr)
             && ReadHeader(m', bs[i].addr) == HeaderOf(bs, i).(size := n, used := 1, next := rest.addr)
             && ReadHeader(m', rest.addr) == Header(BLOCK_MAGIC, rest.size, 0, NextAddr(bs, i), bs[i].addr)
             && (i + 1 < |bs| ==> ReadHeader(m', bs[i + 1].addr) == HeaderOf(bs, i + 1).(prev := rest.addr))
    requires forall j :: 0 <= j < |bs| && j != i && j != i + 1 ==> ReadHeader(m', bs[j].addr) == ReadHeader(m, bs[j].addr)
    ensures Encodes(m', Take(bs, i, n))
  {
    hide ReadHeader, Tiles, NoAdjacentFree;
    var bs' := Take(bs, i, n);
    forall j | 0 <= j < |bs'|
      ensures HeaderInHeap(bs'[j].addr) && ReadHeader(m', bs'[j].addr) == HeaderOf(bs', j)
    {
      if j < i {
        assert bs'[j] == bs[j];
      } else if j > i + 1 {
        assert bs'[j] == bs[j - 1];
      }
    }
  }

  lemma MarkEncodes(m: seq<byte>, m': seq<byte>, bs: seq<Block>, i: nat, used: bool)
    requires |m| == |m'| == HEAP_SIZE && Tiles(bs, HEAP_START, HEAP_END) && Encodes(m, bs) && i < |bs|
    requires Rewrites(m, m', bs[i].addr, HeaderOf(bs, i).(used := if used then 1 else 0))
    ensures Encodes(m', bs[i := bs[i].(used := used)])
  {
    hide ReadHeader, Tiles;
    forall j | 0 <= j < |bs| && j != i ensures Apart(bs[i].addr, bs[j].addr) { BlocksApart(bs, i, j); }
  }

  lemma MarkTiles(bs: seq<Block>, i: nat, used: bool)
    requires Tiles(bs, HEAP_START, HEAP_END) && i < |bs|
    ensures Tiles(bs[i := bs[i].(used := used)], HEAP_START, HEAP_END)
  {}

  lemma HeadBlock(bs: seq<Block>)
    requires Tiles(bs, HEAP_START, HEAP_END)
    ensures |bs| > 0 && bs[0].addr == HEAP_START
  {}

  /** No prefix of the list sums up to more than the heap, so the 32-bit counters never wrap. */
  lemma PrefixTiles(bs: seq<Block>, k: nat)
    requires Tiles(bs, HEAP_START, HEAP_END) && k <= |bs|
    ensures SumSizes(bs[..k], true) < U32 && SumSizes(bs[..k], false) < U32
    ensures 0 <= SumSizes(bs[..k], true) && 0 <= SumSizes(bs[..k], false)
  {
    var hi := if k == 0 then HEAP_START else bs[k - 1].End();
    if k > 0 { TilesWithin(bs, HEAP_START, HEAP_END, k - 1); }
    assert Tiles(bs[..k], HEAP_START, hi);
    StatsConserve(bs[..k], HEAP_START, hi);
  }

  lemma LiveAtUnique(bs: seq<Block>, i: int, j: int, ptr: int)
    requires Tiles(bs, HEAP_START, HEAP_END) && LiveAt(bs, i, ptr) && LiveAt(bs, j, ptr)
    ensures i == j
  {
    if i != j { BlocksApart(bs, i, j); }
  }

  lemma AbsorbEncodes(m: seq<byte>, m': seq<byte>, bs: seq<Block>, i: nat)
    requires |m| == |m'| == HEAP_SIZE && Encodes(m, bs) && i + 1 < |bs|
    requires ReadHeader(m', bs[i].addr)
          == HeaderOf(bs, i).(size := bs[i].size + HDR_SIZE + bs[i + 1].size, next := NextAddr(bs, i + 1))
    requires i + 2 < |bs| ==> ReadHeader(m', bs[i + 2].addr) == HeaderOf(bs, i + 2).(prev := bs[i].addr)
    requires forall j :: 0 <= j < |bs| && j != i && j != i + 1 && j != i + 2 ==>
               ReadHeader(m', bs[j].addr) == ReadHeader(m, bs[j].addr)
    ensures Encodes(m', Absorb(bs, i))
  {
    hide ReadHeader;
    var bs' := Absorb(bs, i);
    forall j | 0 <= j < |bs'|
      ensures HeaderInHeap(bs'[j].addr) && ReadHeader(m', bs'[j].addr) == HeaderOf(bs', j)
    {
      if j < i {
        assert bs'[j] == bs[j];
      } else if j > i {
        assert bs'[j] == bs[j + 1];
      }
    }
  }

  // ----- payload bytes

  /** Every payload byte of the blocks in `live` is the same in `m'` as in `m`. */
  ghost predicate SamePayloads(m: seq<byte>, m': seq<byte>, live: set<Block>)
    requires |m| == |m'| == HEAP_SIZE
  {
    forall b, x :: b in live && b.Payload() <= x + HEAP_START < b.End() && 0 <= x < HEAP_SIZE ==> m'[x] == m[x]
  }

  lemma SamePayloadsRefl(m: seq<byte>, live: set<Block>)
    requires |m| == HEAP_SIZE
    ensures SamePayloads(m, m, live)
  {}

  /** Only bytes of the headers at `hs` differ. */
  ghost predicate OnlyHeaders(m: seq<byte>, m': seq<byte>, hs: set<int>)
    requires |m| == |m'| == HEAP_SIZE
  {
    forall x :: 0 <= x < HEAP_SIZE && (forall a :: a in hs ==> !(a <= x + HEAP_START < a + HDR_SIZE)) ==> m'[x] == m[x]
  }

  /** Stores into headers of a tiled list reach no payload of that list. */
  lemma HeaderStoresSparePayloads(m: seq<byte>, m': seq<byte>, bs: seq<Block>, hs: set<int>)
    requires |m| == |m'| == HEAP_SIZE && Tiles(bs, HEAP_START, HEAP_END)
    requires forall a :: a in hs ==> exists i :: 0 <= i < |bs| && bs[i].addr == a
    requires OnlyHeaders(m, m', hs)
    ensures SamePayloads(m, m', Live(bs))
  {
    forall b, x | b in Live(bs) && b.Payload() <= x + HEAP_START < b.End() && 0 <= x < HEAP_SIZE
      ensures m'[x] == m[x]
    {
      var j :| 0 <= j < |bs| && bs[j] == b;
      forall a | a in hs ensures !(a <= x + HEAP_START < a + HDR_SIZE) {
        var i :| 0 <= i < |bs| && bs[i].addr == a;
        if i < j { TilesOrdered(bs, HEAP_START, HEAP_END, i, j); }
        if j < i { TilesOrdered(bs, HEAP_START, HEAP_END, j, i); }
      }
    }
  }

  lemma RewritesReads(m': seq<byte>, a: int, h: Header, m: seq<byte>)
    requires |m| == |m'| == HEAP_SIZE && HeaderInHeap(a) && Rewrites(m, m', a, h)
    ensures ReadHeader(m', a) == h
  {
    hide ReadHeader;
  }

  lemma SameHeader(m: seq<byte>, m': seq<byte>, a: int)
    requires |m| == |m'| == HEAP_SIZE && HeaderInHeap(a)
    requires forall x :: a - HEAP_START <= x < a - HEAP_START + HDR_SIZE ==> m'[x] == m[x]
    ensures ReadHeader(m', a) == ReadHeader(m, a)
  {}
}
