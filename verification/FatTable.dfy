/** The 12-bit packed file allocation table, and the plain array it refines. */
module FatTable {
  import opened Bytes

  const FAT_BYTES := 4608
  const FAT_ENTRIES := 3072
  const END_OF_CHAIN := 0xFFF

  function Offset(c: int): int { c + c / 2 }

  /** fat12_next_cluster: clusters past the buffer read as end of chain. */
  function FatGet(f: seq<byte>, c: int): int
    requires |f| == FAT_BYTES && 0 <= c < U16
  {
    var o := Offset(c);
    if o + 1 >= FAT_BYTES then END_OF_CHAIN else
    var entry := f[o] as int + 256 * f[o + 1] as int;
    if c % 2 == 1 then entry / 16 else entry % 4096
  }

  /** fat12_set_cluster: one byte is owned, the other shares a nibble with the neighbour. */
  function FatSet(f: seq<byte>, c: int, v: int): (f': seq<byte>)
    requires |f| == FAT_BYTES && 0 <= c < U16 && 0 <= v < U16
    ensures |f'| == FAT_BYTES
  {
    var o := Offset(c);
    if o + 1 >= FAT_BYTES then f else
    if c % 2 == 1 then
      f[o := f[o] % 16 + v * 16 % 256][o + 1 := v / 16 % 256]
    else
      f[o := v % 256][o + 1 := f[o + 1] / 16 * 16 + v / 256 % 16]
  }

  lemma GetOwn(f: seq<byte>, c: int, v: int)
    requires |f| == FAT_BYTES && 0 <= c < FAT_ENTRIES && 0 <= v < U16
    ensures FatGet(FatSet(f, c, v), c) == v % 4096
  {
    var o := Offset(c);
    if c % 2 == 1 {
      OddRoundTrip(f[o], v);
    } else {
      EvenRoundTrip(f[o + 1], v);
    }
  }

  lemma OddRoundTrip(b: byte, v: int)
    requires 0 <= v < U16
    ensures ((b % 16 + v * 16 % 256) + 256 * (v / 16 % 256)) / 16 == v % 4096
  {
    var q, r := v / 16, v % 16;
    assert v * 16 == 256 * q + 16 * r;
    assert v * 16 % 256 == 16 * r;
    var q2, r2 := q / 256, q % 256;
    assert v == 4096 * q2 + 16 * r2 + r;
  }

  lemma EvenRoundTrip(b: byte, v: int)
    requires 0 <= v < U16
    ensures (v % 256 + 256 * (b / 16 * 16 + v / 256 % 16)) % 4096 == v % 4096
  {
    var q, r := v / 256, v % 256;
    var q2, r2 := q / 16, q % 16;
    assert v == 4096 * q2 + 256 * r2 + r;
    var h := b / 16;
    assert r + 256 * (h * 16 + r2) == 4096 * h + (256 * r2 + r);
  }

  /** Two entries share a byte only if they form a pair 2j, 2j + 1. */
  lemma OffsetsApart(c: int, x: int)
    requires 0 <= c && 0 <= x && x != c
    ensures c % 2 == 0 && x == c + 1 ==> Offset(x) == Offset(c) + 1
    ensures c % 2 == 1 && x == c - 1 ==> Offset(c) == Offset(x) + 1
    ensures !(c % 2 == 0 && x == c + 1) && !(c % 2 == 1 && x == c - 1) ==> Offset(x) + 1 < Offset(c) || Offset(c) + 1 < Offset(x)
  {
    var i, j := c / 2, x / 2;
    assert c == 2 * i + c % 2 && x == 2 * j + x % 2;
    assert Offset(c) == 3 * i + c % 2 && Offset(x) == 3 * j + x % 2;
  }

  lemma SetTouches(f: seq<byte>, c: int, v: int)
    requires |f| == FAT_BYTES && 0 <= c < U16 && 0 <= v < U16
    ensures forall i :: 0 <= i < FAT_BYTES && i != Offset(c) && i != Offset(c) + 1 ==> FatSet(f, c, v)[i] == f[i]
  {}

  lemma GetUpper(f: seq<byte>, c: int, v: int)
    requires |f| == FAT_BYTES && 0 <= c && c + 1 < FAT_ENTRIES && 0 <= v < U16 && c % 2 == 0
    ensures FatGet(FatSet(f, c, v), c + 1) == FatGet(f, c + 1)
  {
    var o := Offset(c);
    assert Offset(c + 1) == o + 1;
    HighNibble(f[o + 1], v / 256 % 16, f[o + 2]);
  }

  lemma GetLower(f: seq<byte>, c: int, v: int)
    requires |f| == FAT_BYTES && 0 < c < FAT_ENTRIES && 0 <= v < U16 && c % 2 == 1
    ensures FatGet(FatSet(f, c, v), c - 1) == FatGet(f, c - 1)
  {
    var o := Offset(c);
    OddPlace(c);
    var n := v * 16 % 256;
    HighPart(v);
    LowNibble(f[o], n, f[o - 1]);
    var f' := FatSet(f, c, v);
    assert f'[o - 1] == f[o - 1] && f'[o] == f[o] % 16 + n;
  }

  lemma OddPlace(c: int)
    requires 0 < c < FAT_ENTRIES && c % 2 == 1
    ensures Offset(c - 1) == Offset(c) - 1 && 0 < Offset(c) && Offset(c) + 1 < FAT_BYTES && (c - 1) % 2 == 0
  {}

  lemma HighPart(v: int)
    requires 0 <= v < U16
    ensures v * 16 % 256 % 16 == 0
  {}

  /** The neighbour that shares a byte keeps its nibble; everyone else keeps both bytes. */
  lemma GetOther(f: seq<byte>, c: int, v: int, x: int)
    requires |f| == FAT_BYTES && 0 <= c < U16 && 0 <= v < U16 && 0 <= x < U16 && x != c
    ensures FatGet(FatSet(f, c, v), x) == FatGet(f, x)
  {
    hide FatSet;
    if x < FAT_ENTRIES && c < FAT_ENTRIES && c % 2 == 0 && x == c + 1 {
      GetUpper(f, c, v);
    } else if x < FAT_ENTRIES && c < FAT_ENTRIES && c % 2 == 1 && x == c - 1 {
      GetLower(f, c, v);
    } else {
      SetTouches(f, c, v);
      OffsetsApart(c, x);
    }
  }

  lemma HighNibble(b: byte, n: int, hi: byte)
    requires 0 <= n < 16
    ensures ((b / 16 * 16 + n) + 256 * hi as int) / 16 == (b as int + 256 * hi as int) / 16
  {}

  lemma LowNibble(b: byte, n: int, lo: byte)
    requires 0 <= n < 256 && n % 16 == 0
    ensures (lo as int + 256 * (b % 16 + n)) % 4096 == (lo as int + 256 * b as int) % 4096
  {
    var r := lo as int + 256 * (b % 16);
    ModShift(r, n / 16);
    ModShift(r, b / 16);
    assert lo as int + 256 * (b % 16 + n) == r + 4096 * (n / 16);
    assert lo as int + 256 * b as int == r + 4096 * (b / 16);
  }

  lemma ModShift(r: int, k: int)
    requires 0 <= r < 4096
    ensures (r + 4096 * k) % 4096 == r
  {}

  /** The array of entries that the packed buffer stands for. */
  ghost function Entries(f: seq<byte>): seq<int>
    requires |f| == FAT_BYTES
  {
    seq(FAT_ENTRIES, c requires 0 <= c < FAT_ENTRIES => FatGet(f, c))
  }

  /** Setting a packed entry is updating one element of the array; past the buffer nothing happens. */
  lemma SetRefinesUpdate(f: seq<byte>, c: int, v: int)
    requires |f| == FAT_BYTES && 0 <= c < U16 && 0 <= v < U16
    ensures c < FAT_ENTRIES ==> Entries(FatSet(f, c, v)) == Entries(f)[c := v % 4096]
    ensures c >= FAT_ENTRIES ==> FatSet(f, c, v) == f && FatGet(f, c) == END_OF_CHAIN
  {
    if c < FAT_ENTRIES {
      GetOwn(f, c, v);
      forall x | 0 <= x < FAT_ENTRIES && x != c ensures FatGet(FatSet(f, c, v), x) == FatGet(f, x) {
        GetOther(f, c, v, x);
      }
    }
  }

  /** fat12_alloc_cluster: the first free data cluster from `c` on, or 0. */
  function AllocCluster(f: seq<byte>, c: int): (r: int)
    requires |f| == FAT_BYTES && 2 <= c <= 2848
    ensures r == 0 || (c <= r < 2848 && FatGet(f, r) == 0)
    ensures forall x :: c <= x < (if r == 0 then 2848 else r) ==> FatGet(f, x) != 0
    decreases 2848 - c
  {
    if c == 2848 then 0 else if FatGet(f, c) == 0 then c else AllocCluster(f, c + 1)
  }

  // ----- a table of which only the first sectors have been rewritten

  /** The first `n` bytes from `f'`, the others from `f`. */
  function Mix(f: seq<byte>, f': seq<byte>, n: int): (g: seq<byte>)
    requires |f| == |f'| == FAT_BYTES && 0 <= n <= FAT_BYTES
    ensures |g| == FAT_BYTES
  {
    f'[..n] + f[n..]
  }

  /** A packed entry is one whole byte and half of another. */
  lemma EntryParts(f: seq<byte>, c: int)
    requires |f| == FAT_BYTES && 0 <= c < FAT_ENTRIES
    ensures 0 <= Offset(c) && Offset(c) + 1 < FAT_BYTES
    ensures FatGet(f, c) == if c % 2 == 1 then f[Offset(c)] as int / 16 + 16 * f[Offset(c) + 1] as int
                            else f[Offset(c)] as int + 256 * (f[Offset(c) + 1] as int % 16)
  {
    var o := Offset(c);
    NibbleSplit(f[o], f[o + 1]);
  }

  lemma NibbleSplit(lo: byte, hi: byte)
    ensures (lo + 256 * hi) / 16 == lo / 16 + 16 * hi
    ensures (lo + 256 * hi) % 4096 == lo + 256 * (hi % 16)
  {
    ModShift(lo + 256 * (hi % 16), hi / 16);
    assert lo + 256 * hi == lo + 256 * (hi % 16) + 4096 * (hi / 16);
  }

  /** Entry `c` of a table written back only in part: old before its first byte, new after its
      second, and in between at least not taken for free if it becomes an end of chain. */
  lemma MixEntry(g: seq<byte>, f: seq<byte>, n: int, c: int)
    requires |g| == |f| == FAT_BYTES && 0 <= n <= FAT_BYTES && 0 <= c < FAT_ENTRIES
    ensures n <= Offset(c) ==> FatGet(Mix(g, f, n), c) == FatGet(g, c)
    ensures n > Offset(c) + 1 ==> FatGet(Mix(g, f, n), c) == FatGet(f, c)
    ensures FatGet(g, c) == FatGet(f, c) ==> FatGet(Mix(g, f, n), c) == FatGet(f, c)
    ensures FatGet(f, c) == END_OF_CHAIN && n > Offset(c) ==> FatGet(Mix(g, f, n), c) != 0
  {
    hide FatGet, Offset;
    EntryParts(g, c);
    EntryParts(f, c);
    EntryParts(Mix(g, f, n), c);
    var o := Offset(c);
    MixAt(g, f, n, o);
    MixAt(g, f, n, o + 1);
    SameParts(f[o], f[o + 1], g[o], g[o + 1]);
  }

  lemma MixAt(g: seq<byte>, f: seq<byte>, n: int, i: int)
    requires |g| == |f| == FAT_BYTES && 0 <= n <= FAT_BYTES && 0 <= i < FAT_BYTES
    ensures Mix(g, f, n)[i] == if i < n then f[i] else g[i]
  {}

  lemma SameParts(a: byte, b: byte, x: byte, y: byte)
    ensures a / 16 + 16 * b == x / 16 + 16 * y ==> a / 16 == x / 16 && b == y
    ensures a + 256 * (b % 16) == x + 256 * (y % 16) ==> a == x && b % 16 == y % 16
  {}

  /** Table `g` lags behind `f` only by entries that `f` marks as end of chain. */
  ghost predicate Ahead(g: seq<byte>, f: seq<byte>)
    requires |g| == |f| == FAT_BYTES
  {
    forall c :: 0 <= c < FAT_ENTRIES ==> FatGet(g, c) == FatGet(f, c) || FatGet(f, c) == END_OF_CHAIN
  }

  lemma AheadSet(g: seq<byte>, f: seq<byte>, c: int)
    requires |g| == |f| == FAT_BYTES && 0 <= c < FAT_ENTRIES && Ahead(g, f)
    ensures Ahead(g, FatSet(f, c, END_OF_CHAIN))
  {
    hide FatSet, FatGet;
    forall x | 0 <= x < FAT_ENTRIES && x != c ensures FatGet(FatSet(f, c, END_OF_CHAIN), x) == FatGet(f, x) {
      GetOther(f, c, END_OF_CHAIN, x);
    }
    GetOwn(f, c, END_OF_CHAIN);
  }

  /** Writing the table back in part keeps the lag, and takes an entry out of the free ones exactly
      when the entry is in use and its first byte is written. */
  lemma MixAhead(g: seq<byte>, f: seq<byte>, n: int)
    requires |g| == |f| == FAT_BYTES && 0 <= n <= FAT_BYTES && Ahead(g, f)
    ensures Ahead(Mix(g, f, n), f)
    ensures forall c :: 0 <= c < FAT_ENTRIES ==>
              (FatGet(Mix(g, f, n), c) != 0 <==> FatGet(g, c) != 0 || (FatGet(f, c) != 0 && n > Offset(c)))
  {
    hide FatGet, Mix, Offset;
    forall c | 0 <= c < FAT_ENTRIES
      ensures FatGet(Mix(g, f, n), c) == FatGet(f, c) || FatGet(f, c) == END_OF_CHAIN
      ensures FatGet(Mix(g, f, n), c) != 0 <==> FatGet(g, c) != 0 || (FatGet(f, c) != 0 && n > Offset(c))
    {
      MixEntry(g, f, n, c);
    }
  }

  /** Marking cluster `c` as end of chain and writing back only a part of the table changes no
      other entry, and entry `c` is non-free exactly when its first byte has been written. */
  lemma MixEntries(f: seq<byte>, c: int, n: int, x: int)
    requires |f| == FAT_BYTES && 0 <= c < FAT_ENTRIES && 0 <= n <= FAT_BYTES && 0 <= x < U16
    ensures x != c ==> FatGet(Mix(f, FatSet(f, c, END_OF_CHAIN), n), x) == FatGet(f, x)
    ensures FatGet(f, c) == 0 ==> (FatGet(Mix(f, FatSet(f, c, END_OF_CHAIN), n), c) != 0 <==> n > Offset(c))
  {
    hide FatGet, Offset, Mix, FatSet;
    var f' := FatSet(f, c, END_OF_CHAIN);
    GetOwn(f, c, END_OF_CHAIN);
    MixEntry(f, f', n, c);
    if x != c {
      GetOther(f, c, END_OF_CHAIN, x);
      if x < FAT_ENTRIES { MixEntry(f, f', n, x); } else { PastBuffer(f, x); PastBuffer(Mix(f, f', n), x); }
    }
  }

  lemma PastBuffer(f: seq<byte>, x: int)
    requires |f| == FAT_BYTES && FAT_ENTRIES <= x < U16
    ensures FatGet(f, x) == END_OF_CHAIN
  {}

  /** As long as the first byte of entry `c` is not written back, nothing has changed on disk. */
  lemma MixBefore(f: seq<byte>, c: int, n: int)
    requires |f| == FAT_BYTES && 0 <= c < FAT_ENTRIES && 0 <= n <= FAT_BYTES && n <= Offset(c)
    ensures Mix(f, FatSet(f, c, END_OF_CHAIN), n) == f
  {}
}
