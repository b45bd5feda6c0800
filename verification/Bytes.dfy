/** Machine integers as the kernel sees them: bytes, and little-endian words laid
    out in a byte buffer. */
module Bytes {

  type byte = x: int | 0 <= x < 256

  const U16 := 0x1_0000
  const U32 := 0x1_0000_0000

  function Get16(m: seq<byte>, i: int): (v: int)
    requires 0 <= i && i + 2 <= |m|
    ensures 0 <= v < U16
  {
    m[i] as int + 256 * m[i + 1] as int
  }

  function Get32(m: seq<byte>, i: int): (v: int)
    requires 0 <= i && i + 4 <= |m|
    ensures 0 <= v < U32
  {
    m[i] as int + 256 * m[i + 1] as int + 0x1_0000 * m[i + 2] as int + 0x100_0000 * m[i + 3] as int
  }

  function Bytes16(v: int): (s: seq<byte>)
    requires 0 <= v < U16
    ensures |s| == 2 && Get16(s, 0) == v
  {
    [v % 256, v / 256]
  }

  function Bytes32(v: int): (s: seq<byte>)
    requires 0 <= v < U32
    ensures |s| == 4 && Get32(s, 0) == v
  {
    var v1 := v / 256;
    var v2 := v1 / 256;
    var v3 := v2 / 256;
    [v % 256, v1 % 256, v2 % 256, v3]
  }

  /** The buffer `m` with the bytes of `s` stored from index `i` on. */
  function Splice(m: seq<byte>, i: int, s: seq<byte>): (m': seq<byte>)
    requires 0 <= i && i + |s| <= |m|
    ensures |m'| == |m|
    ensures forall j :: 0 <= j < |m| ==> m'[j] == if i <= j < i + |s| then s[j - i] else m[j]
  {
    m[..i] + s + m[i + |s|..]
  }
}
