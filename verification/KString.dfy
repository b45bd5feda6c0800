/** C strings in memory: the bytes from a pointer on, of which the string is the part before the
    first NUL. */
module KString {
  import opened Bytes

  /** The string that starts at the beginning of `m`. */
  function CStr(m: seq<byte>): (s: seq<byte>)
    ensures s <= m && 0 !in s
    ensures |s| < |m| ==> m[|s|] == 0
  {
    if m == [] || m[0] == 0 then [] else [m[0]] + CStr(m[1..])
  }

  /** The first `n` bytes of `s`, or all of it. */
  function Cut(s: seq<byte>, n: nat): (r: seq<byte>)
    ensures r <= s && |r| == (if |s| <= n then |s| else n) && (|s| <= n ==> r == s)
  {
    if |s| <= n then s else s[..n]
  }

  /** CStr is characterised by its end. */
  lemma {:induction false} CStrIs(m: seq<byte>, k: nat)
    requires k <= |m| && 0 !in m[..k] && (k == |m| || m[k] == 0)
    ensures CStr(m) == m[..k]
  {
    if k > 0 {
      assert m[0] == m[..k][0];
      assert m[1..][..k - 1] == m[..k][1..];
      CStrIs(m[1..], k - 1);
    }
  }

  /** A terminated string that has not ended yet has its terminator further on. */
  lemma NulAhead(s: seq<byte>, n: nat)
    requires 0 in s && n < |s| && 0 !in s[..n] && s[n] != 0
    ensures n + 1 < |s| && 0 !in s[..n + 1]
  {
    var j :| 0 <= j < |s| && s[j] == 0;
    assert forall k :: 0 <= k < n ==> s[..n][k] == s[k];
  }

  method StrLen(s: seq<byte>) returns (n: nat)
    requires 0 in s
    ensures n == |CStr(s)|
  {
    n := 0;
    while s[n] != 0
      invariant n < |s| && 0 !in s[..n]
      decreases |s| - n
    {
      NulAhead(s, n);
      n := n + 1;
    }
    CStrIs(s, n);
  }

  /** What strncpy_k(dst, src, n) copies: at most n - 1 bytes, none for n below 1. */
  function Copied(src: seq<byte>, n: int): (r: seq<byte>)
    ensures r <= src && 0 !in r && |r| == if n < 1 then 0 else if |CStr(src)| < n then |CStr(src)| else n - 1
  {
    Cut(CStr(src), if n < 1 then 0 else n - 1)
  }

  /** strncpy_k: the bytes copied and always a terminator, also for n below 1; the rest of dst stays. */
  method StrNCpy(dst: seq<byte>, src: seq<byte>, n: int) returns (out: seq<byte>)
    requires 0 in src && |dst| >= 1 && n <= |dst|
    ensures out == Splice(dst, 0, Copied(src, n) + [0])
    ensures CStr(out) == Copied(src, n)
  {
    out := dst;
    var i := 0;
    while i < n - 1 && src[i] != 0
      invariant 0 <= i < |src| && (i == 0 || i < n) && 0 !in src[..i] && |out| == |dst|
      invariant forall k :: 0 <= k < |out| ==> out[k] == if k < i then src[k] else dst[k]
    {
      NulAhead(src, i);
      out := out[i := src[i]];
      i := i + 1;
    }
    out := out[i := 0];
    CutAt(src, i, if n < 1 then 0 else n - 1);
    assert out[..i] == src[..i];
    CStrIs(out, i);
    assert out == Splice(dst, 0, src[..i] + [0]);
  }

  lemma CutAt(src: seq<byte>, i: nat, n: nat)
    requires i < |src| && 0 !in src[..i] && i <= n && (i == n || src[i] == 0)
    ensures Cut(CStr(src), n) == src[..i]
  {
    if src[i] == 0 {
      CStrIs(src, i);
    } else {
      CStrPrefix(src, i);
    }
  }

  lemma {:induction false} CStrPrefix(m: seq<byte>, i: nat)
    requires i < |m| && 0 !in m[..i + 1]
    ensures |CStr(m)| > i && CStr(m)[..i] == m[..i]
  {
    assert forall j :: 0 <= j < i + 1 ==> m[..i + 1][j] == m[j];
  }

  /** What strncmp_k looks at: the first n bytes, none for n below 0. */
  function Compared(s: seq<byte>, n: int): (r: seq<byte>)
    ensures r <= s && 0 !in r && |r| == if n < 0 then 0 else if |CStr(s)| < n then |CStr(s)| else n
  {
    Cut(CStr(s), if n < 0 then 0 else n)
  }

  /** strncmp_k(a, b, n): zero exactly when the strings agree on their first n bytes, otherwise
      the difference at the first place where they do not. */
  method StrNCmp(a: seq<byte>, b: seq<byte>, n: int) returns (r: int)
    requires (0 in a || |a| >= n) && (0 in b || |b| >= n)
    ensures r == 0 <==> Compared(a, n) == Compared(b, n)
    ensures r != 0 ==> exists i :: && 0 <= i < n && i < |a| && i < |b| && a[..i] == b[..i] && 0 !in a[..i]
                                   && r == a[i] as int - b[i] as int
  {
    var i := 0;
    while i < n
      invariant 0 <= i <= |a| && i <= |b| && (i == 0 || i <= n) && a[..i] == b[..i] && 0 !in a[..i]
    {
      assert a[..|a|] == a && b[..|b|] == b;
      if a[i] != b[i] {
        r := a[i] as int - b[i] as int;
        DifferAt(a, b, i, n);
        return;
      }
      if a[i] == 0 {
        CStrIs(a, i);
        CStrIs(b, i);
        return 0;
      }
      i := i + 1;
    }
    r := 0;
    AgreeUpTo(a, b, i);
  }

  lemma AgreeUpTo(a: seq<byte>, b: seq<byte>, n: nat)
    requires n <= |a| && n <= |b| && a[..n] == b[..n] && 0 !in a[..n]
    ensures Cut(CStr(a), n) == Cut(CStr(b), n)
  {
    if n > 0 {
      CStrPrefix(a, n - 1);
      CStrPrefix(b, n - 1);
      assert CStr(a)[..n] == a[..n];
      assert CStr(b)[..n] == b[..n];
    }
  }

  lemma DifferAt(a: seq<byte>, b: seq<byte>, i: nat, n: nat)
    requires i < n && i < |a| && i < |b| && a[..i] == b[..i] && 0 !in a[..i] && a[i] != b[i]
    ensures Cut(CStr(a), n) != Cut(CStr(b), n)
  {
    if a[i] == 0 {
      CStrIs(a, i);
      assert 0 !in b[..i + 1];
      CStrPrefix(b, i);
    } else if b[i] == 0 {
      CStrIs(b, i);
      assert 0 !in a[..i + 1];
      CStrPrefix(a, i);
    } else {
      assert 0 !in a[..i + 1] && 0 !in b[..i + 1];
      CStrPrefix(a, i);
      CStrPrefix(b, i);
      assert CStr(a)[i] == a[i] && CStr(b)[i] == b[i];
      assert Cut(CStr(a), n)[i] != Cut(CStr(b), n)[i];
    }
  }
}
