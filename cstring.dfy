/** C string conventions on fixed-size character buffers: the string a buffer
    holds ends at its first NUL, `size_t` subtraction wraps, and `strlen`,
    `strncmp`, `strncpy` and `strncat` behave as the C library defines them. */
module CString {
  const NUL: char := '\0'

  /** `size_t` is 64 bits wide. */
  const SIZE_MODULUS: nat := 0x1_0000_0000_0000_0000

  function Min(a: nat, b: nat): nat { if a <= b then a else b }

  /** The first `max` characters of `s`, or all of them when there are fewer:
      what a copy into `max` slots keeps. */
  function Clip(s: seq<char>, max: nat): seq<char>
  {
    if |s| <= max then s else s[..max]
  }

  /** `a - b` evaluated in `size_t`: a negative difference wraps to a huge value. */
  function SizeSub(a: nat, b: nat): (r: nat)
    requires a < SIZE_MODULUS && b < SIZE_MODULUS
    ensures r < SIZE_MODULUS
    ensures b <= a ==> r == a - b
    ensures a < b ==> r == SIZE_MODULUS - (b - a) && r >= SIZE_MODULUS - b
  {
    (a - b) % SIZE_MODULUS
  }

  /** The string a buffer holds: its characters before the first NUL
      (all of them when it has none). */
  function Str(buf: seq<char>): (s: seq<char>)
    ensures |s| <= |buf| && s == buf[..|s|]
    ensures NUL !in s
    ensures |s| < |buf| ==> buf[|s|] == NUL
  {
    if buf == [] || buf[0] == NUL then [] else [buf[0]] + Str(buf[1..])
  }

  /** A NUL at `n` with none before it ends the string there. */
  lemma StrAt(buf: seq<char>, n: nat)
    requires n < |buf| && buf[n] == NUL && NUL !in buf[..n]
    ensures Str(buf) == buf[..n]
  {
    assert forall j :: 0 <= j < n ==> buf[..n][j] == buf[j];
  }

  /** A string followed by its terminator reads back as itself, whatever follows. */
  lemma {:induction false} StrThroughNul(a: seq<char>, b: seq<char>)
    ensures Str(a + [NUL] + b) == Str(a)
  {
    if a != [] && a[0] != NUL {
      assert (a + [NUL] + b)[1..] == a[1..] + [NUL] + b;
      StrThroughNul(a[1..], b);
    }
  }

  /** A buffer whose first slots hold `s` and then a NUL holds the string of `s`. */
  lemma StrOfTerminated(buf: seq<char>, s: seq<char>)
    requires |s| < |buf| && buf[|s|] == NUL
    requires forall j :: 0 <= j < |s| ==> buf[j] == s[j]
    ensures Str(buf) == Str(s)
  {
    assert buf == s + [NUL] + buf[|s| + 1..];
    StrThroughNul(s, buf[|s| + 1..]);
  }

  /** A buffer without NUL is its own string. */
  lemma {:induction false} StrOfNulFree(a: seq<char>)
    requires NUL !in a
    ensures Str(a) == a
  {
    if a != [] {
      assert a[0] in a;
      assert a[1..] == a[1..];
      assert forall c :: c in a[1..] ==> c in a;
      StrOfNulFree(a[1..]);
    }
  }

  /** `strlen(buf)`: the position of the first NUL. */
  method Strlen(buf: array<char>) returns (n: nat)
    requires NUL in buf[..]
    ensures n < buf.Length && buf[n] == NUL
    ensures n == |Str(buf[..])|
  {
    n := 0;
    while buf[n] != NUL
      invariant n < buf.Length
      invariant NUL !in buf[..n]
      invariant NUL in buf[n..]
      decreases buf.Length - n
    {
      assert buf[n..] == [buf[n]] + buf[n + 1..];
      assert buf[..n + 1] == buf[..n] + [buf[n]];
      n := n + 1;
    }
    StrAt(buf[..], n);
  }

  /** The string an array holds, read up to its first NUL (or its end). */
  method StrOf(buf: array<char>) returns (s: seq<char>)
    ensures s == Str(buf[..])
  {
    var n := 0;
    while n < buf.Length && buf[n] != NUL
      invariant n <= buf.Length
      invariant NUL !in buf[..n]
    {
      assert buf[..n + 1] == buf[..n] + [buf[n]];
      n := n + 1;
    }
    if n < buf.Length {
      StrAt(buf[..], n);
    } else {
      assert buf[..n] == buf[..];
      StrOfNulFree(buf[..]);
    }
    s := buf[..n];
  }

  /** `strncmp(a, b, n)` on two C strings given without their terminators:
      compares at most `n` characters and stops after a NUL; only the sign
      of a non-zero result is meaningful. */
  function Strncmp(a: seq<char>, b: seq<char>, n: nat): (r: int)
    requires NUL !in a && NUL !in b
    ensures r == 0 <==> (a + [NUL])[..Min(n, |a| + 1)] == (b + [NUL])[..Min(n, |b| + 1)]
  {
    if n == 0 then 0
    else
      var x := if a == [] then NUL else a[0];
      var y := if b == [] then NUL else b[0];
      if x != y then
        assert (a + [NUL])[0] == x && (b + [NUL])[0] == y;
        x as int - y as int
      else if x == NUL then 0
      else
        var r' := Strncmp(a[1..], b[1..], n - 1);
        assert a + [NUL] == [x] + (a[1..] + [NUL]);
        assert b + [NUL] == [y] + (b[1..] + [NUL]);
        ConsPrefix(x, a[1..] + [NUL], Min(n, |a| + 1));
        ConsPrefix(y, b[1..] + [NUL], Min(n, |b| + 1));
        var p, q := (a[1..] + [NUL])[..Min(n - 1, |a|)], (b[1..] + [NUL])[..Min(n - 1, |b|)];
        assert [x] + p == [y] + q ==> p == q by {
          assert ([x] + p)[1..] == p && ([y] + q)[1..] == q;
        }
        r'
  }

  lemma ConsPrefix(x: char, t: seq<char>, m: nat)
    requires 1 <= m <= |t| + 1
    ensures ([x] + t)[..m] == [x] + t[..m - 1]
  {
  }

  /** The buffer after `strncpy(dst, src, n)`: the first `n` slots receive the
      string in `src`, padded with NUL once that string ends. */
  function StrncpyBuf(dst: seq<char>, src: seq<char>, n: nat): seq<char>
    requires n <= |dst|
  {
    var s := Str(src);
    seq(|dst|, i requires 0 <= i < |dst| => if i < n then (if i < |s| then s[i] else NUL) else dst[i])
  }

  /** Copying over a whole buffer: the buffer then holds the source string,
      cut without a terminator when it does not fit. */
  lemma StrncpyStr(dst: seq<char>, src: seq<char>)
    ensures Str(StrncpyBuf(dst, src, |dst|)) == Clip(Str(src), |dst|)
  {
    var s := Str(src);
    var b := StrncpyBuf(dst, src, |dst|);
    if |s| < |dst| {
      assert b[|s|] == NUL;
      assert b[..|s|] == s;
      StrAt(b, |s|);
    } else {
      assert b == s[..|dst|];
      assert NUL !in b by {
        forall c | c in b ensures c != NUL { assert c in s; }
      }
      StrOfNulFree(b);
    }
  }

  /** The buffer after `strncat(dst, src, n)`: at most `n` characters of `src`
      are written over the terminator of `dst`, followed by a new terminator. */
  function StrncatBuf(dst: seq<char>, src: seq<char>, n: nat): seq<char>
    requires NUL in dst && NUL !in src
    requires |Str(dst)| + Min(n, |src|) < |dst|
  {
    var at := |Str(dst)|;
    var k := Min(n, |src|);
    dst[..at] + src[..k] + [NUL] + dst[at + k + 1..]
  }

  /** After `strncat` the buffer holds the old string extended by the
      characters appended. */
  lemma StrncatStr(dst: seq<char>, src: seq<char>, n: nat)
    requires NUL in dst && NUL !in src
    requires |Str(dst)| + Min(n, |src|) < |dst|
    ensures Str(StrncatBuf(dst, src, n)) == Str(dst) + src[..Min(n, |src|)]
  {
    var at := |Str(dst)|;
    var k := Min(n, |src|);
    var head := Str(dst) + src[..k];
    assert dst[..at] == Str(dst);
    assert StrncatBuf(dst, src, n) == head + [NUL] + dst[at + k + 1..];
    assert NUL !in src[..k] by {
      forall c | c in src[..k] ensures c != NUL { assert c in src; }
    }
    assert NUL !in head;
    StrThroughNul(head, dst[at + k + 1..]);
    StrOfNulFree(head);
  }

  /** `strncpy(dst, src, n)` on arrays. */
  method Strncpy(dst: array<char>, src: array<char>, n: nat)
    requires dst != src && n <= dst.Length
    requires NUL in src[..]
    modifies dst
    ensures dst[..] == StrncpyBuf(old(dst[..]), src[..], n)
  {
    ghost var s := Str(src[..]);
    assert forall j :: 0 <= j < |s| ==> s[j] == src[j];
    var i := 0;
    while i < n && src[i] != NUL
      invariant i <= n && i <= |s|
      invariant forall j :: 0 <= j < i ==> dst[j] == s[j]
      invariant forall j :: i <= j < dst.Length ==> dst[j] == old(dst[j])
    {
      assert src[..][i] == src[i];
      dst[i] := src[i];
      i := i + 1;
    }
    assert i < n ==> src[..][i] == NUL;
    while i < n
      invariant i <= n
      invariant forall j :: 0 <= j < i ==> dst[j] == if j < |s| then s[j] else NUL
      invariant forall j :: i <= j < dst.Length ==> dst[j] == old(dst[j])
    {
      dst[i] := NUL;
      i := i + 1;
    }
  }

  /** `strncat(dst, src, n)` on an array, `src` being a string literal. */
  method Strncat(dst: array<char>, src: seq<char>, n: nat)
    requires NUL in dst[..] && NUL !in src
    requires |Str(dst[..])| + Min(n, |src|) < dst.Length
    modifies dst
    ensures dst[..] == StrncatBuf(old(dst[..]), src, n)
  {
    var at := Strlen(dst);
    var k := Min(n, |src|);
    var i := 0;
    while i < k
      invariant i <= k
      invariant forall j :: 0 <= j < at ==> dst[j] == old(dst[j])
      invariant forall j :: 0 <= j < i ==> dst[at + j] == src[j]
      invariant forall j :: at + i <= j < dst.Length ==> dst[j] == old(dst[j])
    {
      dst[at + i] := src[i];
      i := i + 1;
    }
    dst[at + k] := NUL;
    assert dst[..] == StrncatBuf(old(dst[..]), src, n) by {
      var want := StrncatBuf(old(dst[..]), src, n);
      forall j | 0 <= j < dst.Length ensures dst[j] == want[j] {
        if j < at {
        } else if j < at + k {
          assert want[j] == src[..k][j - at];
        } else if j == at + k {
        } else {
          assert want[j] == old(dst[..])[j];
        }
      }
    }
  }
}
