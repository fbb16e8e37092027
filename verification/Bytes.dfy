/** Bytes and little-endian numbers. */
module Bytes {
  import opened Widths

  type byte = x: int | 0 <= x < 256

  function Le16(s: seq<byte>): (v: nat)
    requires |s| == 2
    ensures v < TWO16
  {
    (s[0] as int) + 256 * (s[1] as int)
  }

  function Le32(s: seq<byte>): (v: nat)
    requires |s| == 4
    ensures v < TWO32
  {
    (s[0] as int) + 256 * (s[1] as int) + 65536 * (s[2] as int) + 16777216 * (s[3] as int)
  }

  function Put16(v: nat): (s: seq<byte>)
    requires v < TWO16
    ensures |s| == 2 && Le16(s) == v
  {
    [v % 256, v / 256]
  }

  function Put32(v: nat): (s: seq<byte>)
    requires v < TWO32
    ensures |s| == 4 && Le32(s) == v
  {
    var u := v / 256;
    var w := u / 256;
    [v % 256, u % 256, w % 256, w / 256]
  }

  // The number that four bytes stand for, the lowest first.
  function Number(a: nat, b: nat, c: nat, d: nat): nat { a + 256 * b + 65536 * c + 16777216 * d }

  // The four bytes at an offset.
  function Field32(s: seq<byte>, at: nat): nat
    requires at + 4 <= |s|
  {
    Le32(s[at..at + 4])
  }

  function Field16(s: seq<byte>, at: nat): nat
    requires at + 2 <= |s|
  {
    Le16(s[at..at + 2])
  }

  // s with the bytes of t stored from `at` on.
  function Splice<T>(s: seq<T>, at: nat, t: seq<T>): (r: seq<T>)
    requires at + |t| <= |s|
    ensures |r| == |s|
    ensures forall i | 0 <= i < |s| :: r[i] == if at <= i < at + |t| then t[i - at] else s[i]
  {
    s[..at] + t + s[at + |t|..]
  }

  lemma SpliceInside<T>(s: seq<T>, at: nat, t: seq<T>)
    requires at + |t| <= |s|
    ensures Splice(s, at, t)[at..at + |t|] == t
  {
  }

  lemma SpliceOutside<T>(s: seq<T>, at: nat, t: seq<T>, lo: nat, hi: nat)
    requires at + |t| <= |s| && lo <= hi <= |s| && (hi <= at || at + |t| <= lo)
    ensures Splice(s, at, t)[lo..hi] == s[lo..hi]
  {
  }

  lemma SliceOfSlice<T>(s: seq<T>, a: nat, b: nat, i: nat, j: nat)
    requires a <= b <= |s| && i <= j <= b - a
    ensures s[a..b][i..j] == s[a + i..a + j]
  {
    var u, v := s[a..b][i..j], s[a + i..a + j];
    assert |u| == |v| && forall k | 0 <= k < |u| :: u[k] == s[a..b][i + k] == s[a + i + k] == v[k];
  }

  lemma DropConcat<T>(a: seq<T>, b: seq<T>, k: nat)
    requires k <= |a| + |b|
    ensures (a + b)[k..] == if k <= |a| then a[k..] + b else b[k - |a|..]
  {
  }
}
