/** 8.3 names: from a C string to the 11 bytes of a directory slot, and back. */
module FatNames {
  import opened Bytes

  const BLANK: byte := 0x20
  const DOT: byte := 0x2E

  // A C string: no byte of it is zero.
  type Name = s: seq<byte> | forall i | 0 <= i < |s| :: s[i] != 0 witness []

  function Upper(c: byte): byte {
    if 0x61 <= c <= 0x7A then c - 0x20 else c
  }

  function UpperAll(s: seq<byte>): (r: seq<byte>)
    ensures |r| == |s|
  {
    seq(|s|, i requires 0 <= i < |s| => Upper(s[i]))
  }

  // The index of the first dot, or the length.
  function DotAt(s: seq<byte>): (k: nat)
    ensures k <= |s| && (k < |s| ==> s[k] == DOT) && forall i | 0 <= i < k :: s[i] != DOT
  {
    if s == [] || s[0] == DOT then 0 else 1 + DotAt(s[1..])
  }

  function Base(s: seq<byte>): seq<byte> { s[..DotAt(s)] }

  // What follows the first dot, later dots included.
  function Ext(s: seq<byte>): seq<byte> {
    if DotAt(s) < |s| then s[DotAt(s) + 1..] else []
  }

  function Cut(s: seq<byte>, n: nat): seq<byte> { if |s| <= n then s else s[..n] }

  function Blanks(n: nat): seq<byte> { seq(n, _ => BLANK) }

  function Pad(s: seq<byte>, n: nat): (r: seq<byte>)
    requires |s| <= n
    ensures |r| == n
  {
    s + Blanks(n - |s|)
  }

  // A part of a slot's name: n bytes in upper case, with blanks behind.
  function Part(s: seq<byte>, n: nat): (r: seq<byte>)
    ensures |r| == n
  {
    Pad(UpperAll(Cut(s, n)), n)
  }

  // "." and ".." stand for themselves.
  predicate IsDots(s: seq<byte>) { s == [DOT] || s == [DOT, DOT] }

  function Name83(s: seq<byte>): (r: seq<byte>)
    ensures |r| == 11
  {
    if IsDots(s) then Pad(s, 11)
    else Part(Base(s), 8) + Part(Ext(s), 3)
  }

  // The 11 bytes of a name, told one by one: k is where the first dot is, or the end.
  // Small letters become capitals, and blanks fill what is left.
  ghost predicate Bytes83(s: seq<byte>, out: seq<byte>) {
    && |out| == 11
    && (s == [0x2E] ==> forall i | 0 <= i < 11 :: out[i] == if i == 0 then 0x2E else 0x20)
    && (s == [0x2E, 0x2E] ==> forall i | 0 <= i < 11 :: out[i] == if i <= 1 then 0x2E else 0x20)
    && (s != [0x2E] && s != [0x2E, 0x2E] ==>
          forall k: nat | k <= |s| && (k < |s| ==> s[k] == 0x2E) && 0x2E !in s[..k] :: Parts83(s, out, k))
  }

  ghost predicate Parts83(s: seq<byte>, out: seq<byte>, k: nat)
    requires k <= |s| && |out| == 11
  {
    && (forall i: nat | i < 8 ::
          out[i] == if i >= k then 0x20 else if 0x61 <= s[i] <= 0x7A then s[i] - 0x20 else s[i])
    && forall i: nat | 8 <= i < 11 ::
         out[i] == if k + i - 7 >= |s| then 0x20
                   else if 0x61 <= s[k + i - 7] <= 0x7A then s[k + i - 7] - 0x20 else s[k + i - 7]
  }

  lemma NameBytes(s: seq<byte>)
    ensures Bytes83(s, Name83(s))
  {
    hide DotAt, Parts83, Part;
    if !IsDots(s) {
      forall k: nat | k <= |s| && (k < |s| ==> s[k] == 0x2E) && 0x2E !in s[..k] ensures Parts83(s, Name83(s), k) {
        FirstDot(s, k);
        PartsAt(s, k);
      }
    }
  }

  lemma PartsAt(s: seq<byte>, k: nat)
    requires !IsDots(s) && DotAt(s) == k
    ensures k <= |s| && Parts83(s, Name83(s), k)
  {
    hide DotAt, Name83;
    forall i: nat | i < 8
      ensures Name83(s)[i] == if i >= k then 0x20 else if 0x61 <= s[i] <= 0x7A then s[i] - 0x20 else s[i]
    {
      BaseAt(s, k, i);
    }
    forall i: nat | 8 <= i < 11
      ensures Name83(s)[i] == if k + i - 7 >= |s| then 0x20
                              else if 0x61 <= s[k + i - 7] <= 0x7A then s[k + i - 7] - 0x20 else s[k + i - 7]
    {
      ExtAt(s, k, i - 8, k + i - 7);
    }
  }

  lemma BaseAt(s: seq<byte>, k: nat, i: nat)
    requires !IsDots(s) && DotAt(s) == k && i < 8
    ensures Name83(s)[i] == if i >= k then 0x20 else if 0x61 <= s[i] <= 0x7A then s[i] - 0x20 else s[i]
  {
    hide DotAt, Part;
    PartAt(Base(s), 8, i);
  }

  lemma ExtAt(s: seq<byte>, k: nat, i: nat, j: nat)
    requires !IsDots(s) && DotAt(s) == k && i < 3 && j == k + i + 1
    ensures Name83(s)[8 + i] == if j >= |s| then 0x20 else if 0x61 <= s[j] <= 0x7A then s[j] - 0x20 else s[j]
  {
    hide DotAt, Part;
    PartAt(Ext(s), 3, i);
  }

  lemma PartAt(s: seq<byte>, n: nat, i: nat)
    requires i < n
    ensures Part(s, n)[i] == if i >= |s| then 0x20 else if 0x61 <= s[i] <= 0x7A then s[i] - 0x20 else s[i]
  {
  }

  // Names that differ in the case of letters only are the same to the driver.
  lemma CaseBlind(a: seq<byte>, b: seq<byte>)
    requires |a| == |b|
    requires forall i | 0 <= i < |a| ::
      a[i] == b[i] || (0x61 <= a[i] <= 0x7A && b[i] == a[i] - 0x20) || (0x61 <= b[i] <= 0x7A && a[i] == b[i] - 0x20)
    ensures Name83(a) == Name83(b)
  {
    hide DotAt, UpperAll;
    FirstDot(b, DotAt(a));
    var k := DotAt(a);
    if IsDots(a) || IsDots(b) {
      assert a == b;
    } else {
      SameUpper(Cut(Base(a), 8), Cut(Base(b), 8));
      SameUpper(Cut(Ext(a), 3), Cut(Ext(b), 3));
    }
  }

  lemma SameUpper(a: seq<byte>, b: seq<byte>)
    requires |a| == |b| && forall i | 0 <= i < |a| ::
      a[i] == b[i] || (0x61 <= a[i] <= 0x7A && b[i] == a[i] - 0x20) || (0x61 <= b[i] <= 0x7A && a[i] == b[i] - 0x20)
    ensures UpperAll(a) == UpperAll(b)
  {
    assert forall i | 0 <= i < |a| :: UpperAll(a)[i] == UpperAll(b)[i];
  }

  // out[at..at + n] := the first n bytes of src in upper case, if it has that many.
  method CopyUpper(src: seq<byte>, out: array<byte>, at: nat, n: nat)
    requires at + n <= out.Length && forall k | at <= k < at + n :: out[k] == BLANK
    modifies out
    ensures out[..] == Splice(old(out[..]), at, Part(src, n))
  {
    var pos := 0;
    while pos < |src| && pos < n
      invariant 0 <= pos <= |src| && pos <= n
      invariant forall k | 0 <= k < out.Length ::
        out[k] == if at <= k < at + pos then Upper(src[k - at]) else old(out[k])
    {
      out[at + pos] := Upper(src[pos]);
      pos := pos + 1;
    }
    forall k | 0 <= k < n ensures Part(src, n)[k] == out[at + k] { }
  }

  // name_to_83
  method NameTo83(name: Name, out: array<byte>)
    requires out.Length == 11
    modifies out
    ensures out[..] == Name83(name) && Bytes83(name, out[..])
  {
    hide DotAt, Part, Bytes83, Name83, Splice;
    NameBytes(name);
    var i := 0;
    while i < 11
      invariant 0 <= i <= 11 && forall k | 0 <= k < i :: out[k] == BLANK
    {
      out[i] := BLANK;
      i := i + 1;
    }
    if IsDots(name) {
      i := 0;
      while i < |name| && i < 11
        invariant 0 <= i <= |name| && forall k | 0 <= k < 11 :: out[k] == if k < i then name[k] else BLANK
      {
        out[i] := name[i];
        i := i + 1;
      }
      DotsPadded(name);
      assert out[..] == Pad(name, 11);
      return;
    }
    var dot := 0;
    while dot < |name| && name[dot] != DOT
      invariant 0 <= dot <= |name| && forall k | 0 <= k < dot :: name[k] != DOT
    {
      dot := dot + 1;
    }
    NameParts(name, dot, out[..]);
    CopyUpper(name[..dot], out, 0, 8);
    if dot < |name| { CopyUpper(name[dot + 1..], out, 8, 3); }
  }

  lemma DotsPadded(name: seq<byte>)
    requires IsDots(name)
    ensures Name83(name) == Pad(name, 11)
  {
  }

  // Filling in the base, and the extension if there is a dot.
  lemma NameParts(name: seq<byte>, dot: nat, s: seq<byte>)
    requires dot <= |name| && (dot < |name| ==> name[dot] == DOT) && forall i | 0 <= i < dot :: name[i] != DOT
    requires !IsDots(name) && |s| == 11 && forall k | 0 <= k < 11 :: s[k] == BLANK
    ensures var w := Splice(s, 0, Part(name[..dot], 8));
            && |w| == 11 && (forall k | 8 <= k < 11 :: w[k] == BLANK)
            && Name83(name) == (if dot < |name| then Splice(w, 8, Part(name[dot + 1..], 3)) else w)
  {
    hide DotAt, Part;
    FirstDot(name, dot);
    if dot < |name| {
      TwoParts(s, Part(Base(name), 8), Part(Ext(name), 3));
    } else {
      NoExt();
      OnePart(s, Part(Base(name), 8));
    }
  }

  lemma TwoParts(s: seq<byte>, a: seq<byte>, b: seq<byte>)
    requires |s| == 11 && |a| == 8 && |b| == 3
    ensures Splice(Splice(s, 0, a), 8, b) == a + b
  {
  }

  lemma OnePart(s: seq<byte>, a: seq<byte>)
    requires |s| == 11 && |a| == 8 && forall k | 0 <= k < 11 :: s[k] == BLANK
    ensures Splice(s, 0, a) == a + Blanks(3)
  {
  }

  lemma NoExt()
    ensures Part([], 3) == Blanks(3)
  {
  }

  lemma {:induction false} FirstDot(s: seq<byte>, k: nat)
    requires k <= |s| && (k < |s| ==> s[k] == DOT) && forall i | 0 <= i < k :: s[i] != DOT
    ensures DotAt(s) == k
  {
  }

  // ---- when two names are the same to the driver ----

  // Without blanks at the end.
  function Trim(s: seq<byte>): (r: seq<byte>)
    ensures |r| <= |s| && r == s[..|r|] && (r != [] ==> r[|r| - 1] != BLANK)
    ensures forall i | |r| <= i < |s| :: s[i] == BLANK
  {
    if s != [] && s[|s| - 1] == BLANK then Trim(s[..|s| - 1]) else s
  }

  lemma PadSame(a: seq<byte>, b: seq<byte>, n: nat)
    requires |a| <= n && |b| <= n
    ensures Pad(a, n) == Pad(b, n) <==> Trim(a) == Trim(b)
  {
    if Pad(a, n) == Pad(b, n) { TrimsEqual(a, b, n); }
    if Trim(a) == Trim(b) {
      forall i | 0 <= i < n ensures Pad(a, n)[i] == Pad(b, n)[i] { }
    }
  }

  function ByteAt(s: seq<byte>, i: nat): byte { if i < |s| then s[i] else BLANK }

  lemma TrimsEqual(a: seq<byte>, b: seq<byte>, n: nat)
    requires |a| <= n && |b| <= n && Pad(a, n) == Pad(b, n)
    ensures Trim(a) == Trim(b)
  {
    var x, y := Trim(a), Trim(b);
    forall i: nat ensures ByteAt(x, i) == ByteAt(y, i) {
      assert i < n ==> Pad(a, n)[i] == Pad(b, n)[i];
    }
    assert |x| > 0 ==> ByteAt(y, |x| - 1) == ByteAt(x, |x| - 1);
    assert |y| > 0 ==> ByteAt(x, |y| - 1) == ByteAt(y, |y| - 1);
    forall i | 0 <= i < |x| ensures x[i] == y[i] { assert ByteAt(x, i) == ByteAt(y, i); }
  }

  // Base and extension as they count: cut, in upper case, blanks at the end ignored.
  function Key(s: seq<byte>): (seq<byte>, seq<byte>) {
    (Trim(UpperAll(Cut(Base(s), 8))), Trim(UpperAll(Cut(Ext(s), 3))))
  }

  lemma SameName(a: seq<byte>, b: seq<byte>)
    ensures Name83(a) == Name83(b) <==>
      if IsDots(a) || IsDots(b) then a == b else Key(a) == Key(b)
  {
    if IsDots(a) && IsDots(b) {
      assert Name83(a)[1] == (if |a| == 2 then DOT else BLANK);
    } else if IsDots(a) {
      PlainNoDot(b);
    } else if IsDots(b) {
      PlainNoDot(a);
    } else {
      var p, q := UpperAll(Cut(Base(a), 8)), UpperAll(Cut(Ext(a), 3));
      var r, s := UpperAll(Cut(Base(b), 8)), UpperAll(Cut(Ext(b), 3));
      PadSame(p, r, 8);
      PadSame(q, s, 3);
      assert Name83(a)[..8] == Pad(p, 8) && Name83(a)[8..] == Pad(q, 3);
      assert Name83(b)[..8] == Pad(r, 8) && Name83(b)[8..] == Pad(s, 3);
    }
  }

  // Only "." and ".." give a slot name that begins with a dot.
  lemma PlainNoDot(s: seq<byte>)
    requires !IsDots(s)
    ensures Name83(s)[0] != DOT
  {
    var base := UpperAll(Cut(Base(s), 8));
    assert Name83(s)[0] == Pad(base, 8)[0];
    if base != [] { assert base[0] == Upper(s[0]); }
  }

  // ---- printing a slot name, as fat32_match_prefix does ----

  function UpToBlank(s: seq<byte>): (r: seq<byte>)
    ensures |r| <= |s| && r == s[..|r|] && (|r| < |s| ==> s[|r|] == BLANK)
    ensures forall i | 0 <= i < |r| :: r[i] != BLANK
  {
    if s == [] || s[0] == BLANK then [] else [s[0]] + UpToBlank(s[1..])
  }

  function Printed(n: seq<byte>): seq<byte>
    requires |n| == 11
  {
    var base := UpToBlank(n[..8]);
    if base != [] && (n[8] != BLANK || n[9] != BLANK || n[10] != BLANK)
    then base + [DOT] + UpToBlank(n[8..]) else base
  }

  // A field of a slot name: no blank before the end, no dot, no small letter.
  ghost predicate FieldOk(s: seq<byte>) {
    && s == Pad(UpToBlank(s), |s|)
    && forall i | 0 <= i < |s| :: s[i] != DOT && Upper(s[i]) == s[i]
  }

  lemma FieldRoundTrip(f: seq<byte>)
    requires FieldOk(f)
    ensures var w := UpToBlank(f);
            Pad(UpperAll(Cut(w, |f|)), |f|) == f && forall i | 0 <= i < |w| :: w[i] != DOT
  {
    var w := UpToBlank(f);
    forall i | 0 <= i < |w| ensures w[i] != DOT && Upper(w[i]) == w[i] { assert w[i] == f[i]; }
    assert UpperAll(w) == w;
  }

  lemma PrintedRoundTrip(n: seq<byte>)
    requires |n| == 11 && n[0] != BLANK && FieldOk(n[..8]) && FieldOk(n[8..])
    ensures Name83(Printed(n)) == n
  {
    hide FieldOk, Pad, UpperAll, Cut, DotAt;
    var base, ext, s := UpToBlank(n[..8]), UpToBlank(n[8..]), Printed(n);
    FieldRoundTrip(n[..8]);
    FieldRoundTrip(n[8..]);
    assert n == n[..8] + n[8..];
    assert base[0] == n[0] && s[0] == base[0];
    if n[8] == BLANK && n[9] == BLANK && n[10] == BLANK {
      FirstDot(s, |s|);
      assert Base(s) == base && Ext(s) == [];
      assert ext == [];
    } else {
      FirstDot(s, |base|);
      assert Base(s) == base && Ext(s) == ext;
    }
  }

  lemma DotsRoundTrip(s: seq<byte>)
    requires IsDots(s)
    ensures Printed(Name83(s)) == s
  {
    var n := Name83(s);
    assert n[8] == n[9] == n[10] == BLANK;
    assert UpToBlank(n[..8]) == s by {
      var w := UpToBlank(n[..8]);
      assert forall i | 0 <= i < 8 :: n[..8][i] == if i < |s| then DOT else BLANK;
      assert |w| < 8 ==> n[..8][|w|] == BLANK;
      assert n[..8][|s|] == BLANK && forall j | 0 <= j < |w| :: w[j] == n[..8][j] != BLANK;
      assert |w| == |s| && forall i | 0 <= i < |s| :: w[i] == n[..8][i] == s[i];
    }
  }
}
