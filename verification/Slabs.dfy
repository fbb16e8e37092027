/**
  One slab page: a 48-byte header and equal objects behind it, with the free
  objects threaded into a list through their first words.
 */
module Slabs {
  import opened Arithmetic
  import opened Widths
  import opened Counting
  import opened Dyadic
  import opened Layout
  import opened FreeLists

  const SLAB_MAGIC: nat := 0x534C4142
  const CACHE_COUNT: nat := 8
  const HEADER_SIZE: nat := 48

  // The object size of each cache.
  function ObjSize(c: nat): (n: nat)
    requires c < CACHE_COUNT
    ensures 16 <= n <= 2048 && n % 16 == 0
  {
    [16, 32, 64, 128, 256, 512, 1024, 2048][c]
  }

  function ObjPerSlab(c: nat): (n: nat)
    requires c < CACHE_COUNT
    ensures 1 <= n <= 253
  {
    (FRAME_SIZE - HEADER_SIZE) / ObjSize(c)
  }

  // Byte offset and word number of object k in its page.
  function SlotOff(c: nat, k: nat): (r: nat)
    requires c < CACHE_COUNT
    ensures r >= HEADER_SIZE && r % 16 == 0
  {
    if k == 0 then HEADER_SIZE else SlotOff(c, k - 1) + ObjSize(c)
  }

  function SlotWord(c: nat, k: nat): nat
    requires c < CACHE_COUNT
  {
    SlotOff(c, k) / 8
  }

  function SlotAddr(f: nat, c: nat, k: nat): nat
    requires c < CACHE_COUNT
  {
    FrameToAddr(f) + SlotOff(c, k)
  }

  // Objects of 16, 32, .. 2048 bytes lie one behind the other from byte 48 of their
  // page on; frame f is at 0x900000 + 4096 * f.
  lemma {:induction false} SlotPlace(f: nat, c: nat, k: nat)
    requires c < CACHE_COUNT
    ensures ObjSize(c) == 16 * Pow2(c) && ObjPerSlab(c) == 4048 / (16 * Pow2(c))
    ensures SlotAddr(f, c, k) == 0x90_0000 + 4096 * f + 48 + k * (16 * Pow2(c))
  {
    Powers();
    assert c == 0 || c == 1 || c == 2 || c == 3 || c == 4 || c == 5 || c == 6 || c == 7;
    hide ObjPerSlab;
    if k > 0 {
      SlotPlace(f, c, k - 1);
      assert k * ObjSize(c) == (k - 1) * ObjSize(c) + ObjSize(c);
    }
  }

  lemma Powers()
    ensures Pow2(0) == 1 && Pow2(1) == 2 && Pow2(2) == 4 && Pow2(3) == 8
    ensures Pow2(4) == 16 && Pow2(5) == 32 && Pow2(6) == 64 && Pow2(7) == 128
  {
    assert Pow2(2) == 4 && Pow2(4) == 16;
  }

  // What word 5 of a page of cache c holds, in place of &kmalloc_caches[c].
  function CachePtr(c: nat): nat { c + 1 }

  lemma {:induction false} SlotsApart(c: nat, j: nat, k: nat)
    requires c < CACHE_COUNT && j < k
    ensures SlotOff(c, j) + ObjSize(c) <= SlotOff(c, k)
  {
    if j + 1 < k { SlotsApart(c, j, k - 1); }
  }

  lemma {:induction false} SlotLinear(c: nat, k: nat)
    requires c < CACHE_COUNT
    ensures SlotOff(c, k) == HEADER_SIZE + k * ObjSize(c)
  {
    if k > 0 { SlotLinear(c, k - 1); }
  }

  // Object k fits behind the header of a page exactly when k < ObjPerSlab(c).
  lemma SlotFits(c: nat, k: nat)
    requires c < CACHE_COUNT
    ensures SlotOff(c, k) + ObjSize(c) <= FRAME_SIZE <==> k < ObjPerSlab(c)
  {
    var n, t := ObjSize(c), ObjPerSlab(c);
    SlotLinear(c, k);
    DivBounds(FRAME_SIZE - HEADER_SIZE, n);
    hide ObjSize, ObjPerSlab, SlotOff;
    if k < t { MulStep(k, t, n); }
    if k > t { MulStep(t, k, n); }
  }

  // The list of free objects, front first, and the cache the page belongs to.
  datatype Slab = Slab(cache: nat, free: seq<nat>)

  function SlotLink(f: nat, c: nat, free: seq<nat>, i: nat): nat
    requires c < CACHE_COUNT
  {
    if i < |free| then SlotAddr(f, c, free[i]) else NULL
  }

  ghost predicate FreeSlot(d: seq<int>, f: nat, c: nat, free: seq<nat>, i: nat)
    requires c < CACHE_COUNT && |d| == FRAME_WORDS && i < |free|
  {
    && free[i] < ObjPerSlab(c)
    && SlotWord(c, free[i]) < FRAME_WORDS
    && d[SlotWord(c, free[i])] == SlotLink(f, c, free, i + 1)
  }

  // `head` begins the list of free objects of the page in frame f.
  ghost predicate Threaded(d: seq<int>, f: nat, c: nat, head: int, free: seq<nat>) {
    && c < CACHE_COUNT && |d| == FRAME_WORDS
    && head == SlotLink(f, c, free, 0)
    && Distinct(free)
    && forall i | 0 <= i < |free| :: FreeSlot(d, f, c, free, i)
  }

  lemma SlotWordFits(c: nat, k: nat)
    requires c < CACHE_COUNT && k < ObjPerSlab(c)
    ensures 6 <= SlotWord(c, k) && SlotWord(c, k) + ObjSize(c) / 8 <= FRAME_WORDS
    ensures SlotOff(c, k) == 8 * SlotWord(c, k)
  {
    hide ObjPerSlab, SlotOff, ObjSize;
    SlotFits(c, k);
  }

  lemma WordsApart(c: nat, j: nat, k: nat)
    requires c < CACHE_COUNT && j != k
    ensures SlotWord(c, j) + ObjSize(c) / 8 <= SlotWord(c, k) || SlotWord(c, k) + ObjSize(c) / 8 <= SlotWord(c, j)
  {
    if j < k { SlotsApart(c, j, k); } else { SlotsApart(c, k, j); }
  }

  lemma PopSlot(d: seq<int>, f: nat, c: nat, head: int, free: seq<nat>)
    requires Threaded(d, f, c, head, free) && free != []
    ensures head == SlotAddr(f, c, free[0]) && SlotWord(c, free[0]) < FRAME_WORDS && free[0] < ObjPerSlab(c)
    ensures Threaded(d, f, c, d[SlotWord(c, free[0])], free[1..])
    ensures free[0] !in free[1..]
  {
    assert FreeSlot(d, f, c, free, 0);
    forall i | 0 <= i < |free[1..]| ensures FreeSlot(d, f, c, free[1..], i) {
      assert FreeSlot(d, f, c, free, i + 1);
    }
  }

  lemma PushSlot(d: seq<int>, f: nat, c: nat, head: int, free: seq<nat>, k: nat)
    requires Threaded(d, f, c, head, free) && k < ObjPerSlab(c) && k !in free
    ensures SlotWord(c, k) < FRAME_WORDS
    ensures Threaded(d[SlotWord(c, k) := head], f, c, SlotAddr(f, c, k), [k] + free)
  {
    SlotWordFits(c, k);
    var n, d' := [k] + free, d[SlotWord(c, k) := head];
    forall i | 0 <= i < |n| ensures FreeSlot(d', f, c, n, i) {
      if i > 0 {
        assert FreeSlot(d, f, c, free, i - 1);
        assert n[i] == free[i - 1] && n[i] != k;
        WordsApart(c, n[i], k);
      }
    }
  }

  // A store into an allocated object, or into the header, leaves the list alone.
  lemma StoreInSlot(d: seq<int>, f: nat, c: nat, head: int, free: seq<nat>, k: nat, w: nat, v: int)
    requires Threaded(d, f, c, head, free) && k !in free
    requires SlotWord(c, k) <= w < SlotWord(c, k) + ObjSize(c) / 8 && w < FRAME_WORDS
    ensures Threaded(d[w := v], f, c, head, free)
  {
    var d' := d[w := v];
    forall i | 0 <= i < |free| ensures FreeSlot(d', f, c, free, i) {
      assert FreeSlot(d, f, c, free, i);
      assert free[i] != k;
      WordsApart(c, free[i], k);
    }
  }

  // The list that slab_alloc builds in a new page: the last object comes first.
  function Descending(n: nat): (l: seq<nat>)
    ensures |l| == n && forall i | 0 <= i < n :: l[i] == n - 1 - i
  {
    if n == 0 then [] else [n - 1] + Descending(n - 1)
  }

  // ---- the words of the header ----

  function MagicOf(w: int): int { w % TWO32 }

  // A 16-bit store into the low end of a word.
  function SetLow16(w: int, v: nat): (r: int)
    requires v < 65536
    ensures r % 65536 == v && r / 65536 == w / 65536
  {
    w - w % 65536 + v
  }

  // The header words of a page: magic and in_use in word 0, total in word 1.
  ghost predicate HeaderOk(w0: int, w1: int, w5: int, s: Slab) {
    && s.cache < CACHE_COUNT
    && |s.free| < ObjPerSlab(s.cache)
    && w0 == SLAB_MAGIC + TWO32 * (ObjPerSlab(s.cache) - |s.free|)
    && w1 % 65536 == ObjPerSlab(s.cache)
    && w5 == CachePtr(s.cache)
  }

  // A link is no slab magic: its low half is zero or an address in the heap.
  lemma LinkIsNotMagic(p: int)
    requires IsLink(p)
    ensures MagicOf(p) != SLAB_MAGIC
  {
  }

  lemma HeaderMagic(w0: int, w1: int, w5: int, s: Slab)
    requires HeaderOk(w0, w1, w5, s)
    ensures MagicOf(w0) == SLAB_MAGIC == 0x534C_4142 && w0 / TWO32 == ObjPerSlab(s.cache) - |s.free|
  {
  }
}
