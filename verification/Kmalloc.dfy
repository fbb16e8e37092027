/**
  kmalloc and kfree: eight caches of slab pages on top of the buddy allocator.
  The words of a frame are kept by position: words 0 and 1 are `heap.next` and
  `heap.prev`, which free blocks use for their links and slab pages for magic,
  in_use and total; word 2 is `freelist`, words 3 and 4 chain the slab pages of
  a cache, word 5 is the cache, and `data` holds the objects from word 6 on.
 */
module Kmalloc {
  import opened Arithmetic
  import opened Widths
  import opened Counting
  import opened Dyadic
  import opened Layout
  import opened Blocks
  import opened FreeLists
  import opened BuddyHeap
  import opened Slabs

  type Pages = map<nat, Slab>

  // ---- what callers hold ----

  ghost predicate SlotTaken(pages: Pages, f: nat, k: nat) {
    && f in pages && pages[f].cache < CACHE_COUNT
    && k < ObjPerSlab(pages[f].cache) && k !in pages[f].free
  }

  ghost predicate SmallObj(pages: Pages, a: nat, n: nat) {
    exists f: nat, k: nat :: SlotTaken(pages, f, k)
      && a == SlotAddr(f, pages[f].cache, k) && n == ObjSize(pages[f].cache)
  }

  ghost predicate BigAt(pages: Pages, live: Blocks, h: nat, a: nat, n: nat) {
    h in live && h !in pages && a == FrameToAddr(h) && n == FRAME_SIZE * Pow2(live[h].order)
  }

  ghost predicate BigObj(pages: Pages, live: Blocks, a: nat, n: nat) {
    exists h: nat :: BigAt(pages, live, h, a, n)
  }

  // The n bytes at address a have been handed out and not given back.
  ghost predicate Granted(pages: Pages, live: Blocks, a: nat, n: nat) {
    SmallObj(pages, a, n) || BigObj(pages, live, a, n)
  }

  // The live blocks that are no slab pages.
  ghost function Others(pages: Pages, live: Blocks): Blocks {
    live - pages.Keys
  }

  // The same blocks, and perhaps one more that begins at a.
  ghost predicate OneMore(bs: Blocks, bs': Blocks, a: nat) {
    && (forall h <- bs :: h in bs' && bs'[h] == bs[h])
    && forall h <- bs' :: h in bs || FrameToAddr(h) == a
  }

  ghost predicate Grows(pages: Pages, live: Blocks, pages': Pages, live': Blocks, a: nat, n: nat) {
    && OneMore(Others(pages, live), Others(pages', live'), a)
    && (forall m: nat :: !Granted(pages, live, a, m))
    && (forall x: nat, m: nat :: Granted(pages', live', x, m) <==> Granted(pages, live, x, m) || (x == a && m == n))
  }

  ghost predicate Shrinks(pages: Pages, live: Blocks, pages': Pages, live': Blocks, a: nat) {
    && OneMore(Others(pages', live'), Others(pages, live), a)
    && forall x: nat, m: nat :: Granted(pages', live', x, m) <==> Granted(pages, live, x, m) && x != a
  }

  // ---- the invariant, on values ----

  // Every slab page is a live kernel block of one frame.
  ghost predicate PagesLive(pages: Pages, live: Blocks) {
    forall f <- pages :: f < FRAME_COUNT && f in live && live[f] == Live(0, false) && pages[f].cache < CACHE_COUNT
  }

  // Cache c's chain holds exactly the slab pages of cache c.
  ghost predicate ChainsOk(chains: Lists, pages: Pages) {
    && |chains| == CACHE_COUNT
    && forall c, f: nat | 0 <= c < CACHE_COUNT :: f in chains[c] <==> f in pages && pages[f].cache == c
  }

  // ---- addresses ----

  lemma SlotAddrUnique(f: nat, c: nat, k: nat, g: nat, e: nat, j: nat)
    requires c < CACHE_COUNT && e < CACHE_COUNT && k < ObjPerSlab(c) && j < ObjPerSlab(e)
    requires SlotAddr(f, c, k) == SlotAddr(g, e, j)
    ensures f == g && (c == e ==> k == j)
  {
    SlotFits(c, k);
    SlotFits(e, j);
    if c == e && j < k { SlotsApart(c, j, k); }
    if c == e && k < j { SlotsApart(c, k, j); }
  }

  lemma SlotNotFrame(f: nat, c: nat, k: nat, h: nat)
    requires c < CACHE_COUNT && k < ObjPerSlab(c)
    ensures SlotAddr(f, c, k) != FrameToAddr(h)
  {
    hide ObjPerSlab, SlotOff, ObjSize;
    SlotFits(c, k);
    assert HEADER_SIZE <= SlotOff(c, k) < FRAME_SIZE;
  }

  // Two allocated objects never overlap.
  lemma GrantedDisjoint(pages: Pages, b: Blocks, a: nat, n: nat, x: nat, m: nat)
    requires Tiled(b, MAX_ORDER) && PagesLive(pages, LiveOf(b))
    requires Granted(pages, LiveOf(b), a, n) && Granted(pages, LiveOf(b), x, m) && a != x
    ensures a + n <= x || x + m <= a
  {
    var h := HomeBlock(pages, b, a, n);
    var i := HomeBlock(pages, b, x, m);
    assert Apart(b, h, i) && Apart(b, i, h);
    if h == i {
      assert h in pages;
      SlotsDisjoint(pages, h, a, n, x, m);
    }
  }

  // The block that an allocated object lies in; objects that begin at it fill it.
  lemma HomeBlock(pages: Pages, b: Blocks, a: nat, n: nat) returns (h: nat)
    requires Tiled(b, MAX_ORDER) && PagesLive(pages, LiveOf(b)) && Granted(pages, LiveOf(b), a, n)
    ensures h in LiveOf(b) && h in b
    ensures FrameToAddr(h) <= a && a + n <= FrameToAddr(h) + FRAME_SIZE * Pow2(b[h].order)
    ensures h !in pages ==> a == FrameToAddr(h)
    ensures h in pages ==> exists k: nat ::
      SlotTaken(pages, h, k) && a == SlotAddr(h, pages[h].cache, k) && n == ObjSize(pages[h].cache)
  {
    if SmallObj(pages, a, n) {
      var f: nat, k: nat :|
        SlotTaken(pages, f, k) && a == SlotAddr(f, pages[f].cache, k) && n == ObjSize(pages[f].cache);
      SlotFits(pages[f].cache, k);
      h := f;
    } else {
      h :| BigAt(pages, LiveOf(b), h, a, n);
    }
  }

  lemma SlotsDisjoint(pages: Pages, f: nat, a: nat, n: nat, x: nat, m: nat)
    requires exists k: nat ::
      SlotTaken(pages, f, k) && a == SlotAddr(f, pages[f].cache, k) && n == ObjSize(pages[f].cache)
    requires exists k: nat ::
      SlotTaken(pages, f, k) && x == SlotAddr(f, pages[f].cache, k) && m == ObjSize(pages[f].cache)
    requires a != x
    ensures a + n <= x || x + m <= a
  {
    var c := pages[f].cache;
    var k: nat :| SlotTaken(pages, f, k) && a == SlotAddr(f, c, k);
    var j: nat :| SlotTaken(pages, f, j) && x == SlotAddr(f, c, j);
    if j < k { SlotsApart(c, j, k); } else { SlotsApart(c, k, j); }
  }

  // ---- how the changes show to callers ----

  // Taking a slot of page f off its free list.
  lemma TakeSlotGrows(pages: Pages, live: Blocks, pages': Pages, live': Blocks, f: nat, k: nat)
    requires f in pages' && SlotTaken(pages', f, k) && !SlotTaken(pages, f, k)
    requires f in pages ==> pages[f].cache == pages'[f].cache
    requires forall g: nat, j: nat :: SlotTaken(pages', g, j) <==> SlotTaken(pages, g, j) || (g == f && j == k)
    requires forall g: nat :: g != f ==>
      (g in pages <==> g in pages') && (g in pages ==> pages[g].cache == pages'[g].cache)
    requires Others(pages', live') == Others(pages, live)
    ensures Grows(pages, live, pages', live', SlotAddr(f, pages'[f].cache, k), ObjSize(pages'[f].cache))
  {
    var a, n := SlotAddr(f, pages'[f].cache, k), ObjSize(pages'[f].cache);
    forall m: nat ensures !Granted(pages, live, a, m) {
      forall g: nat, j: nat | SlotTaken(pages, g, j) ensures a != SlotAddr(g, pages[g].cache, j) {
        if a == SlotAddr(g, pages[g].cache, j) { SlotAddrUnique(f, pages'[f].cache, k, g, pages[g].cache, j); }
      }
      forall h: nat ensures a != FrameToAddr(h) { SlotNotFrame(f, pages'[f].cache, k, h); }
    }
    forall x: nat, m: nat
      ensures Granted(pages', live', x, m) <==> Granted(pages, live, x, m) || (x == a && m == n)
    {
      SmallAfterTake(pages, pages', f, k, x, m);
      SameBig(pages, live, pages', live', x, m);
    }
  }

  lemma SameBig(pages: Pages, live: Blocks, pages': Pages, live': Blocks, a: nat, n: nat)
    requires Others(pages', live') == Others(pages, live)
    ensures BigObj(pages', live', a, n) <==> BigObj(pages, live, a, n)
  {
    forall h: nat ensures BigAt(pages', live', h, a, n) <==> BigAt(pages, live, h, a, n) {
      assert h in Others(pages, live) <==> h in live && h !in pages;
      assert h in Others(pages', live') <==> h in live' && h !in pages';
    }
  }

  lemma SmallAfterTake(pages: Pages, pages': Pages, f: nat, k: nat, x: nat, m: nat)
    requires f in pages' && SlotTaken(pages', f, k)
    requires f in pages ==> pages[f].cache == pages'[f].cache
    requires forall g: nat, j: nat :: SlotTaken(pages', g, j) <==> SlotTaken(pages, g, j) || (g == f && j == k)
    requires forall g: nat :: g != f ==>
      (g in pages <==> g in pages') && (g in pages ==> pages[g].cache == pages'[g].cache)
    ensures SmallObj(pages', x, m) <==>
      SmallObj(pages, x, m) || (x == SlotAddr(f, pages'[f].cache, k) && m == ObjSize(pages'[f].cache))
  {
    if SmallObj(pages', x, m) {
      var g: nat, j: nat :|
        SlotTaken(pages', g, j) && x == SlotAddr(g, pages'[g].cache, j) && m == ObjSize(pages'[g].cache);
      assert SlotTaken(pages, g, j) || (g == f && j == k);
    }
    if SmallObj(pages, x, m) {
      var g: nat, j: nat :|
        SlotTaken(pages, g, j) && x == SlotAddr(g, pages[g].cache, j) && m == ObjSize(pages[g].cache);
      assert SlotTaken(pages', g, j);
    }
  }

  // Giving slot k of page f back is taking it, read backwards.
  lemma GrowsBackwards(pages: Pages, live: Blocks, pages': Pages, live': Blocks, a: nat, n: nat)
    requires Grows(pages, live, pages', live', a, n)
    ensures Shrinks(pages', live', pages, live, a)
  {
  }

  // ---- how each step keeps the invariant ----

  // The words of memory that the slab layer uses, column by column.
  datatype Memory = Memory(w0: seq<int>, w1: seq<int>, w2: seq<int>, w5: seq<int>, data: seq<seq<int>>) {
    ghost predicate Sized() {
      && |w0| == |w1| == |w2| == |w5| == |data| == FRAME_COUNT
      && forall f | 0 <= f < FRAME_COUNT :: |data[f]| == FRAME_WORDS
    }

    ghost predicate PageAt(f: nat, s: Slab)
      requires Sized() && f < FRAME_COUNT
    {
      HeaderOk(w0[f], w1[f], w5[f], s) && Threaded(data[f], f, s.cache, w2[f], s.free)
    }

    // Frame f reads the same in both.
    ghost predicate SameAt(m: Memory, f: nat)
      requires Sized() && m.Sized() && f < FRAME_COUNT
    {
      w0[f] == m.w0[f] && w1[f] == m.w1[f] && w2[f] == m.w2[f] && w5[f] == m.w5[f] && data[f] == m.data[f]
    }
  }

  // Every slab page is a live kernel frame with a sound header and free list;
  // no other live block begins with the slab magic.
  ghost predicate State(m: Memory, pages: Pages, chains: Lists, live: Blocks) {
    && m.Sized() && ChainsOk(chains, pages)
    && (forall f <- pages :: f < FRAME_COUNT && f in live && live[f] == Live(0, false) && m.PageAt(f, pages[f]))
    && (forall h <- live :: h !in pages ==> h < FRAME_COUNT && MagicOf(m.w0[h]) != SLAB_MAGIC)
  }

  lemma StateParts(m: Memory, pages: Pages, chains: Lists, live: Blocks)
    requires State(m, pages, chains, live)
    ensures m.Sized() && ChainsOk(chains, pages) && PagesLive(pages, live)
  {
  }

  // The first free object of page f, number k, has been taken.
  ghost predicate Taken(pages: Pages, pages': Pages, f: nat, k: nat) {
    && f in pages && pages[f].free != [] && k == pages[f].free[0] && pages[f].cache < CACHE_COUNT
    && pages' == pages[f := Slab(pages[f].cache, pages[f].free[1..])]
    && SlotTaken(pages', f, k)
  }

  function Popped(s: Slab): Slab
    requires s.free != []
  {
    Slab(s.cache, s.free[1..])
  }

  // s->freelist = *(void **)obj; s->in_use++
  function PopMemory(m: Memory, f: nat, w: nat): Memory
    requires f < |m.w0| && f < |m.w2| && f < |m.data| && w < |m.data[f]|
  {
    m.(w0 := m.w0[f := m.w0[f] + TWO32], w2 := m.w2[f := m.data[f][w]])
  }

  lemma PopState(m: Memory, pages: Pages, chains: Lists, live: Blocks, f: nat) returns (w: nat)
    requires State(m, pages, chains, live) && f in pages && pages[f].free != []
    ensures |m.w0| == |m.w2| == |m.data| == FRAME_COUNT && f < FRAME_COUNT && |m.data[f]| == FRAME_WORDS
    ensures f in live && w < FRAME_WORDS && w == (m.w2[f] - FrameToAddr(f)) / 8
    ensures Taken(pages, pages[f := Popped(pages[f])], f, pages[f].free[0])
    ensures m.w2[f] == SlotAddr(f, pages[f].cache, pages[f].free[0])
    ensures State(PopMemory(m, f, w), pages[f := Popped(pages[f])], chains, live)
  {
    hide Threaded, ChainsOk, SlotOff, ObjSize, ObjPerSlab;
    var s := pages[f];
    assert m.PageAt(f, s);
    PopSlot(m.data[f], f, s.cache, m.w2[f], s.free);
    SlotWordFits(s.cache, s.free[0]);
    w := (m.w2[f] - FrameToAddr(f)) / 8;
    assert PopMemory(m, f, w).PageAt(f, Popped(s));
    PageState(m, PopMemory(m, f, w), pages, chains, live, f, Popped(s));
  }

  // Page f has changed, and its cache has not.
  lemma PageState(m: Memory, m': Memory, pages: Pages, chains: Lists, live: Blocks, f: nat, s: Slab)
    requires State(m, pages, chains, live) && f in pages && f < FRAME_COUNT && s.cache == pages[f].cache
    requires OnlyAt(m, m', f) && m'.PageAt(f, s)
    ensures State(m', pages[f := s], chains, live)
  {
    hide Threaded, HeaderOk, MagicOf, ChainsOk;
    SameChains(chains, pages, f, s);
    forall g | g in pages[f := s]
      ensures g < FRAME_COUNT && g in live && live[g] == Live(0, false) && m'.PageAt(g, pages[f := s][g])
    {
      if g != f { assert m'.SameAt(m, g) && m.PageAt(g, pages[g]); }
    }
    forall h | h in live && h !in pages[f := s] ensures h < FRAME_COUNT && MagicOf(m'.w0[h]) != SLAB_MAGIC {
      assert m'.SameAt(m, h);
    }
  }

  lemma SameChains(chains: Lists, pages: Pages, f: nat, s: Slab)
    requires ChainsOk(chains, pages) && f in pages && s.cache == pages[f].cache
    ensures ChainsOk(chains, pages[f := s])
  {
  }

  // *(void **)ptr = s->freelist; s->freelist = ptr; s->in_use--
  function PushMemory(m: Memory, f: nat, w: nat, ptr: nat): Memory
    requires f < |m.w0| && f < |m.w2| && f < |m.data| && w < |m.data[f]|
  {
    m.(w0 := m.w0[f := m.w0[f] - TWO32], w2 := m.w2[f := ptr], data := m.data[f := m.data[f][w := m.w2[f]]])
  }

  function Returned(s: Slab, k: nat): Slab { Slab(s.cache, [k] + s.free) }

  lemma PushState(m: Memory, pages: Pages, chains: Lists, live: Blocks, f: nat, k: nat) returns (w: nat)
    requires State(m, pages, chains, live) && SlotTaken(pages, f, k)
    ensures |m.w0| == |m.w2| == |m.data| == FRAME_COUNT && f < FRAME_COUNT && |m.data[f]| == FRAME_WORDS
    ensures f in live && w < FRAME_WORDS
    ensures w == (SlotAddr(f, pages[f].cache, k) - FrameToAddr(f)) / 8
    ensures |pages[f].free| + 1 < ObjPerSlab(pages[f].cache) ==>
      State(PushMemory(m, f, w, SlotAddr(f, pages[f].cache, k)), pages[f := Returned(pages[f], k)], chains, live)
  {
    hide Threaded, ChainsOk, SlotOff, ObjSize, ObjPerSlab;
    var s := pages[f];
    assert m.PageAt(f, s);
    PushSlot(m.data[f], f, s.cache, m.w2[f], s.free, k);
    SlotWordFits(s.cache, k);
    w := (SlotAddr(f, s.cache, k) - FrameToAddr(f)) / 8;
    if |s.free| + 1 < ObjPerSlab(s.cache) {
      var m' := PushMemory(m, f, w, SlotAddr(f, s.cache, k));
      assert m'.PageAt(f, Returned(s, k));
      PageState(m, m', pages, chains, live, f, Returned(s, k));
    }
  }

  // Memory differs in frame f only.
  ghost predicate OnlyAt(m: Memory, m': Memory, f: nat) {
    && m.Sized() && m'.Sized()
    && forall g: nat | g < FRAME_COUNT && g != f :: m'.SameAt(m, g)
  }

  // What the buddy allocator may have done to memory while the blocks of b were in use.
  ghost predicate Undisturbed(m: Memory, m': Memory, b: Blocks) {
    && m.Sized() && m'.Sized()
    && Kept(m.w0, m'.w0, b) && Kept(m.w1, m'.w1, b)
    && m.w2 == m'.w2 && m.w5 == m'.w5 && m.data == m'.data
  }

  lemma Undisturb(m: Memory, m': Memory, b: Blocks)
    requires m.Sized() && Kept(m.w0, m'.w0, b) && Kept(m.w1, m'.w1, b)
    requires m.w2 == m'.w2 && m.w5 == m'.w5 && m.data == m'.data
    ensures Undisturbed(m, m', b)
  {
  }

  lemma UndisturbedSized(m: Memory, m': Memory, b: Blocks)
    requires Undisturbed(m, m', b)
    ensures m'.Sized()
  {
  }

  lemma UndisturbedAt(m: Memory, m': Memory, b: Blocks, f: nat)
    requires Undisturbed(m, m', b) && f in LiveOf(b) && f < FRAME_COUNT
    ensures m'.SameAt(m, f)
  {
    LiveInUse(b, f);
  }

  // The state that slab_alloc leaves when it opened page f for cache c.
  function Opened(c: nat): Slab
    requires c < CACHE_COUNT
  {
    Slab(c, Descending(ObjPerSlab(c))[1..])
  }

  lemma OpenState(m0: Memory, m1: Memory, m2: Memory, pages: Pages, chains: Lists, b: Blocks, c: nat, f: nat)
    requires State(m0, pages, chains, LiveOf(b)) && Undisturbed(m0, m1, b) && OnlyAt(m1, m2, f)
    requires c < CACHE_COUNT && f < FRAME_COUNT && f !in LiveOf(b) && m2.PageAt(f, Opened(c))
    ensures !OnSome(chains, f) && c < |chains|
    ensures State(m2, pages[f := Opened(c)], Pushed(chains, c, f), LiveOf(b)[f := Live(0, false)])
  {
    hide Threaded, HeaderOk, MagicOf, ChainsOk, OnSome, Pushed, Opened, Undisturbed, LiveOf;
    var pages', live' := pages[f := Opened(c)], LiveOf(b)[f := Live(0, false)];
    OpenChains(chains, pages, c, f);
    UndisturbedSized(m0, m1, b);
    forall h | h in LiveOf(b) && h != f ensures h < FRAME_COUNT && m2.SameAt(m0, h) {
      assert h in pages ==> h < FRAME_COUNT;
      UndisturbedAt(m0, m1, b, h);
      assert m2.SameAt(m1, h);
    }
    forall g | g in pages'
      ensures g < FRAME_COUNT && g in live' && live'[g] == Live(0, false) && m2.PageAt(g, pages'[g])
    {
      if g != f { assert m2.SameAt(m0, g) && m0.PageAt(g, pages[g]); }
    }
    forall h | h in live' && h !in pages' ensures h < FRAME_COUNT && MagicOf(m2.w0[h]) != SLAB_MAGIC {
      assert h in LiveOf(b) && m2.SameAt(m0, h);
    }
  }

  lemma OpenChains(chains: Lists, pages: Pages, c: nat, f: nat)
    requires ChainsOk(chains, pages) && c < CACHE_COUNT && f !in pages
    ensures !OnSome(chains, f) && c < |chains|
    ensures ChainsOk(Pushed(chains, c, f), pages[f := Opened(c)])
  {
    var chains' := Pushed(chains, c, f);
    forall e, g: nat | 0 <= e < CACHE_COUNT
      ensures g in chains'[e] <==> g in pages[f := Opened(c)] && pages[f := Opened(c)][g].cache == e
    {
      assert g in chains[e] <==> g in pages && pages[g].cache == e;
    }
  }

  // Memory with header and free list of the new page f written.
  function BuiltMemory(m: Memory, f: nat, c: nat, v: int, head: int, d: seq<int>): Memory
    requires f < |m.w0| && f < |m.w1| && f < |m.w2| && f < |m.w5| && f < |m.data|
  {
    Memory(m.w0[f := SLAB_MAGIC], m.w1[f := v], m.w2[f := head], m.w5[f := CachePtr(c)], m.data[f := d])
  }

  // Memory after slab_alloc has set up page f, its objects threaded in d.
  function OpenMemory(m: Memory, f: nat, c: nat, v: int, w: nat, d: seq<int>): Memory
    requires f < |m.w0| && f < |m.w1| && f < |m.w2| && f < |m.w5| && f < |m.data| && w < |d|
  {
    Memory(m.w0[f := SLAB_MAGIC + TWO32], m.w1[f := v], m.w2[f := d[w]], m.w5[f := CachePtr(c)], m.data[f := d])
  }

  lemma OpenPage(m: Memory, f: nat, c: nat, v: int, head: int, d: seq<int>) returns (w: nat)
    requires m.Sized() && f < FRAME_COUNT && c < CACHE_COUNT && v % 65536 == ObjPerSlab(c)
    requires Threaded(d, f, c, head, Descending(ObjPerSlab(c)))
    ensures head == SlotAddr(f, c, ObjPerSlab(c) - 1) && w == (head - FrameToAddr(f)) / 8 && w < |d| == FRAME_WORDS
    ensures OnlyAt(m, OpenMemory(m, f, c, v, w, d), f) && OpenMemory(m, f, c, v, w, d).PageAt(f, Opened(c))
  {
    hide Threaded, SlotOff, ObjSize, ObjPerSlab, Descending;
    var free := Descending(ObjPerSlab(c));
    PopSlot(d, f, c, head, free);
    SlotWordFits(c, free[0]);
    w := (head - FrameToAddr(f)) / 8;
    ThreadedSized(d, f, c, head, free);
    OpenHeader(c, v);
  }

  lemma ThreadedSized(d: seq<int>, f: nat, c: nat, head: int, free: seq<nat>)
    requires Threaded(d, f, c, head, free)
    ensures |d| == FRAME_WORDS
  {
  }

  lemma OpenHeader(c: nat, v: int)
    requires c < CACHE_COUNT && v % 65536 == ObjPerSlab(c)
    ensures HeaderOk(SLAB_MAGIC + TWO32, v, CachePtr(c), Opened(c))
  {
    hide ObjPerSlab;
  }

  lemma NoPages(m: Memory, chains: Lists, b: Blocks)
    requires m.Sized() && b == map[0 := Free(MAX_ORDER)]
    requires |chains| == CACHE_COUNT && forall c | 0 <= c < CACHE_COUNT :: chains[c] == []
    ensures State(m, map[], chains, LiveOf(b))
  {
  }

  function BlankFrame(): (r: seq<int>)
    ensures |r| == FRAME_WORDS
  {
    seq(FRAME_WORDS, _ => 0)
  }

  lemma NoChains(next: seq<int>, prev: seq<int>, heads: seq<int>, chains: Lists)
    requires |next| == |prev| == FRAME_COUNT && |heads| == |chains|
    requires forall c | 0 <= c < |chains| :: chains[c] == [] && heads[c] == NULL
    ensures Linked(next, prev, heads, chains)
  {
  }

  // What callers see of the two ways slab_alloc finds an object.
  lemma TakenGrows(pages: Pages, pages': Pages, live: Blocks, f: nat, k: nat)
    requires Taken(pages, pages', f, k)
    ensures Grows(pages, live, pages', live, SlotAddr(f, pages[f].cache, k), ObjSize(pages[f].cache))
  {
    var free, rest := pages[f].free, pages[f].free[1..];
    assert forall j: nat :: j in free <==> j in rest || j == k by {
      assert free == [k] + rest;
    }
    assert Others(pages', live) == Others(pages, live);
    TakeSlotGrows(pages, live, pages', live, f, k);
  }

  lemma OpenedGrows(pages: Pages, live: Blocks, c: nat, f: nat)
    requires c < CACHE_COUNT && PagesLive(pages, live) && f !in live
    ensures Grows(pages, live, pages[f := Opened(c)], live[f := Live(0, false)],
                  SlotAddr(f, c, ObjPerSlab(c) - 1), ObjSize(c))
  {
    hide ObjPerSlab, ObjSize, SlotAddr, Opened;
    var pages', live' := pages[f := Opened(c)], live[f := Live(0, false)];
    OpenedFree(c);
    assert Others(pages', live') == Others(pages, live);
    TakeSlotGrows(pages, live, pages', live', f, ObjPerSlab(c) - 1);
  }

  lemma OpenedFree(c: nat)
    requires c < CACHE_COUNT
    ensures Opened(c).cache == c && ObjPerSlab(c) >= 1
    ensures forall j: nat | j < ObjPerSlab(c) :: j in Opened(c).free <==> j != ObjPerSlab(c) - 1
  {
    var n, free := ObjPerSlab(c), Opened(c).free;
    forall j: nat | j < n ensures j in free <==> j != n - 1 {
      assert forall i | 0 <= i < |free| :: free[i] == n - 2 - i;
      if j != n - 1 { assert free[n - 2 - j] == j; }
    }
  }

  // Every page of cache c is full.
  ghost predicate AllFull(pages: Pages, c: nat) {
    forall f <- pages :: pages[f].cache == c ==> pages[f].free == []
  }

  // ---- giving an object back ----

  lemma PushedShrinks(pages: Pages, live: Blocks, f: nat, k: nat)
    requires SlotTaken(pages, f, k)
    ensures Shrinks(pages, live, pages[f := Returned(pages[f], k)], live, SlotAddr(f, pages[f].cache, k))
  {
    var s, pages' := pages[f], pages[f := Returned(pages[f], k)];
    assert forall j: nat :: j in [k] + s.free <==> j == k || j in s.free;
    assert Others(pages', live) == Others(pages, live);
    TakeSlotGrows(pages', live, pages, live, f, k);
    GrowsBackwards(pages', live, pages, live, SlotAddr(f, s.cache, k), ObjSize(s.cache));
  }

  // The last object of page f goes, and the page with it.
  lemma ClosedShrinks(pages: Pages, live: Blocks, f: nat, k: nat, m: Memory, chains: Lists)
    requires State(m, pages, chains, live) && SlotTaken(pages, f, k)
    requires |pages[f].free| + 1 == ObjPerSlab(pages[f].cache)
    ensures Shrinks(pages, live, pages - {f}, live - {f}, SlotAddr(f, pages[f].cache, k))
  {
    var s, pages', live' := pages[f], pages - {f}, live - {f};
    LastTaken(m.data[f], f, s, m.w2[f], k);
    assert Others(pages', live') == Others(pages, live);
    forall g: nat, j: nat ensures SlotTaken(pages, g, j) <==> SlotTaken(pages', g, j) || (g == f && j == k) {
    }
    TakeSlotGrows(pages', live', pages, live, f, k);
    GrowsBackwards(pages', live', pages, live, SlotAddr(f, s.cache, k), ObjSize(s.cache));
  }

  lemma LastTaken(d: seq<int>, f: nat, s: Slab, head: int, k: nat)
    requires Threaded(d, f, s.cache, head, s.free)
    requires |s.free| + 1 == ObjPerSlab(s.cache) && k < ObjPerSlab(s.cache) && k !in s.free
    ensures forall j: nat | j < ObjPerSlab(s.cache) :: j in s.free <==> j != k
  {
    var l := [k] + s.free;
    forall x | x in s.free ensures x < ObjPerSlab(s.cache) {
      var i :| 0 <= i < |s.free| && s.free[i] == x;
      assert FreeSlot(d, f, s.cache, s.free, i);
    }
    AllBelow(l, ObjPerSlab(s.cache));
    assert forall j :: j in l <==> j == k || j in s.free;
  }

  // Page f leaves the slab layer while the buddy allocator takes its frame back.
  lemma CloseState(m0: Memory, m1: Memory, m2: Memory, pages: Pages, chains: Lists, chains': Lists, live: Blocks,
                   b: Blocks, f: nat)
    requires State(m0, pages, chains, live) && OnlyAt(m0, m1, f) && Undisturbed(m1, m2, b) && f in pages
    requires LiveOf(b) == live - {f} && ChainsOk(chains', pages - {f})
    ensures State(m2, pages - {f}, chains', LiveOf(b))
  {
    forall h | h in LiveOf(b) ensures h in live && h < FRAME_COUNT && m2.SameAt(m0, h) {
      UndisturbedAt(m1, m2, b, h);
      assert m1.SameAt(m0, h);
    }
    forall g | g in pages - {f} ensures g < FRAME_COUNT && g in LiveOf(b) && m2.PageAt(g, pages[g]) {
      assert g in live - {f} && m2.SameAt(m0, g) && m0.PageAt(g, pages[g]);
    }
  }

  // Page f is number k of its cache's chain: its neighbours, and what unlinking keeps.
  lemma Unchained(next: seq<int>, prev: seq<int>, heads: seq<int>, chains: Lists, pages: Pages, c: nat, f: nat)
    returns (k: nat)
    requires |next| == |prev| == FRAME_COUNT && Linked(next, prev, heads, chains) && ChainsOk(chains, pages)
    requires f in pages && pages[f].cache == c < CACHE_COUNT
    ensures c < |chains| && k < |chains[c]| && chains[c][k] == f < FRAME_COUNT && c < |heads| && AllFrames(chains[c])
    ensures if k == 0 then prev[f] == NULL
            else prev[f] > 0 && AddrToFrame(prev[f]) == chains[c][k - 1] != f && chains[c][k - 1] < FRAME_COUNT
    ensures if k + 1 == |chains[c]| then next[f] == NULL
            else next[f] > 0 && AddrToFrame(next[f]) == chains[c][k + 1] != f && chains[c][k + 1] < FRAME_COUNT
    ensures Linked(RemoveNext(next, chains[c], k), RemovePrev(prev, chains[c], k),
                   heads[c := RemoveHead(next, heads[c], chains[c], k)], chains[c := Without(chains[c], k)])
    ensures ChainsOk(chains[c := Without(chains[c], k)], pages - {f})
    ensures OnlyLinks(next, RemoveNext(next, chains[c], k), chains)
    ensures OnlyLinks(prev, RemovePrev(prev, chains[c], k), chains)
  {
    k :| 0 <= k < |chains[c]| && chains[c][k] == f;
    assert ListAt(next, prev, heads[c], chains[c]);
    CloseChains(chains, pages, f, k);
    RemoveLinked(next, prev, heads, chains, c, k);
    Neighbours(next, prev, heads[c], chains[c], k);
  }

  lemma CloseChains(chains: Lists, pages: Pages, f: nat, k: nat)
    requires ChainsOk(chains, pages) && NoSharing(chains) && f in pages && pages[f].cache < CACHE_COUNT
    requires k < |chains[pages[f].cache]| && chains[pages[f].cache][k] == f && Distinct(chains[pages[f].cache])
    ensures ChainsOk(chains[pages[f].cache := Without(chains[pages[f].cache], k)], pages - {f})
  {
    var c := pages[f].cache;
    WithoutDistinct(chains[c], k);
    var chains' := chains[c := Without(chains[c], k)];
    forall e, g: nat | 0 <= e < CACHE_COUNT
      ensures g in chains'[e] <==> g in pages - {f} && (pages - {f})[g].cache == e
    {
      assert g in chains[e] <==> g in pages && pages[g].cache == e;
    }
  }

  lemma PtrFrame(f: nat, c: nat, k: nat)
    requires f < FRAME_COUNT && c < CACHE_COUNT && k < ObjPerSlab(c)
    ensures var ptr := SlotAddr(f, c, k);
            && HEAP_PHYS <= ptr < HEAP_PHYS + HEAP_SIZE
            && AddrToFrame(ptr) == f && ptr % FRAME_SIZE / 8 == (ptr - FrameToAddr(f)) / 8
  {
    hide ObjPerSlab, AddrToFrame, SlotOff, ObjSize;
    SlotFits(c, k);
    AddrInside(f, SlotOff(c, k));
  }

  lemma ChainList(next: seq<int>, prev: seq<int>, heads: seq<int>, chains: Lists, c: nat)
    requires Linked(next, prev, heads, chains) && c < |chains|
    ensures |next| == |prev| == FRAME_COUNT && c < |heads| && ListAt(next, prev, heads[c], chains[c])
  {
  }

  // ---- what callers keep in their objects ----

  function WordAddr(f: nat, w: nat): nat { FrameToAddr(f) + 8 * w }

  // The words of n bytes from a on.
  ghost predicate WordIn(a: nat, n: nat, f: nat, w: nat) {
    a <= WordAddr(f, w) < a + n
  }

  // Word w of frame f; words 3 and 4 are in the columns n and p.
  function WordOf(m: Memory, n: seq<int>, p: seq<int>, f: nat, w: nat): int
    requires f < |m.w0| && f < |m.w1| && f < |m.w2| && f < |m.w5| && f < |n| && f < |p| && f < |m.data|
    requires w < |m.data[f]|
  {
    if w == 0 then m.w0[f] else if w == 1 then m.w1[f] else if w == 2 then m.w2[f]
    else if w == 3 then n[f] else if w == 4 then p[f] else if w == 5 then m.w5[f] else m.data[f][w]
  }

  ghost predicate Columns(m: Memory, n: seq<int>, p: seq<int>) {
    m.Sized() && |n| == |p| == FRAME_COUNT
  }

  // No word of an allocated frame changed, but for the headers of slab pages
  // and the word at address x.
  ghost predicate Spared(b: Blocks, slabs: set<nat>, x: nat, m: Memory, n: seq<int>, p: seq<int>, m': Memory,
                         n': seq<int>, p': seq<int>)
  {
    && Columns(m, n, p) && Columns(m', n', p')
    && forall f: nat, w: nat | f < FRAME_COUNT && w < FRAME_WORDS && InUse(b, f) && !(f in slabs && w < 6)
                                && WordAddr(f, w) != x ::
         WordOf(m', n', p', f, w) == WordOf(m, n, p, f, w)
  }

  lemma PopSpares(b: Blocks, slabs: set<nat>, m: Memory, n: seq<int>, p: seq<int>, f: nat, w: nat)
    requires Columns(m, n, p) && f in slabs && f < FRAME_COUNT && w < FRAME_WORDS
    ensures Spared(b, slabs, NULL, m, n, p, PopMemory(m, f, w), n, p)
  {
    hide InUse;
  }

  lemma PushSpares(b: Blocks, slabs: set<nat>, m: Memory, n: seq<int>, p: seq<int>, f: nat, w: nat, ptr: nat)
    requires Columns(m, n, p) && f in slabs && f < FRAME_COUNT && w < FRAME_WORDS && ptr == WordAddr(f, w)
    ensures Spared(b, slabs, ptr, m, n, p, PushMemory(m, f, w, ptr), n, p)
  {
    hide InUse;
  }

  lemma UndisturbedSpares(b: Blocks, slabs: set<nat>, x: nat, m: Memory, m': Memory, n: seq<int>, p: seq<int>)
    requires Undisturbed(m, m', b) && |n| == |p| == FRAME_COUNT
    ensures Spared(b, slabs, x, m, n, p, m', n, p)
  {
    hide InUse;
  }

  // What happens in frame f does not count while f is in no live block.
  lemma ElsewhereSpares(b: Blocks, slabs: set<nat>, x: nat, m: Memory, m': Memory, n: seq<int>, p: seq<int>, f: nat)
    requires OnlyAt(m, m', f) && |n| == |p| == FRAME_COUNT && !InUse(b, f)
    ensures Spared(b, slabs, x, m, n, p, m', n, p)
  {
    hide InUse;
    forall g: nat, w: nat | g < FRAME_COUNT && w < FRAME_WORDS && g != f
      ensures WordOf(m', n, p, g, w) == WordOf(m, n, p, g, w)
    {
      assert m'.SameAt(m, g);
    }
  }

  // Chaining writes the headers of the pages that are chained, before or after.
  lemma LinksSpare(b: Blocks, slabs: set<nat>, x: nat, m: Memory, n: seq<int>, p: seq<int>, n': seq<int>, p': seq<int>,
                   chains: Lists)
    requires Columns(m, n, p) && OnlyLinks(n, n', chains) && OnlyLinks(p, p', chains)
    requires forall f: nat :: OnSome(chains, f) ==> f in slabs || !InUse(b, f)
    ensures Spared(b, slabs, x, m, n, p, m, n', p')
  {
    hide InUse, OnSome;
  }

  lemma ChainedPages(chains: Lists, pages: Pages)
    requires ChainsOk(chains, pages)
    ensures forall f: nat :: OnSome(chains, f) ==> f in pages
  {
  }

  // The frame of a new block was in no live block.
  lemma FrameWasIdle(b: Blocks, c: Blocks, f: nat)
    requires Tiled(c, MAX_ORDER) && LiveOf(c) == LiveOf(b)[f := Live(0, false)] && f !in LiveOf(b)
    ensures !InUse(b, f)
  {
    assert f in LiveOf(c);
    forall g | Covers(b, g, f) ensures b[g].Free? {
      assert b[g].Live? ==> g in LiveOf(b) && g in LiveOf(c);
      assert Apart(c, g, f);
    }
  }

  lemma OpenSpares(b: Blocks, pages: Pages, chains: Lists, c: nat, f: nat, m0: Memory, m1: Memory, m2: Memory,
                   n: seq<int>, p: seq<int>, n': seq<int>, p': seq<int>)
    requires Undisturbed(m0, m1, b) && OnlyAt(m1, m2, f) && !InUse(b, f) && |n| == |p| == FRAME_COUNT
    requires c < CACHE_COUNT && ChainsOk(chains, pages[f := Opened(c)])
    requires OnlyLinks(n, n', chains) && OnlyLinks(p, p', chains)
    ensures Spared(b, pages.Keys, NULL, m0, n, p, m2, n', p')
  {
    hide InUse, Undisturbed, OnlyAt, OnlyLinks, Opened, Spared;
    UndisturbedSpares(b, pages.Keys, NULL, m0, m1, n, p);
    ElsewhereSpares(b, pages.Keys, NULL, m1, m2, n, p, f);
    SparesThen(b, pages.Keys, NULL, m0, n, p, m1, n, p, m2, n, p);
    OnlySized(m1, m2, f);
    ChainedPages(chains, pages[f := Opened(c)]);
    LinksSpare(b, pages.Keys, NULL, m2, n, p, n', p', chains);
    SparesThen(b, pages.Keys, NULL, m0, n, p, m2, n, p, m2, n', p');
  }

  lemma FrameIsIdle(b: Blocks, c: Blocks, f: nat)
    requires Tiled(b, MAX_ORDER) && f in LiveOf(b) && LiveOf(c) == LiveOf(b) - {f}
    ensures !InUse(c, f)
  {
    forall g | Covers(c, g, f) ensures c[g].Free? {
      assert c[g].Live? ==> g in LiveOf(c) && g in LiveOf(b) && g != f;
      assert Apart(b, g, f);
    }
  }

  lemma CloseSpares(b: Blocks, pages: Pages, chains: Lists, f: nat, m0: Memory, m1: Memory, m2: Memory,
                    n: seq<int>, p: seq<int>, n': seq<int>, p': seq<int>)
    requires OnlyAt(m0, m1, f) && Undisturbed(m1, m2, b) && !InUse(b, f) && |n| == |p| == FRAME_COUNT
    requires ChainsOk(chains, pages) && OnlyLinks(n, n', chains) && OnlyLinks(p, p', chains)
    ensures Spared(b, (pages - {f}).Keys, NULL, m0, n, p, m2, n', p')
  {
    hide InUse, Undisturbed, OnlyAt, OnlyLinks, Spared;
    var keys := (pages - {f}).Keys;
    ElsewhereSpares(b, keys, NULL, m0, m1, n, p, f);
    UndisturbedSpares(b, keys, NULL, m1, m2, n, p);
    SparesThen(b, keys, NULL, m0, n, p, m1, n, p, m2, n, p);
    UndisturbedSized(m1, m2, b);
    ChainedPages(chains, pages);
    LinksSpare(b, keys, NULL, m2, n, p, n', p', chains);
    SparesThen(b, keys, NULL, m0, n, p, m2, n, p, m2, n', p');
  }

  lemma SparesMore(b: Blocks, slabs: set<nat>, x: nat, m: Memory, n: seq<int>, p: seq<int>, m': Memory, n': seq<int>,
                   p': seq<int>)
    requires Spared(b, slabs, NULL, m, n, p, m', n', p')
    ensures Spared(b, slabs, x, m, n, p, m', n', p')
  {
    hide InUse;
  }

  // The address of an object is that of its first word.
  lemma SlotWordAddr(f: nat, c: nat, k: nat, w: nat, ptr: nat)
    requires c < CACHE_COUNT && ptr == SlotAddr(f, c, k) && w == (ptr - FrameToAddr(f)) / 8
    ensures ptr == WordAddr(f, w)
  {
    hide SlotOff, FrameToAddr;
    Eights(SlotOff(c, k));
  }

  lemma Eights(x: nat)
    requires x % 16 == 0
    ensures 8 * (x / 8) == x
  {
  }

  lemma SparesThen(b: Blocks, slabs: set<nat>, x: nat, m: Memory, n: seq<int>, p: seq<int>,
                   m1: Memory, n1: seq<int>, p1: seq<int>, m2: Memory, n2: seq<int>, p2: seq<int>)
    requires Spared(b, slabs, x, m, n, p, m1, n1, p1) && Spared(b, slabs, x, m1, n1, p1, m2, n2, p2)
    ensures Spared(b, slabs, x, m, n, p, m2, n2, p2)
  {
    hide InUse, WordAddr;
  }

  // A word of an object lies in a live block and in no header.
  lemma ObjectWord(pages: Pages, b: Blocks, a: nat, n: nat, f: nat, w: nat)
    requires Tiled(b, MAX_ORDER) && PagesLive(pages, LiveOf(b)) && Granted(pages, LiveOf(b), a, n)
    requires WordIn(a, n, f, w) && w < FRAME_WORDS
    ensures InUse(b, f) && !(f in pages && w < 6) && WordAddr(f, w) > 0
  {
    hide Granted, SlotOff;
    var h := HomeBlock(pages, b, a, n);
    assert Covers(b, h, f);
    assert Apart(b, h, f) && (f in pages ==> f in LiveOf(b));
    if h in pages {
      var k: nat :| SlotTaken(pages, h, k) && a == SlotAddr(h, pages[h].cache, k) && n == ObjSize(pages[h].cache);
    }
  }

  // So every object keeps its contents.
  lemma ObjectsSpared(pages: Pages, b: Blocks, m: Memory, n: seq<int>, p: seq<int>, m': Memory, n': seq<int>,
                      p': seq<int>)
    requires Tiled(b, MAX_ORDER) && PagesLive(pages, LiveOf(b)) && Spared(b, pages.Keys, NULL, m, n, p, m', n', p')
    ensures ContentsKept(pages, LiveOf(b), NULL, m, n, p, m', n', p')
  {
    hide Granted, WordIn, InUse, WordAddr, WordOf;
    forall a: nat, len: nat, f: nat, w: nat | Granted(pages, LiveOf(b), a, len) && WordIn(a, len, f, w)
      && f < FRAME_COUNT && w < FRAME_WORDS
      ensures WordOf(m', n', p', f, w) == WordOf(m, n, p, f, w)
    {
      ObjectWord(pages, b, a, len, f, w);
    }
  }

  lemma NothingSpared(pages: Pages, live: Blocks, x: nat, m: Memory, n: seq<int>, p: seq<int>)
    requires Columns(m, n, p)
    ensures ContentsKept(pages, live, x, m, n, p, m, n, p)
  {
    hide Granted, WordIn, WordOf;
  }

  lemma SlotGranted(pages: Pages, live: Blocks, f: nat, k: nat)
    requires SlotTaken(pages, f, k)
    ensures Granted(pages, live, SlotAddr(f, pages[f].cache, k), ObjSize(pages[f].cache))
  {
  }

  lemma BlockGranted(pages: Pages, live: Blocks, h: nat)
    requires h in live && h !in pages
    ensures Granted(pages, live, FrameToAddr(h), FRAME_SIZE * Pow2(live[h].order))
  {
    assert BigAt(pages, live, h, FrameToAddr(h), FRAME_SIZE * Pow2(live[h].order));
  }

  // The words of all objects but the one at address x are the same.
  ghost predicate ContentsKept(pages: Pages, live: Blocks, x: nat, m: Memory, n: seq<int>, p: seq<int>, m': Memory,
                               n': seq<int>, p': seq<int>)
  {
    && Columns(m, n, p) && Columns(m', n', p')
    && forall a: nat, len: nat, f: nat, w: nat |
         a != x && Granted(pages, live, a, len) && WordIn(a, len, f, w) && f < FRAME_COUNT && w < FRAME_WORDS ::
         WordOf(m', n', p', f, w) == WordOf(m, n, p, f, w)
  }

  // After giving back the object at ptr all others have their contents.
  lemma OthersSpared(pages: Pages, b: Blocks, pages': Pages, b': Blocks, ptr: nat, size: nat,
                     m: Memory, n: seq<int>, p: seq<int>, m': Memory, n': seq<int>, p': seq<int>)
    requires Tiled(b, MAX_ORDER) && PagesLive(pages, LiveOf(b)) && Tiled(b', MAX_ORDER) && PagesLive(pages', LiveOf(b'))
    requires Granted(pages, LiveOf(b), ptr, size) && size > 0
    requires Shrinks(pages, LiveOf(b), pages', LiveOf(b'), ptr) && Spared(b', pages'.Keys, ptr, m, n, p, m', n', p')
    ensures ContentsKept(pages, LiveOf(b), ptr, m, n, p, m', n', p')
  {
    hide Granted, InUse, WordOf;
    forall a: nat, len: nat, f: nat, w: nat |
      a != ptr && Granted(pages, LiveOf(b), a, len) && WordIn(a, len, f, w) && f < FRAME_COUNT && w < FRAME_WORDS
      ensures WordOf(m', n', p', f, w) == WordOf(m, n, p, f, w)
    {
      assert Granted(pages', LiveOf(b'), a, len);
      ObjectWord(pages', b', a, len, f, w);
      GrantedDisjoint(pages, b, a, len, ptr, size);
    }
  }

  class Allocator {
    const heap: Heap
    const w2: array<int>
    const slabNext: array<int>
    const slabPrev: array<int>
    const w5: array<int>
    const data: array<seq<int>>
    const slabs: array<int>
    ghost var pages: Pages
    ghost var chains: Lists

    ghost function Repr(): set<object> {
      {this, heap, heap.next, heap.prev, heap.tags, heap.area, w2, slabNext, slabPrev, w5, data, slabs}
    }

    ghost predicate Shape() {
      && w2.Length == slabNext.Length == slabPrev.Length == w5.Length == data.Length == FRAME_COUNT
      && slabs.Length == CACHE_COUNT
      && {w2, slabNext, slabPrev, w5, slabs} !! {heap.next, heap.prev, heap.area}
      && w2 != slabNext && w2 != slabPrev && w2 != w5 && w2 != slabs
      && slabNext != slabPrev && slabNext != w5 && slabNext != slabs
      && slabPrev != w5 && slabPrev != slabs && w5 != slabs
    }

    ghost function Mem(): Memory
      reads heap.next, heap.prev, w2, w5, data
    {
      Memory(heap.next[..], heap.prev[..], w2[..], w5[..], data[..])
    }

    ghost predicate Valid()
      reads Repr()
    {
      && Shape() && heap.Valid()
      && State(Mem(), pages, chains, heap.LiveBlocks())
      && Linked(slabNext[..], slabPrev[..], slabs[..], chains)
    }

    // Since then no word of an allocated frame changed, but for the headers of
    // slab pages and the word at address x.
    twostate predicate SparedSince(b: Blocks, slabs: set<nat>, x: nat)
      reads heap.next, heap.prev, w2, w5, data, slabNext, slabPrev
    {
      Spared(b, slabs, x, old(Mem()), old(slabNext[..]), old(slabPrev[..]), Mem(), slabNext[..], slabPrev[..])
    }

    // Since then all objects of that time but the one at x kept their contents.
    twostate predicate ContentsSince(x: nat)
      reads heap.next, heap.prev, w2, w5, data, slabNext, slabPrev
    {
      ContentsKept(old(pages), old(heap.LiveBlocks()), x, old(Mem()), old(slabNext[..]), old(slabPrev[..]), Mem(),
                   slabNext[..], slabPrev[..])
    }

    // The n bytes at address a have been handed out and not given back.
    ghost predicate Holds(a: nat, n: nat)
      reads this, heap
    {
      Granted(pages, heap.LiveBlocks(), a, n)
    }

    static method NoSlabs() returns (c: array<int>)
      ensures fresh(c) && c.Length == CACHE_COUNT && forall j | 0 <= j < CACHE_COUNT :: c[j] == NULL
    {
      c := new int[CACHE_COUNT];
      var i := 0;
      while i < CACHE_COUNT
        invariant 0 <= i <= CACHE_COUNT
        invariant forall j | 0 <= j < i :: c[j] == NULL
      {
        c[i] := NULL;
        i := i + 1;
      }
    }

    // memory_init: an empty heap and eight caches without pages.
    constructor ()
      ensures Valid() && pages == map[] && heap.blocks == map[0 := Free(MAX_ORDER)]
      ensures fresh(heap) && fresh(heap.next) && fresh(heap.prev) && fresh(heap.tags) && fresh(heap.area)
      ensures fresh(w2) && fresh(slabNext) && fresh(slabPrev) && fresh(w5) && fresh(data) && fresh(slabs)
    {
      hide Linked, State, Heap.Valid, LiveOf, BlankFrame, Heap.Almost, Canonical, Tiled, Coalesced, CoalescedExcept,
           TagsOk, Listed;
      var c := NoSlabs();
      heap := new Heap();
      w2, slabNext, slabPrev, w5 := new int[FRAME_COUNT], new int[FRAME_COUNT],
                                    new int[FRAME_COUNT], new int[FRAME_COUNT];
      data := new seq<int>[FRAME_COUNT](_ => BlankFrame());
      slabs := c;
      pages, chains := map[], seq(CACHE_COUNT, _ => []);
      new;
      heap.Sizes();
      NoPages(Mem(), chains, heap.blocks);
      NoChains(slabNext[..], slabPrev[..], slabs[..], chains);
    }

    // s->freelist is not empty: take its first object.
    method TakeFree(f: nat) returns (obj: nat, ghost k: nat)
      requires Valid() && f in pages && pages[f].free != []
      modifies `pages, w2, heap.next, heap.prev
      ensures Valid()
      ensures Taken(old(pages), pages, f, k) && obj == SlotAddr(f, pages[f].cache, k)
      ensures SparedSince(old(heap.blocks), old(pages).Keys, NULL)
    {
      hide Linked, State, Taken, SlotAddr, Heap.Valid, Spared;
      ghost var m, w := Mem(), 0;
      StateParts(m, pages, chains, heap.LiveBlocks());
      w := PopState(m, pages, chains, heap.LiveBlocks(), f);
      k := pages[f].free[0];
      obj := w2[f];
      w2[f] := data[f][(obj - FrameToAddr(f)) / 8];
      LiveInUse(heap.blocks, f);
      heap.Store(f, false, heap.next[f] + TWO32);
      pages := pages[f := Popped(pages[f])];
      assert Mem() == PopMemory(m, f, w);
      PopSpares(heap.blocks, old(pages).Keys, m, slabNext[..], slabPrev[..], f, w);
    }

    // The loop that threads the objects of a new page, last object first.
    method BuildFreeList(f: nat, c: nat) returns (head: nat, count: nat)
      requires data.Length == FRAME_COUNT && f < FRAME_COUNT && |data[f]| == FRAME_WORDS && c < CACHE_COUNT
      modifies data
      ensures data[..] == old(data[..])[f := data[f]]
      ensures count == ObjPerSlab(c) && Threaded(data[f], f, c, head, Descending(count))
    {
      head, count := NULL, 0;
      var off := HEADER_SIZE;
      SlotFits(c, 0);
      while off + ObjSize(c) <= FRAME_SIZE
        invariant off == SlotOff(c, count) && count <= ObjPerSlab(c)
        invariant data[..] == old(data[..])[f := data[f]]
        invariant Threaded(data[f], f, c, head, Descending(count))
        decreases ObjPerSlab(c) - count
      {
        SlotFits(c, count);
        SlotWordFits(c, count);
        PushSlot(data[f], f, c, head, Descending(count), count);
        data[f] := data[f][off / 8 := head];
        head := FrameToAddr(f) + off;
        off := off + ObjSize(c);
        count := count + 1;
      }
      SlotFits(c, count);
    }

    // magic, in_use, total and cache of a new page in frame f.
    method WriteHeader(f: nat, c: nat) returns (ghost v: int)
      requires Shape() && heap.Valid() && Mem().Sized() && InUse(heap.blocks, f) && f < FRAME_COUNT && c < CACHE_COUNT
      modifies heap.next, heap.prev, w5
      ensures heap.Valid()
      ensures Mem() == old(Mem()).(w0 := old(Mem()).w0[f := SLAB_MAGIC], w1 := old(Mem()).w1[f := v],
                                   w5 := old(Mem()).w5[f := CachePtr(c)])
    {
      hide Heap.Valid, ObjPerSlab, LiveOf, InUse;
      ghost var m := Mem();
      v := SetLow16(heap.prev[f], ObjPerSlab(c));
      heap.Store(f, false, SLAB_MAGIC);
      heap.Store(f, true, SetLow16(heap.prev[f], ObjPerSlab(c)));
      w5[f] := CachePtr(c);
      assert Mem() == m.(w0 := m.w0[f := SLAB_MAGIC], w1 := m.w1[f := v], w5 := m.w5[f := CachePtr(c)]);
    }

    // Header and free list of a new page in frame f.
    method BuildPage(f: nat, c: nat) returns (ghost v: int)
      requires Shape() && heap.Valid() && Mem().Sized() && InUse(heap.blocks, f) && f < FRAME_COUNT && c < CACHE_COUNT
      modifies heap.next, heap.prev, w2, w5, data
      ensures heap.Valid() && v % 65536 == ObjPerSlab(c)
      ensures Threaded(data[f], f, c, w2[f], Descending(ObjPerSlab(c)))
      ensures Mem() == BuiltMemory(old(Mem()), f, c, v, w2[f], data[f])
    {
      hide Heap.Valid, Threaded, ObjPerSlab, LiveOf, InUse;
      ghost var m := Mem();
      v := WriteHeader(f, c);
      var head, count := BuildFreeList(f, c);
      w2[f] := head;
      v := SetLow16(heap.prev[f], count);
      heap.Store(f, true, SetLow16(heap.prev[f], count));
      assert Mem() == BuiltMemory(m, f, c, v, head, data[f]);
    }

    // A new page in frame f with its first object handed out.
    method InitPage(f: nat, c: nat) returns (obj: nat)
      requires Shape() && heap.Valid() && Mem().Sized() && InUse(heap.blocks, f) && f < FRAME_COUNT && c < CACHE_COUNT
      modifies heap.next, heap.prev, w2, w5, data
      ensures heap.Valid()
      ensures OnlyAt(old(Mem()), Mem(), f) && Mem().PageAt(f, Opened(c))
      ensures obj == SlotAddr(f, c, ObjPerSlab(c) - 1)
    {
      hide Heap.Valid, Threaded, OnlyAt, ObjPerSlab, Memory.PageAt, SlotAddr, LiveOf, InUse;
      heap.Sizes();
      ghost var m := Mem();
      ghost var v := BuildPage(f, c);
      ghost var w := OpenPage(m, f, c, v, w2[f], data[f]);
      obj := w2[f];
      w2[f] := data[f][(obj - FrameToAddr(f)) / 8];
      heap.Store(f, false, SLAB_MAGIC + TWO32);
      assert Mem() == OpenMemory(m, f, c, v, w, data[f]);
    }

    // Link page f in front of the pages of cache c.
    method ChainPage(c: nat, f: nat)
      requires Shape() && Linked(slabNext[..], slabPrev[..], slabs[..], chains) && |chains| == CACHE_COUNT
      requires c < CACHE_COUNT && f < FRAME_COUNT && !OnSome(chains, f)
      modifies slabNext, slabPrev, slabs, `chains
      ensures chains == Pushed(old(chains), c, f)
      ensures Linked(slabNext[..], slabPrev[..], slabs[..], chains)
      ensures OnlyLinks(old(slabNext[..]), slabNext[..], chains) && OnlyLinks(old(slabPrev[..]), slabPrev[..], chains)
    {
      AddLinked(slabNext[..], slabPrev[..], slabs[..], chains, c, f);
      ghost var next', prev' := AddNext(slabNext[..], slabs[c], f), AddPrev(slabPrev[..], chains[c], f);
      if chains[c] != [] { FirstIsFrame(slabNext[..], slabPrev[..], slabs[..], chains, c); }
      assert ListAt(slabNext[..], slabPrev[..], slabs[c], chains[c]);
      slabNext[f] := slabs[c];
      slabPrev[f] := NULL;
      if slabs[c] != NULL {
        slabPrev[AddrToFrame(slabs[c])] := FrameToAddr(f);
      }
      slabs[c] := FrameToAddr(f);
      assert slabNext[..] == next' && slabPrev[..] == prev';
      chains := Pushed(chains, c, f);
    }

    // The part of slab_alloc after the search: open a new page for cache c.
    method OpenNewPage(c: nat) returns (obj: nat, ghost f: nat)
      requires Valid() && c < CACHE_COUNT
      modifies Repr()
      ensures Valid()
      ensures obj == NULL <==> !HasRun(old(heap.blocks), MAX_ORDER, 0)
      ensures obj == NULL ==> pages == old(pages) && heap.blocks == old(heap.blocks)
      ensures obj != NULL ==> f !in old(heap.LiveBlocks()) && pages == old(pages)[f := Opened(c)]
      ensures obj != NULL ==> heap.LiveBlocks() == old(heap.LiveBlocks())[f := Live(0, false)]
      ensures obj != NULL ==> obj == SlotAddr(f, c, ObjPerSlab(c) - 1)
      ensures SparedSince(old(heap.blocks), old(pages).Keys, NULL)
    {
      hide Heap.Valid, State, Linked, Memory.PageAt, OnlyAt, Threaded, InUse, Kept, Undisturbed, HasRun, ObjPerSlab,
           Spared, OnlyLinks, ChainsOk, Opened, Tiled;
      ghost var b, m0 := heap.blocks, Mem();
      ghost var n0, p0 := slabNext[..], slabPrev[..];
      heap.Sizes();
      StateParts(m0, pages, chains, heap.LiveBlocks());
      var page, h := heap.BuddyAlloc(0, false);
      Undisturb(m0, Mem(), b);
      if page == NULL {
        KeepState(m0, Mem(), pages, chains, b);
        UndisturbedSpares(b, pages.Keys, NULL, m0, Mem(), n0, p0);
        return NULL, 0;
      }
      f := h;
      AddrRoundTrip(f);
      var frame := AddrToFrame(page);
      ServedIncludes(b, heap.blocks, f, Live(0, false));
      LiveInUse(heap.blocks, f);
      ghost var m1 := Mem();
      UndisturbedSized(m0, m1, b);
      obj := InitPage(frame, c);
      OpenState(m0, m1, Mem(), pages, chains, b, c, f);
      ChainPage(c, frame);
      heap.Sizes();
      FrameWasIdle(b, heap.blocks, f);
      StateParts(Mem(), pages[f := Opened(c)], chains, LiveOf(b)[f := Live(0, false)]);
      OpenSpares(b, pages, chains, c, f, m0, m1, Mem(), n0, p0, slabNext[..], slabPrev[..]);
      pages := pages[f := Opened(c)];
    }

    // slab_alloc
    method SlabAlloc(c: nat) returns (obj: nat)
      requires Valid() && c < CACHE_COUNT
      modifies Repr()
      ensures Valid()
      ensures obj == NULL <==> AllFull(old(pages), c) && !HasRun(old(heap.blocks), MAX_ORDER, 0)
      ensures obj == NULL ==> pages == old(pages) && heap.blocks == old(heap.blocks)
      ensures obj != NULL ==> Grows(old(pages), old(heap.LiveBlocks()), pages, heap.LiveBlocks(), obj, ObjSize(c))
      ensures SparedSince(old(heap.blocks), old(pages).Keys, NULL)
    {
      hide Heap.Valid, Grows, HasRun, State, Taken, Spared;
      StateParts(Mem(), pages, chains, heap.LiveBlocks());
      var f := FindFree(c);
      if f >= 0 {
        ghost var k;
        obj, k := TakeFree(f);
        TakenGrows(old(pages), pages, heap.LiveBlocks(), f, k);
        TakenFrom(old(pages), pages, f, k);
      } else {
        ghost var g;
        obj, g := OpenNewPage(c);
        if obj != NULL { OpenedGrows(old(pages), old(heap.LiveBlocks()), c, g); }
      }
    }

    // The search of slab_alloc: the first page of cache c with a free object, or -1.
    method FindFree(c: nat) returns (found: int)
      requires Valid() && c < CACHE_COUNT
      ensures found >= 0 ==> found in pages && pages[found].cache == c && pages[found].free != []
      ensures found < 0 ==> AllFull(pages, c)
    {
      hide Heap.Valid, Linked, State, InUse;
      heap.Sizes();
      ChainWhole(Mem(), pages, chains, heap.LiveBlocks(), c);
      ghost var l := chains[c];
      ChainList(slabNext[..], slabPrev[..], slabs[..], chains, c);
      found := -1;
      var s := slabs[c];
      ghost var i := 0;
      while s != NULL
        invariant 0 <= i <= |l| && s == LinkTo(l, i)
        invariant forall j | 0 <= j < i :: pages[l[j]].free == []
        decreases |l| - i
      {
        assert NodeAt(slabNext[..], slabPrev[..], l, i) && l[i] in l;
        var f := AddrToFrame(s);
        AddrRoundTrip(l[i]);
        HeadTells(Mem(), pages, chains, heap.LiveBlocks(), c, f);
        if w2[f] != NULL { return f; }
        s := slabNext[f];
        i := i + 1;
      }
    }

    // Unlink page f from the pages of its cache c.
    method UnchainPage(c: nat, f: nat)
      requires Shape() && Linked(slabNext[..], slabPrev[..], slabs[..], chains) && ChainsOk(chains, pages)
      requires f in pages && pages[f].cache == c < CACHE_COUNT
      modifies slabNext, slabPrev, slabs, `chains
      ensures Linked(slabNext[..], slabPrev[..], slabs[..], chains) && ChainsOk(chains, pages - {f})
      ensures OnlyLinks(old(slabNext[..]), slabNext[..], old(chains))
      ensures OnlyLinks(old(slabPrev[..]), slabPrev[..], old(chains))
    {
      hide Linked, ChainsOk, OnlyLinks, Distinct, Without, AllFrames;
      ghost var k := Unchained(slabNext[..], slabPrev[..], slabs[..], chains, pages, c, f);
      ghost var l := chains[c];
      ghost var next', prev' := RemoveNext(slabNext[..], l, k), RemovePrev(slabPrev[..], l, k);
      ghost var slabs' := slabs[..][c := RemoveHead(slabNext[..], slabs[c], l, k)];
      if slabNext[f] != NULL {
        slabPrev[AddrToFrame(slabNext[f])] := slabPrev[f];
      }
      if slabPrev[f] != NULL {
        slabNext[AddrToFrame(slabPrev[f])] := slabNext[f];
      } else {
        slabs[c] := slabNext[f];
      }
      assert slabNext[..] == next' && slabPrev[..] == prev' && slabs[..] == slabs';
      chains := chains[c := Without(l, k)];
    }

    // slab_free of object k of page f.
    method SlabFree(ptr: nat, ghost f: nat, ghost k: nat)
      requires Valid() && SlotTaken(pages, f, k) && ptr == SlotAddr(f, pages[f].cache, k)
      modifies Repr()
      ensures Valid()
      ensures Shrinks(old(pages), old(heap.LiveBlocks()), pages, heap.LiveBlocks(), ptr)
      ensures SparedSince(heap.blocks, pages.Keys, ptr)
    {
      hide Heap.Valid, State, Linked, Shrinks, Undisturbed, Kept, InUse, SlotAddr, SlotTaken, Spared, MagicOf, OnlyAt,
           ChainsOk, LiveOf;
      ghost var m := Mem();
      StateParts(m, pages, chains, heap.LiveBlocks());
      TakenFacts(m, pages, chains, heap.LiveBlocks(), f, k);
      ghost var s := pages[f];
      ghost var w := PushState(m, pages, chains, heap.LiveBlocks(), f, k);
      var page := AddrToFrame(ptr);
      if MagicOf(heap.next[page]) != SLAB_MAGIC { return; }
      data[page] := data[page][ptr % FRAME_SIZE / 8 := w2[page]];
      w2[page] := ptr;
      LiveInUse(heap.blocks, f);
      heap.Store(page, false, heap.next[page] - TWO32);
      assert Mem() == PushMemory(m, f, w, ptr);
      if heap.next[page] / TWO32 == 0 {
        ClosedShrinks(pages, heap.LiveBlocks(), f, k, m, chains);
        ClosePage(page, w5[page] - 1, m);
        SparesMore(heap.blocks, pages.Keys, ptr, m, old(slabNext[..]), old(slabPrev[..]), Mem(), slabNext[..],
                   slabPrev[..]);
      } else {
        PushedShrinks(pages, heap.LiveBlocks(), f, k);
        SlotWordAddr(f, s.cache, k, w, ptr);
        PushSpares(heap.blocks, pages.Keys, m, slabNext[..], slabPrev[..], f, w, ptr);
        pages := pages[f := Returned(s, k)];
        assert pages.Keys == old(pages).Keys;
      }
    }

    // The page in frame f is empty: unlink it and give it back.
    method ClosePage(f: nat, c: nat, ghost m: Memory)
      requires Shape() && heap.Valid() && f in pages && pages[f].cache == c && c < CACHE_COUNT
      requires State(m, pages, chains, heap.LiveBlocks()) && OnlyAt(m, Mem(), f)
      requires Linked(slabNext[..], slabPrev[..], slabs[..], chains)
      modifies Repr()
      ensures Valid()
      ensures pages == old(pages) - {f} && heap.LiveBlocks() == old(heap.LiveBlocks()) - {f}
      ensures Spared(heap.blocks, pages.Keys, NULL, m, old(slabNext[..]), old(slabPrev[..]), Mem(), slabNext[..],
                     slabPrev[..])
    {
      hide Heap.Valid, State, Linked, Undisturbed, Kept, InUse, OnlyAt, Spared, OnlyLinks, ChainsOk, Tiled;
      ghost var n0, p0, b := slabNext[..], slabPrev[..], heap.blocks;
      heap.Sizes();
      StateParts(m, pages, chains, heap.LiveBlocks());
      ghost var m1, live := Mem(), heap.LiveBlocks();
      ghost var chains0 := chains;
      UnchainPage(c, f);
      AddrRoundTrip(f);
      heap.BuddyFree(FrameToAddr(f), 0);
      OnlySized(m, m1, f);
      Undisturb(m1, Mem(), heap.blocks);
      CloseState(m, m1, Mem(), pages, chains0, chains, live, heap.blocks, f);
      FrameIsIdle(b, heap.blocks, f);
      CloseSpares(heap.blocks, pages, chains0, f, m, m1, Mem(), n0, p0, slabNext[..], slabPrev[..]);
      pages := pages - {f};
    }

    // buddy_alloc on behalf of kmalloc: a block that is no slab page.
    method AllocBlock(order: int) returns (r: nat)
      requires Valid()
      modifies Repr()
      ensures Valid()
      ensures r == NULL <==> order < 0 || order > MAX_ORDER || !HasRun(old(heap.blocks), MAX_ORDER, order)
      ensures r == NULL ==> pages == old(pages) && heap.blocks == old(heap.blocks)
      ensures r != NULL ==>
        Grows(old(pages), old(heap.LiveBlocks()), pages, heap.LiveBlocks(), r, FRAME_SIZE * Pow2(order))
      ensures r != NULL ==> !UserAt(heap.LiveBlocks(), r)
      ensures SparedSince(old(heap.blocks), old(pages).Keys, NULL)
    {
      hide Heap.Valid, State, Linked, Undisturbed, Kept, HasRun, Grows, Spared;
      ghost var m, b := Mem(), heap.blocks;
      StateParts(m, pages, chains, heap.LiveBlocks());
      ghost var h;
      r, h := heap.BuddyAlloc(order, false);
      Undisturb(m, Mem(), b);
      UndisturbedSpares(b, pages.Keys, NULL, m, Mem(), slabNext[..], slabPrev[..]);
      if r == NULL {
        KeepState(m, Mem(), pages, chains, b);
      } else {
        LinkIsNotMagic(heap.next[h]);
        JoinState(m, Mem(), pages, chains, b, h, Live(order, false));
        BigGrows(pages, LiveOf(b), h, Live(order, false));
        NewKernelBlock(LiveOf(b), h, order);
      }
    }

    // kmalloc. The ghost result n is the size of the object that r points to.
    method Kmalloc(size: nat) returns (r: nat, ghost n: nat)
      requires Valid() && size < TWO64
      modifies Repr()
      ensures Valid()
      ensures r == NULL <==> size == 0 || !CanServe(old(pages), old(heap.blocks), size)
      ensures r == NULL ==> pages == old(pages) && heap.blocks == old(heap.blocks)
      ensures r != NULL ==> Grows(old(pages), old(heap.LiveBlocks()), pages, heap.LiveBlocks(), r, n)
      ensures r != NULL ==> SizeFor(size, n) && Holds(r, n)
      // It is not one that munmap_all_user takes.
      ensures r != NULL ==> !UserAt(heap.LiveBlocks(), r)
      // The object holds the request, unless rounding it up to pages overflows.
      ensures r != NULL ==> (n >= size <==> size + FRAME_SIZE - 1 < TWO64)
      // What callers keep in their objects is untouched.
      ensures ContentsSince(NULL)
    {
      hide Heap.Valid, State, Linked, HasRun, Grows, AllFull, Granted, SizeFor, Spared, ContentsKept, Tiled;
      heap.Sizes();
      StateParts(Mem(), pages, chains, heap.LiveBlocks());
      r, n := NULL, 0;
      NothingSpared(pages, heap.LiveBlocks(), NULL, Mem(), slabNext[..], slabPrev[..]);
      hide UserAt;
      if size == 0 { return; }
      var want := if size < 16 then 16 else size;
      if want >= 2048 {
        var order := OrderFor(PagesFor(want));
        RoundUp(want, order);
        ServesBig(pages, heap.blocks, want, order);
        r := AllocBlock(order);
        ObjectsSpared(old(pages), old(heap.blocks), old(Mem()), old(slabNext[..]), old(slabPrev[..]), Mem(),
                      slabNext[..], slabPrev[..]);
        n := FRAME_SIZE * Pow2(order);
        if r != NULL {
          SizeIs(size, order, n);
          GrowsHolds(old(pages), old(heap.LiveBlocks()), pages, heap.LiveBlocks(), r, n);
        }
        return;
      }
      var c := 0;
      while c < CACHE_COUNT
        invariant 0 <= c < CACHE_COUNT && forall e | 0 <= e < c :: ObjSize(e) < want
        decreases CACHE_COUNT - c
      {
        if ObjSize(c) >= want {
          LeastCache(want, c);
          r := SlabAlloc(c);
          ObjectsSpared(old(pages), old(heap.blocks), old(Mem()), old(slabNext[..]), old(slabPrev[..]), Mem(),
                        slabNext[..], slabPrev[..]);
          n := ObjSize(c);
          SizeIs(size, 0, n);
          if r != NULL {
            GrowsHolds(old(pages), old(heap.LiveBlocks()), pages, heap.LiveBlocks(), r, n);
            SmallNoUser(pages, heap.LiveBlocks(), r, n);
          }
          return;
        }
        c := c + 1;
      }
      assert false;
    }

    // kfree. A pointer into a page that begins with the slab magic must be an
    // allocated object; any other address is freed if a live block begins there.
    method Kfree(ptr: nat)
      requires Valid() && ptr < TWO64
      requires InHeap(ptr) && MagicOf(heap.next[AddrToFrame(ptr)]) == SLAB_MAGIC ==> exists n: nat ::
        SmallObj(pages, ptr, n)
      modifies Repr()
      ensures Valid()
      ensures Shrinks(old(pages), old(heap.LiveBlocks()), pages, heap.LiveBlocks(), ptr)
      // What callers keep in their other objects is untouched.
      ensures ContentsSince(ptr)
    {
      hide Heap.Valid, State, Linked, Undisturbed, Kept, Shrinks, SmallObj, InUse, SlotAddr, Spared, ContentsKept,
           Granted, Tiled;
      heap.Sizes();
      StateParts(Mem(), pages, chains, heap.LiveBlocks());
      NothingSpared(pages, heap.LiveBlocks(), ptr, Mem(), slabNext[..], slabPrev[..]);
      if !InHeap(ptr) {
        NotGranted(Mem(), pages, chains, heap.LiveBlocks(), ptr);
        return;
      }
      var idx := AddrToFrame(ptr);
      ghost var b, pages0 := heap.blocks, pages;
      if MagicOf(heap.next[idx]) == SLAB_MAGIC {
        ghost var f, k := SlotOf(pages, ptr);
        SlotGranted(pages, LiveOf(b), f, k);
        SlabFree(ptr, f, k);
        heap.Sizes();
        StateParts(Mem(), pages, chains, heap.LiveBlocks());
        OthersSpared(pages0, b, pages, heap.blocks, ptr, ObjSize(pages0[f].cache), old(Mem()), old(slabNext[..]),
                     old(slabPrev[..]),
                     Mem(), slabNext[..], slabPrev[..]);
        return;
      }
      NotGranted(Mem(), pages, chains, heap.LiveBlocks(), ptr);
      if ptr % FRAME_SIZE != 0 { return; }
      heap.TagAt(idx);
      if !heap.tags[idx].alloc { return; }
      BlockGranted(pages, LiveOf(b), idx);
      FreeBlock(ptr, idx, heap.tags[idx].order);
      heap.Sizes();
      StateParts(Mem(), pages, chains, heap.LiveBlocks());
      OthersSpared(pages0, b, pages, heap.blocks, ptr, FRAME_SIZE * Pow2(LiveOf(b)[idx].order), old(Mem()),
                   old(slabNext[..]), old(slabPrev[..]),
                   Mem(), slabNext[..], slabPrev[..]);
    }

    // buddy_free of a live block that is no slab page.
    method FreeBlock(ptr: nat, idx: nat, order: nat)
      requires Valid() && idx in heap.LiveBlocks() && order == heap.LiveBlocks()[idx].order <= MAX_ORDER
      requires IsFrameAddr(ptr) && ptr == FrameToAddr(idx) && AddrToFrame(ptr) == idx && idx !in pages
      modifies Repr()
      ensures Valid()
      ensures Shrinks(old(pages), old(heap.LiveBlocks()), pages, heap.LiveBlocks(), ptr)
      ensures SparedSince(heap.blocks, pages.Keys, ptr)
    {
      hide Heap.Valid, State, Linked, Undisturbed, Kept, Shrinks, Spared;
      ghost var m, live := Mem(), heap.LiveBlocks();
      StateParts(m, pages, chains, live);
      heap.BuddyFree(ptr, order);
      Undisturb(m, Mem(), heap.blocks);
      UndisturbedSpares(heap.blocks, pages.Keys, ptr, m, Mem(), slabNext[..], slabPrev[..]);
      LeaveState(m, Mem(), pages, chains, live, heap.blocks, idx);
      BigShrinks(pages, live, idx);
    }

    // Word w of frame f.
    ghost function Word(f: nat, w: nat): int
      requires Valid() && f < FRAME_COUNT && w < FRAME_WORDS
      reads Repr()
    {
      StateParts(Mem(), pages, chains, heap.LiveBlocks());
      WordOf(Mem(), slabNext[..], slabPrev[..], f, w)
    }

    // A caller stores v in word w of frame f, which lies in its object of n
    // bytes at a. Callers of large blocks do not begin them with the slab magic.
    method ClientStore(f: nat, w: nat, v: int, ghost a: nat, ghost n: nat)
      requires Valid() && f < FRAME_COUNT && w < FRAME_WORDS && Holds(a, n)
      requires a <= FrameToAddr(f) + 8 * w && FrameToAddr(f) + 8 * w + 8 <= a + n
      requires FrameToAddr(f) + 8 * w == a && w == 0 ==> MagicOf(v) != SLAB_MAGIC
      modifies Repr()
      ensures Valid() && pages == old(pages) && heap.blocks == old(heap.blocks)
      ensures WordStored(old(Mem()), old(slabNext[..]), old(slabPrev[..]), Mem(), slabNext[..], slabPrev[..], f, w, v)
    {
      hide Heap.Valid, State, Linked, Granted, InUse;
      ghost var m := Mem();
      StateParts(m, pages, chains, heap.LiveBlocks());
      heap.Sizes();
      InsideObject(m, pages, chains, heap.blocks, f, w, v, a, n);
      if w == 0 {
        heap.Store(f, false, v);
        assert Mem() == m.(w0 := m.w0[f := v]);
      } else if w == 1 {
        heap.Store(f, true, v);
        assert Mem() == m.(w1 := m.w1[f := v]);
      } else if w == 2 {
        w2[f] := v;
        assert Mem() == m.(w2 := m.w2[f := v]);
      } else if w == 3 {
        StoreElsewhere(slabNext[..], slabPrev[..], slabs[..], chains, f, v);
        slabNext[f] := v;
        assert slabNext[..] == old(slabNext[..])[f := v] && Mem() == m;
      } else if w == 4 {
        StoreElsewhere(slabNext[..], slabPrev[..], slabs[..], chains, f, v);
        slabPrev[f] := v;
        assert slabPrev[..] == old(slabPrev[..])[f := v] && Mem() == m;
      } else if w == 5 {
        w5[f] := v;
        assert Mem() == m.(w5 := m.w5[f := v]);
      } else {
        data[f] := data[f][w := v];
        assert Mem() == m.(data := m.data[f := m.data[f][w := v]]);
      }
    }

    // mmap_user on the shared heap: the new user block is an object like others.
    method MmapUser(length: nat) returns (r: nat, ghost n: nat)
      requires Valid() && length < TWO64
      modifies Repr()
      ensures Valid() && pages == old(pages)
      ensures r == NULL <==> !CanMap(old(heap.blocks), length)
      ensures r == NULL ==> heap.blocks == old(heap.blocks)
      ensures r != NULL ==> Grows(old(pages), old(heap.LiveBlocks()), pages, heap.LiveBlocks(), r, n)
      ensures r != NULL ==> UserAt(heap.LiveBlocks(), r)
      ensures r != NULL ==> (n >= length <==> length + FRAME_SIZE - 1 < TWO64)
      ensures ContentsSince(NULL)
    {
      hide Heap.Valid, State, Linked, Undisturbed, Kept, HasRun, Grows, Spared, ContentsKept, Tiled, IsOrderFor;
      ghost var m, b := Mem(), heap.blocks;
      heap.Sizes();
      StateParts(m, pages, chains, heap.LiveBlocks());
      ghost var h, order;
      r, h, order := heap.MmapUser(length);
      n := FRAME_SIZE * Pow2(order);
      MapsIff(b, length, order);
      Undisturb(m, Mem(), b);
      UndisturbedSpares(b, pages.Keys, NULL, m, Mem(), slabNext[..], slabPrev[..]);
      ObjectsSpared(pages, b, m, slabNext[..], slabPrev[..], Mem(), slabNext[..], slabPrev[..]);
      if r == NULL {
        KeepState(m, Mem(), pages, chains, b);
      } else {
        LinkIsNotMagic(heap.next[h]);
        JoinState(m, Mem(), pages, chains, b, h, Live(order, true));
        BigGrows(pages, LiveOf(b), h, Live(order, true));
        assert h in heap.LiveBlocks();
      }
    }

    // munmap_user on the shared heap. It frees what begins at the address, and the
    // allocator stays sound exactly if that is no slab page.
    method MunmapUser(addr: nat, length: nat) returns (r: int)
      requires Valid() && addr < TWO64
      modifies Repr()
      ensures Valid() <==> !PageAddr(old(pages), addr)
      ensures heap.Valid() && pages == old(pages)
      ensures heap.LiveBlocks() == if IsFrameAddr(addr) then old(heap.LiveBlocks()) - {AddrToFrame(addr)}
                                   else old(heap.LiveBlocks())
      ensures r == if addr == NULL || IsFrameAddr(addr) then 0 else -1
      ensures LiveAt(old(heap.LiveBlocks()), addr) && !PageAddr(old(pages), addr) ==>
        Shrinks(old(pages), old(heap.LiveBlocks()), pages, heap.LiveBlocks(), addr) && ContentsSince(addr)
      ensures !LiveAt(old(heap.LiveBlocks()), addr) ==> heap.blocks == old(heap.blocks) && ContentsSince(NULL)
    {
      hide Heap.Valid, State, Linked, Undisturbed, Kept, Shrinks, Spared, ContentsKept, Granted, Tiled, Coalesced,
           CoalescedExcept, AddrToFrame;
      ghost var m, b, live := Mem(), heap.blocks, heap.LiveBlocks();
      heap.Sizes();
      StateParts(m, pages, chains, live);
      r := heap.MunmapUser(addr, length);
      heap.Sizes();
      if PageAddr(pages, addr) {
        PageGone(Mem(), pages, chains, heap.LiveBlocks(), AddrToFrame(addr));
      } else if LiveAt(live, addr) {
        Undisturb(m, Mem(), heap.blocks);
        UndisturbedSpares(heap.blocks, pages.Keys, addr, m, Mem(), slabNext[..], slabPrev[..]);
        ghost var idx := AddrToFrame(addr);
        FrameOfAddr(addr);
        LeaveState(m, Mem(), pages, chains, live, heap.blocks, idx);
        BigShrinks(pages, live, idx);
        BlockGranted(pages, live, idx);
        StateParts(Mem(), pages, chains, heap.LiveBlocks());
        OthersSpared(pages, b, pages, heap.blocks, addr, FRAME_SIZE * Pow2(live[idx].order), m, slabNext[..],
                     slabPrev[..], Mem(), slabNext[..], slabPrev[..]);
      } else {
        Undisturb(m, Mem(), heap.blocks);
        NoneGone(live, addr);
        LiveDeterminesAll(b, heap.blocks, MAX_ORDER);
        KeepState(m, Mem(), pages, chains, b);
        UndisturbedSpares(b, pages.Keys, NULL, m, Mem(), slabNext[..], slabPrev[..]);
        ObjectsSpared(pages, b, m, slabNext[..], slabPrev[..], Mem(), slabNext[..], slabPrev[..]);
      }
    }

    // munmap_all_user on the shared heap: all slab pages and kernel blocks stay,
    // and what is in them.
    method MunmapAllUser()
      requires Valid()
      modifies Repr()
      ensures Valid() && pages == old(pages) && heap.LiveBlocks() == KernelOf(old(heap.LiveBlocks()))
      ensures forall x: nat, n: nat :: Granted(pages, heap.LiveBlocks(), x, n)
                <==> Granted(pages, old(heap.LiveBlocks()), x, n) && !UserAt(old(heap.LiveBlocks()), x)
      ensures ContentsKept(pages, heap.LiveBlocks(), NULL, old(Mem()), old(slabNext[..]), old(slabPrev[..]), Mem(),
                           slabNext[..], slabPrev[..])
    {
      hide Heap.Valid, State, Linked, Undisturbed, Kept, Spared, ContentsKept, Granted, Tiled, KernelOf, LiveOf;
      ghost var m, live := Mem(), heap.LiveBlocks();
      heap.Sizes();
      StateParts(m, pages, chains, live);
      heap.MunmapAllUser();
      heap.Sizes();
      Undisturb(m, Mem(), heap.blocks);
      KernelState(m, Mem(), pages, chains, live, heap.blocks);
      StateParts(Mem(), pages, chains, heap.LiveBlocks());
      UndisturbedSpares(heap.blocks, pages.Keys, NULL, m, Mem(), slabNext[..], slabPrev[..]);
      ObjectsSpared(pages, heap.blocks, m, slabNext[..], slabPrev[..], Mem(), slabNext[..], slabPrev[..]);
      AllLive(old(heap.blocks));
      KernelGranted(pages, live);
    }

    // How much kcalloc clears.
    method ClearSize(total: nat) returns (k: nat)
      requires 0 < total < TWO64
      ensures forall n: nat :: SizeFor(total, n) ==> n == k
    {
      if total < 2048 {
        k := total;
        var c := 0;
        while c < CACHE_COUNT
          invariant 0 <= c < CACHE_COUNT && forall e | 0 <= e < c :: ObjSize(e) < total
          decreases CACHE_COUNT - c
        {
          if ObjSize(c) >= total {
            LeastCache(total, c);
            return ObjSize(c);
          }
          c := c + 1;
        }
        assert false;
      } else {
        var order := OrderFor(PagesFor(total));
        k := Pow2(order) * FRAME_SIZE;
        forall o: nat | IsOrderFor(o, PagesFor(total)) ensures o == order { OrderUnique(PagesFor(total), o, order); }
      }
    }

    // kcalloc: the product wraps around in 64 bits. What is cleared is the whole
    // object, and nothing else.
    method Kcalloc(count: nat, size: nat) returns (p: nat, ghost n: nat)
      requires Valid()
      modifies Repr()
      ensures Valid()
      ensures p == NULL <==> count * size % TWO64 == 0 || !CanServe(old(pages), old(heap.blocks), count * size % TWO64)
      ensures p == NULL ==> pages == old(pages) && heap.blocks == old(heap.blocks)
      ensures p != NULL ==> Grows(old(pages), old(heap.LiveBlocks()), pages, heap.LiveBlocks(), p, n)
      ensures p != NULL ==> forall f: nat, w: nat | f < FRAME_COUNT && w < FRAME_WORDS && WordIn(p, n, f, w) ::
        Word(f, w) == 0
      ensures p != NULL ==> !UserAt(heap.LiveBlocks(), p)
      ensures p != NULL ==> (n >= count * size <==> count * size + FRAME_SIZE - 1 < TWO64)
      ensures p != NULL ==> SizeFor(count * size % TWO64, n)
      ensures ContentsSince(NULL)
    {
      hide Heap.Valid, State, Linked, Granted, Grows, CanServe, SizeFor, SlotAddr, ContentsKept, WordIn, WordOf, Tiled,
           UserAt;
      heap.Sizes();
      StateParts(Mem(), pages, chains, heap.LiveBlocks());
      ghost var b, pages0 := heap.blocks, pages;
      var total := count * size % TWO64;
      p, n := Kmalloc(total);
      if p != NULL {
        heap.Sizes();
        StateParts(Mem(), pages, chains, heap.LiveBlocks());
        ObjectPlace(pages, heap.blocks, p, n);
        ProductFits(count, size, n);
        var k := ClearSize(total);
        ghost var m1, n1, p1 := Mem(), slabNext[..], slabPrev[..];
        Clear(p, k);
        heap.Sizes();
        StateParts(Mem(), pages, chains, heap.LiveBlocks());
        ClearedElsewhere(pages0, b, pages, heap.blocks, p, n, old(Mem()), old(slabNext[..]), old(slabPrev[..]), m1, n1,
                         p1,
                         Mem(), slabNext[..], slabPrev[..]);
      }
    }

    // The clearing loop of kcalloc, a word at a time.
    method Clear(a: nat, n: nat)
      requires Valid() && Holds(a, n)
      modifies Repr()
      ensures Valid() && pages == old(pages) && heap.blocks == old(heap.blocks)
      ensures Zeroed(old(Mem()), old(slabNext[..]), old(slabPrev[..]), Mem(), slabNext[..], slabPrev[..], a, n)
    {
      hide Heap.Valid, State, Linked, Granted, AddrToFrame, Zeroed, WordStored;
      heap.Sizes();
      StateParts(Mem(), pages, chains, heap.LiveBlocks());
      ObjectPlace(pages, heap.blocks, a, n);
      ghost var m, l, p := Mem(), slabNext[..], slabPrev[..];
      NothingZeroed(m, l, p, a);
      var i: nat := 0;
      while 8 * i < n
        invariant Valid() && pages == old(pages) && heap.blocks == old(heap.blocks) && 8 * i <= n
        invariant Zeroed(m, l, p, Mem(), slabNext[..], slabPrev[..], a, 8 * i)
      {
        ghost var m1, l1, p1 := Mem(), slabNext[..], slabPrev[..];
        ghost var t: nat := (a - HEAP_PHYS) / 8 + i;
        WordPlace(a + 8 * i, t);
        ClientStore(AddrToFrame(a + 8 * i), (a + 8 * i) % FRAME_SIZE / 8, 0, a, n);
        ZeroNext(m, l, p, m1, l1, p1, Mem(), slabNext[..], slabPrev[..], a, i, t);
        i := i + 1;
      }
      assert 8 * i == n;
    }
  }

  // Word w of frame f now holds v, and no other word changed.
  ghost predicate WordStored(m: Memory, n: seq<int>, p: seq<int>, m': Memory, n': seq<int>, p': seq<int>, f: nat,
                             w: nat, v: int)
  {
    && Columns(m, n, p) && Columns(m', n', p')
    && forall g: nat, x: nat | g < FRAME_COUNT && x < FRAME_WORDS ::
         WordOf(m', n', p', g, x) == if g == f && x == w then v else WordOf(m, n, p, g, x)
  }

  // The words of the len bytes at a are zero, and no other word changed.
  ghost predicate Zeroed(m: Memory, n: seq<int>, p: seq<int>, m': Memory, n': seq<int>, p': seq<int>, a: nat, len: nat)
  {
    && Columns(m, n, p) && Columns(m', n', p')
    && forall f: nat, w: nat | f < FRAME_COUNT && w < FRAME_WORDS ::
         WordOf(m', n', p', f, w) == if WordIn(a, len, f, w) then 0 else WordOf(m, n, p, f, w)
  }

  lemma NothingZeroed(m: Memory, n: seq<int>, p: seq<int>, a: nat)
    requires Columns(m, n, p)
    ensures Zeroed(m, n, p, m, n, p, a, 0)
  {
    hide WordAddr, WordOf;
  }

  lemma ZeroNext(m: Memory, n: seq<int>, p: seq<int>, m1: Memory, n1: seq<int>, p1: seq<int>, m2: Memory, n2: seq<int>,
                 p2: seq<int>, a: nat, i: nat, t: nat)
    requires Zeroed(m, n, p, m1, n1, p1, a, 8 * i) && WordStored(m1, n1, p1, m2, n2, p2, t / 512, t % 512, 0)
    requires a % 8 == 0 && WordAddr(t / 512, t % 512) == a + 8 * i && t < FRAME_COUNT * FRAME_WORDS
    requires forall g: nat, x: nat | x < FRAME_WORDS && WordAddr(g, x) == a + 8 * i :: g == t / 512 && x == t % 512
    ensures Zeroed(m, n, p, m2, n2, p2, a, 8 * (i + 1))
  {
    WordsUpTo(a, i);
    hide WordAddr, WordOf, WordIn;
  }

  lemma WordsUpTo(a: nat, i: nat)
    requires a % 8 == 0
    ensures forall f: nat, w: nat :: WordIn(a, 8 * (i + 1), f, w) <==>
      WordIn(a, 8 * i, f, w) || WordAddr(f, w) == a + 8 * i
    ensures forall f: nat, w: nat :: !WordIn(a, 0, f, w)
  {
    forall f: nat, w: nat ensures WordAddr(f, w) % 8 == 0 { FrameEven(f); }
  }

  // Clearing the new object does not reach the earlier ones.
  lemma ClearedElsewhere(pages: Pages, b: Blocks, pages': Pages, b': Blocks, a: nat, size: nat,
                         m: Memory, n: seq<int>, p: seq<int>, m1: Memory, n1: seq<int>, p1: seq<int>,
                         m2: Memory, n2: seq<int>, p2: seq<int>)
    requires ContentsKept(pages, LiveOf(b), NULL, m, n, p, m1, n1, p1) && Columns(m2, n2, p2)
    requires Tiled(b', MAX_ORDER) && PagesLive(pages', LiveOf(b'))
    requires Grows(pages, LiveOf(b), pages', LiveOf(b'), a, size)
    requires Zeroed(m1, n1, p1, m2, n2, p2, a, size)
    ensures ContentsKept(pages, LiveOf(b), NULL, m, n, p, m2, n2, p2)
  {
    hide Granted, WordOf;
    forall x: nat, len: nat, f: nat, w: nat |
      x != NULL && Granted(pages, LiveOf(b), x, len) && WordIn(x, len, f, w) && f < FRAME_COUNT && w < FRAME_WORDS
      ensures WordOf(m2, n2, p2, f, w) == WordOf(m, n, p, f, w)
    {
      assert !Granted(pages, LiveOf(b), a, len);
      GrantedDisjoint(pages', b', x, len, a, size);
    }
  }

  // Word t of the heap is found at one place only.
  lemma WordPlace(a: nat, t: nat)
    requires a == HEAP_PHYS + 8 * t && t < FRAME_COUNT * FRAME_WORDS
    ensures AddrToFrame(a) == t / 512 < FRAME_COUNT && a % FRAME_SIZE / 8 == t % 512 && WordAddr(t / 512, t % 512) == a
    ensures forall g: nat, x: nat | x < FRAME_WORDS && WordAddr(g, x) == a :: g == t / 512 && x == t % 512
  {
    assert t == 512 * (t / 512) + t % 512;
    WordFrame(t / 512, t % 512);
    forall g: nat, x: nat | x < FRAME_WORDS && WordAddr(g, x) == a ensures g == t / 512 && x == t % 512 {
      SameWord(g, x, t / 512, t % 512);
    }
  }

  lemma WordFrame(f: nat, w: nat)
    requires f < FRAME_COUNT && w < FRAME_WORDS
    ensures AddrToFrame(WordAddr(f, w)) == f && WordAddr(f, w) % FRAME_SIZE / 8 == w
  {
    AddrInside(f, 8 * w);
  }

  lemma SameWord(g: nat, x: nat, f: nat, w: nat)
    requires x < FRAME_WORDS && w < FRAME_WORDS && 512 * g + x == 512 * f + w
    ensures g == f && x == w
  {
  }

  lemma ObjectPlace(pages: Pages, b: Blocks, a: nat, n: nat)
    requires Tiled(b, MAX_ORDER) && PagesLive(pages, LiveOf(b)) && Granted(pages, LiveOf(b), a, n)
    ensures HEAP_PHYS <= a && a % 8 == 0 && n % 8 == 0 && n <= HEAP_SIZE && a + n <= HEAP_PHYS + HEAP_SIZE
  {
    hide Granted, SlotAddr;
    var h := HomeBlock(pages, b, a, n);
    FrameCountIsPow2();
    assert Placed(h, b[h].order, MAX_ORDER);
    if h in pages {
      var k: nat :| SlotTaken(pages, h, k) && a == SlotAddr(h, pages[h].cache, k) && n == ObjSize(pages[h].cache);
      SlotEven(h, pages[h].cache, k);
    } else {
      BigSize(pages, LiveOf(b), a, n, h);
    }
  }

  lemma SlotEven(f: nat, c: nat, k: nat)
    requires c < CACHE_COUNT
    ensures SlotAddr(f, c, k) % 8 == 0
  {
    DivIs(SlotAddr(f, c, k), 8, 0x12_0000 + 512 * f + SlotOff(c, k) / 16 * 2, 0);
  }

  lemma BigSize(pages: Pages, live: Blocks, a: nat, n: nat, h: nat)
    requires Granted(pages, live, a, n) && a == FrameToAddr(h) && (forall f <- pages :: pages[f].cache < CACHE_COUNT)
    ensures a % 8 == 0 && n % 8 == 0
  {
    hide SlotAddr, ObjPerSlab, Pow2, FrameToAddr;
    FrameEven(h);
    if SmallObj(pages, a, n) {
      var f: nat, k: nat :|
        SlotTaken(pages, f, k) && a == SlotAddr(f, pages[f].cache, k) && n == ObjSize(pages[f].cache);
    } else {
      var g: nat :| BigAt(pages, live, g, a, n);
      WholeFrames(Pow2(live[g].order));
    }
  }

  lemma FrameEven(h: nat)
    ensures FrameToAddr(h) % 8 == 0
  {
    DivIs(FrameToAddr(h), 8, 0x12_0000 + 512 * h, 0);
  }

  lemma WholeFrames(x: nat)
    ensures FRAME_SIZE * x % 8 == 0
  {
    DivIs(FRAME_SIZE * x, 8, 512 * x, 0);
  }

  // No object is as large as the address space, so a product that wraps around
  // gets less than it asked for.
  lemma ProductFits(count: nat, size: nat, n: nat)
    requires n <= HEAP_SIZE
    requires n >= count * size % TWO64 <==> count * size % TWO64 + FRAME_SIZE - 1 < TWO64
    ensures n >= count * size <==> count * size + FRAME_SIZE - 1 < TWO64
  {
    if count * size < TWO64 { assert count * size % TWO64 == count * size; }
  }

  // A cache's chain is all of its pages.
  lemma ChainWhole(m: Memory, pages: Pages, chains: Lists, live: Blocks, c: nat)
    requires State(m, pages, chains, live) && c < CACHE_COUNT
    ensures |chains| == CACHE_COUNT && forall f: nat :: f in chains[c] <==> f in pages && pages[f].cache == c
  {
  }

  // The freelist word tells whether the page has a free object.
  lemma HeadTells(m: Memory, pages: Pages, chains: Lists, live: Blocks, c: nat, f: nat)
    requires State(m, pages, chains, live) && c < CACHE_COUNT && |chains| == CACHE_COUNT && f in chains[c]
    ensures f in pages && pages[f].cache == c && f < FRAME_COUNT == |m.w2|
    ensures m.w2[f] != NULL <==> pages[f].free != []
  {
    hide HeaderOk, MagicOf;
    assert m.PageAt(f, pages[f]);
  }

  // The size of the object that a request of this size gets.
  ghost predicate SizeFor(size: nat, n: nat) {
    if size < 2048 then n == ObjSize(CacheFor(if size < 16 then 16 else size))
    else exists order: nat :: order <= MAX_ORDER && IsOrderFor(order, PagesFor(size)) && n == FRAME_SIZE * Pow2(order)
  }

  // The sizes in numbers: eight caches up to 2047 bytes, from there the least block
  // of 2^k pages that holds the pages needed.
  lemma SizeTable(size: nat, n: nat) returns (k: nat)
    requires 0 < size < TWO64 && SizeFor(size, n)
    ensures size <= 16 ==> n == 16
    ensures 16 < size <= 32 ==> n == 32
    ensures 32 < size <= 64 ==> n == 64
    ensures 64 < size <= 128 ==> n == 128
    ensures 128 < size <= 256 ==> n == 256
    ensures 256 < size <= 512 ==> n == 512
    ensures 512 < size <= 1024 ==> n == 1024
    ensures 1024 < size <= 2047 ==> n == 2048
    ensures size >= 2048 ==> PageBlock((size + 4095) % 0x1_0000_0000_0000_0000 / 4096, n, k)
  {
    hide CacheFor, Pow2;
    k := 0;
    if size < 2048 {
      SmallTable(if size < 16 then 16 else size);
    } else {
      k :| k <= MAX_ORDER && IsOrderFor(k, PagesFor(size)) && n == FRAME_SIZE * Pow2(k);
    }
  }

  // n bytes are the least block of 2^k pages that holds so many.
  ghost predicate PageBlock(pages: nat, n: nat, k: nat) {
    k <= 14 && n == 4096 * Pow2(k) && Pow2(k) >= pages && (k > 0 ==> Pow2(k - 1) < pages)
  }

  lemma SmallTable(size: nat)
    requires size < 2048
    ensures CacheFor(size) ==
      if size <= 16 then 0 else if size <= 32 then 1 else if size <= 64 then 2 else if size <= 128 then 3
      else if size <= 256 then 4 else if size <= 512 then 5 else if size <= 1024 then 6 else 7
  {
  }

  lemma SizeIs(size: nat, order: nat, n: nat)
    requires size < 2048 ==> n == ObjSize(CacheFor(if size < 16 then 16 else size))
    requires size >= 2048 ==> order <= MAX_ORDER && IsOrderFor(order, PagesFor(size)) && n == FRAME_SIZE * Pow2(order)
    ensures SizeFor(size, n)
  {
  }

  lemma GrowsHolds(pages: Pages, live: Blocks, pages': Pages, live': Blocks, a: nat, n: nat)
    requires Grows(pages, live, pages', live', a, n)
    ensures Granted(pages', live', a, n)
  {
  }

  // Rounding up to pages, in 64 bits.
  lemma RoundUp(size: nat, order: nat)
    requires 0 < size < TWO64 && IsOrderFor(order, PagesFor(size))
    ensures FRAME_SIZE * Pow2(order) >= size <==> size + FRAME_SIZE - 1 < TWO64
  {
    if size + FRAME_SIZE - 1 >= TWO64 { assert PagesFor(size) == 0; }
  }

  // A request for all but one byte of the address space is given one frame.
  lemma HugeRequestGetsOneFrame(order: nat)
    requires IsOrderFor(order, PagesFor(TWO64 - 1))
    ensures order == 0 && FRAME_SIZE * Pow2(order) == 4096 < TWO64 - 1
  {
    assert PagesFor(TWO64 - 1) == 0;
  }

  // 2^60 + 1 objects of 16 bytes are given 16 bytes.
  lemma WrappedProductGetsOne(n: nat)
    requires SizeFor(0x1000_0000_0000_0001 * 16 % TWO64, n)
    ensures n == 16 < 0x1000_0000_0000_0001 * 16
  {
    assert 0x1000_0000_0000_0001 * 16 % TWO64 == 16;
    assert forall e: nat | e < CACHE_COUNT :: ObjSize(e) == 16 <==> e == 0;
    assert CacheFor(16) == 0;
  }

  // The cache that a small request goes to.
  function CacheFor(size: nat): (c: nat)
    requires size < 2048
    ensures c < CACHE_COUNT && ObjSize(c) >= size && ObjSize(c) >= 16
    ensures forall e: nat | e < c :: ObjSize(e) < size
  {
    if size <= 16 then 0 else if size <= 32 then 1 else if size <= 64 then 2 else if size <= 128 then 3
    else if size <= 256 then 4 else if size <= 512 then 5 else if size <= 1024 then 6 else 7
  }

  lemma LeastCache(want: nat, c: nat)
    requires want < 2048 && c < CACHE_COUNT && ObjSize(c) >= want && forall e | 0 <= e < c :: ObjSize(e) < want
    ensures c == CacheFor(want)
  {
    assert ObjSize(CacheFor(want)) >= want;
  }

  // Some block or page can take a request of this size.
  ghost predicate CanServe(pages: Pages, b: Blocks, size: nat)
    requires size < TWO64
  {
    if size < 2048 then !AllFull(pages, CacheFor(if size < 16 then 16 else size)) || HasRun(b, MAX_ORDER, 0)
    else exists order: nat :: IsOrderFor(order, PagesFor(size)) && order <= MAX_ORDER && HasRun(b, MAX_ORDER, order)
  }

  lemma ServesBig(pages: Pages, b: Blocks, size: nat, order: nat)
    requires 2048 <= size < TWO64 && IsOrderFor(order, PagesFor(size))
    ensures CanServe(pages, b, size) <==> order <= MAX_ORDER && HasRun(b, MAX_ORDER, order)
  {
    forall o: nat | IsOrderFor(o, PagesFor(size)) ensures o == order { OrderUnique(PagesFor(size), o, order); }
  }

  lemma JoinState(m: Memory, m': Memory, pages: Pages, chains: Lists, b: Blocks, h: nat, k: Blk)
    requires State(m, pages, chains, LiveOf(b)) && Undisturbed(m, m', b)
    requires h !in LiveOf(b) && h < FRAME_COUNT && MagicOf(m'.w0[h]) != SLAB_MAGIC
    ensures State(m', pages, chains, LiveOf(b)[h := k])
  {
    KeepState(m, m', pages, chains, b);
  }

  lemma LeaveState(m: Memory, m': Memory, pages: Pages, chains: Lists, live: Blocks, b: Blocks, h: nat)
    requires State(m, pages, chains, live) && Undisturbed(m, m', b) && LiveOf(b) == live - {h} && h !in pages
    ensures State(m', pages, chains, LiveOf(b))
  {
    forall f | f in pages ensures f < FRAME_COUNT && f in LiveOf(b) && m'.PageAt(f, pages[f]) {
      assert f in live - {h};
      UndisturbedAt(m, m', b, f);
      assert m.PageAt(f, pages[f]);
    }
    forall g | g in LiveOf(b) && g !in pages ensures g < FRAME_COUNT && MagicOf(m'.w0[g]) != SLAB_MAGIC {
      assert g in live;
      UndisturbedAt(m, m', b, g);
    }
  }

  // Some live block begins at the address.
  ghost predicate LiveAt(live: Blocks, addr: nat) {
    IsFrameAddr(addr) && AddrToFrame(addr) in live
  }

  // A slab page begins there.
  ghost predicate PageAddr(pages: Pages, addr: nat) {
    IsFrameAddr(addr) && AddrToFrame(addr) in pages
  }

  lemma PageGone(m: Memory, pages: Pages, chains: Lists, live: Blocks, f: nat)
    requires f in pages && f !in live
    ensures !State(m, pages, chains, live)
  {
  }

  // A live user block begins at the address.
  ghost predicate UserAt(live: Blocks, addr: nat) {
    exists h: nat :: h in live && live[h].Live? && live[h].user && addr == FrameToAddr(h)
  }

  lemma NewKernelBlock(live: Blocks, h: nat, order: nat)
    ensures !UserAt(live[h := Live(order, false)], FrameToAddr(h))
  {
  }

  lemma SmallNoUser(pages: Pages, live: Blocks, a: nat, n: nat)
    requires Granted(pages, live, a, n) && n < FRAME_SIZE
    ensures !UserAt(live, a)
  {
    if SmallObj(pages, a, n) {
      var f: nat, k: nat :| SlotTaken(pages, f, k)
        && a == SlotAddr(f, pages[f].cache, k) && n == ObjSize(pages[f].cache);
      forall h: nat ensures a != FrameToAddr(h) { SlotNotFrame(f, pages[f].cache, k, h); }
    }
  }

  // Some run of frames can take a user mapping of this length.
  ghost predicate CanMap(b: Blocks, length: nat)
    requires length < TWO64
  {
    exists o: nat :: IsOrderFor(o, MapPages(length)) && o <= MAX_ORDER && HasRun(b, MAX_ORDER, o)
  }

  function MapPages(length: nat): nat { if PagesFor(length) == 0 then 1 else PagesFor(length) }

  lemma MapsIff(b: Blocks, length: nat, order: nat)
    requires length < TWO64 && IsOrderFor(order, MapPages(length))
    ensures CanMap(b, length) <==> order <= MAX_ORDER && HasRun(b, MAX_ORDER, order)
    ensures FRAME_SIZE * Pow2(order) >= length <==> length + FRAME_SIZE - 1 < TWO64
  {
    hide HasRun;
    forall o: nat | IsOrderFor(o, MapPages(length)) ensures o == order { OrderUnique(MapPages(length), o, order); }
    if length + FRAME_SIZE - 1 >= TWO64 {
      HugeMap(length);
      assert Pow2(0) == 1;
      OrderUnique(1, order, 0);
    } else {
      WholePages(length, Pow2(order));
    }
  }

  lemma HugeMap(length: nat)
    requires length < TWO64 <= length + FRAME_SIZE - 1
    ensures MapPages(length) == 1 && length > FRAME_SIZE
  {
    assert PagesFor(length) == 0;
  }

  lemma WholePages(length: nat, frames: nat)
    requires length + FRAME_SIZE - 1 < TWO64 && frames >= MapPages(length)
    ensures FRAME_SIZE * frames >= length
  {
  }

  lemma NoneGone(live: Blocks, addr: nat)
    requires !LiveAt(live, addr)
    ensures IsFrameAddr(addr) ==> live - {AddrToFrame(addr)} == live
  {
    hide AddrToFrame;
  }

  // With the user blocks gone, slab pages and kernel blocks are as they were.
  lemma KernelState(m: Memory, m': Memory, pages: Pages, chains: Lists, live: Blocks, b: Blocks)
    requires State(m, pages, chains, live) && Undisturbed(m, m', b) && LiveOf(b) == KernelOf(live)
    ensures State(m', pages, chains, LiveOf(b))
  {
    forall f | f in pages
      ensures f < FRAME_COUNT && f in LiveOf(b) && LiveOf(b)[f] == Live(0, false) && m'.PageAt(f, pages[f])
    {
      assert live[f] == Live(0, false) && f in KernelOf(live);
      UndisturbedAt(m, m', b, f);
      assert m.PageAt(f, pages[f]);
    }
    forall g | g in LiveOf(b) && g !in pages ensures g < FRAME_COUNT && MagicOf(m'.w0[g]) != SLAB_MAGIC {
      assert g in KernelOf(live) && g in live;
      UndisturbedAt(m, m', b, g);
    }
  }

  lemma AllLive(b: Blocks)
    ensures forall h <- LiveOf(b) :: LiveOf(b)[h].Live?
  {
  }

  // What is still handed out: all but the user blocks.
  lemma KernelGranted(pages: Pages, live: Blocks)
    requires PagesLive(pages, live) && forall h <- live :: live[h].Live?
    ensures forall x: nat, n: nat :: Granted(pages, KernelOf(live), x, n) <==>
      Granted(pages, live, x, n) && !UserAt(live, x)
  {
    hide SlotAddr;
    forall x: nat, n: nat
      ensures Granted(pages, KernelOf(live), x, n) <==> Granted(pages, live, x, n) && !UserAt(live, x)
    {
      SmallNotUser(pages, live, x, n);
      BigNotUser(pages, live, x, n);
    }
  }

  lemma SmallNotUser(pages: Pages, live: Blocks, x: nat, n: nat)
    requires PagesLive(pages, live)
    ensures SmallObj(pages, x, n) ==> !UserAt(live, x)
  {
    hide SlotAddr;
    if SmallObj(pages, x, n) && UserAt(live, x) {
      var f: nat, k: nat :| SlotTaken(pages, f, k) && x == SlotAddr(f, pages[f].cache, k);
      var h: nat :| h in live && x == FrameToAddr(h);
      SlotNotFrame(f, pages[f].cache, k, h);
      assert false;
    }
  }

  lemma BigNotUser(pages: Pages, live: Blocks, x: nat, n: nat)
    requires PagesLive(pages, live) && forall h <- live :: live[h].Live?
    ensures BigObj(pages, KernelOf(live), x, n) <==> BigObj(pages, live, x, n) && !UserAt(live, x)
  {
    if h: nat :| BigAt(pages, KernelOf(live), h, x, n) {
      assert BigAt(pages, live, h, x, n);
      forall g: nat | g in live && x == FrameToAddr(g) ensures g == h { }
    }
    if BigObj(pages, live, x, n) && !UserAt(live, x) {
      var h: nat :| BigAt(pages, live, h, x, n);
      assert BigAt(pages, KernelOf(live), h, x, n);
    }
  }

  lemma BigGrows(pages: Pages, live: Blocks, h: nat, k: Blk)
    requires h !in live && PagesLive(pages, live)
    ensures Grows(pages, live, pages, live[h := k], FrameToAddr(h), FRAME_SIZE * Pow2(k.order))
  {
    var live' := live[h := k];
    assert BigAt(pages, live', h, FrameToAddr(h), FRAME_SIZE * Pow2(k.order));
    forall g: nat, x: nat, m: nat
      ensures BigAt(pages, live', g, x, m) <==>
        BigAt(pages, live, g, x, m) || (g == h && x == FrameToAddr(h) && m == FRAME_SIZE * Pow2(k.order))
    {
    }
    forall m: nat ensures !Granted(pages, live, FrameToAddr(h), m) {
      if SmallObj(pages, FrameToAddr(h), m) {
        var f: nat, j: nat :| SlotTaken(pages, f, j) && FrameToAddr(h) == SlotAddr(f, pages[f].cache, j);
        SlotNotFrame(f, pages[f].cache, j, h);
      }
    }
  }

  lemma BigShrinks(pages: Pages, live: Blocks, h: nat)
    requires h in live && h !in pages && PagesLive(pages, live)
    ensures Shrinks(pages, live, pages, live - {h}, FrameToAddr(h))
  {
    forall f | f in pages ensures f in live - {h} && (live - {h})[f] == Live(0, false) {
    }
    assert (live - {h})[h := live[h]] == live;
    BigGrows(pages, live - {h}, h, live[h]);
    GrowsBackwards(pages, live - {h}, pages, live, FrameToAddr(h), FRAME_SIZE * Pow2(live[h].order));
  }

  // An address outside the heap, or in a frame without the slab magic, is at
  // most the address of a live block.
  lemma NotGranted(m: Memory, pages: Pages, chains: Lists, live: Blocks, ptr: nat)
    requires State(m, pages, chains, live)
    requires InHeap(ptr) ==> MagicOf(m.w0[AddrToFrame(ptr)]) != SLAB_MAGIC
    ensures InHeap(ptr) ==> AddrToFrame(ptr) !in pages
    ensures !InHeap(ptr) || ptr % FRAME_SIZE != 0 || AddrToFrame(ptr) !in live ==>
      Shrinks(pages, live, pages, live, ptr)
  {
    hide State, SmallObj, BigObj, InHeap, AddrToFrame;
    if InHeap(ptr) && AddrToFrame(ptr) in pages { PageMagic(m, pages, chains, live, AddrToFrame(ptr)); }
    if !InHeap(ptr) || ptr % FRAME_SIZE != 0 || AddrToFrame(ptr) !in live {
      forall n: nat ensures !Granted(pages, live, ptr, n) {
        NotSmall(m, pages, chains, live, ptr, n);
        NotBig(m, pages, chains, live, ptr, n);
      }
    }
  }

  lemma PageMagic(m: Memory, pages: Pages, chains: Lists, live: Blocks, f: nat)
    requires State(m, pages, chains, live) && f in pages
    ensures f < |m.w0| && MagicOf(m.w0[f]) == SLAB_MAGIC
  {
    hide Threaded, ChainsOk, ObjPerSlab;
    assert m.PageAt(f, pages[f]);
  }

  lemma NotSmall(m: Memory, pages: Pages, chains: Lists, live: Blocks, ptr: nat, n: nat)
    requires State(m, pages, chains, live)
    requires InHeap(ptr) ==> AddrToFrame(ptr) !in pages
    ensures !SmallObj(pages, ptr, n)
  {
    forall f: nat, k: nat | SlotTaken(pages, f, k) ensures ptr != SlotAddr(f, pages[f].cache, k) {
      assert m.PageAt(f, pages[f]);
      PtrFrame(f, pages[f].cache, k);
    }
  }

  lemma NotBig(m: Memory, pages: Pages, chains: Lists, live: Blocks, ptr: nat, n: nat)
    requires State(m, pages, chains, live)
    requires !InHeap(ptr) || ptr % FRAME_SIZE != 0 || AddrToFrame(ptr) !in live
    ensures !BigObj(pages, live, ptr, n)
  {
    forall h: nat | h in live && h !in pages ensures ptr != FrameToAddr(h) {
      AddrRoundTrip(h);
    }
  }

  lemma SlotOf(pages: Pages, ptr: nat) returns (f: nat, k: nat)
    requires exists n: nat :: SmallObj(pages, ptr, n)
    ensures SlotTaken(pages, f, k) && ptr == SlotAddr(f, pages[f].cache, k)
  {
    var n: nat :| SmallObj(pages, ptr, n);
    f, k :| SlotTaken(pages, f, k) && ptr == SlotAddr(f, pages[f].cache, k) && n == ObjSize(pages[f].cache);

  }

  // The memory after a store to word w of frame f; words 3 and 4 are not in it.
  function Stored(m: Memory, f: nat, w: nat, v: int): Memory
    requires f < |m.w0| && f < |m.w1| && f < |m.w2| && f < |m.w5| && f < |m.data| && w < |m.data[f]|
  {
    if w == 0 then m.(w0 := m.w0[f := v])
    else if w == 1 then m.(w1 := m.w1[f := v])
    else if w == 2 then m.(w2 := m.w2[f := v])
    else if w == 3 || w == 4 then m
    else if w == 5 then m.(w5 := m.w5[f := v])
    else m.(data := m.data[f := m.data[f][w := v]])
  }

  lemma InsideObject(m: Memory, pages: Pages, chains: Lists, b: Blocks, f: nat, w: nat, v: int, a: nat, n: nat)
    requires State(m, pages, chains, LiveOf(b)) && Tiled(b, MAX_ORDER)
    requires f < FRAME_COUNT && w < FRAME_WORDS && Granted(pages, LiveOf(b), a, n)
    requires a <= FrameToAddr(f) + 8 * w && FrameToAddr(f) + 8 * w + 8 <= a + n
    requires FrameToAddr(f) + 8 * w == a && w == 0 ==> MagicOf(v) != SLAB_MAGIC
    ensures InUse(b, f)
    ensures State(Stored(m, f, w, v), pages, chains, LiveOf(b))
    ensures w < 6 ==> !OnSome(chains, f)
  {
    StateParts(m, pages, chains, LiveOf(b));
    var h := HomeBlock(pages, b, a, n);
    assert Covers(b, h, f);
    if h in pages {
      var k: nat :| SlotTaken(pages, h, k) && a == SlotAddr(h, pages[h].cache, k) && n == ObjSize(pages[h].cache);
      SlotWordFits(pages[h].cache, k);
      assert h == f && m.PageAt(h, pages[h]);
      StoreInSlot(m.data[f], f, pages[f].cache, m.w2[f], pages[f].free, k, w, v);
      StoreInPage(m, pages, chains, LiveOf(b), f, w, v);
    } else {
      assert Apart(b, h, f) && (f in pages ==> f in LiveOf(b));
      StoreInBlock(m, pages, chains, b, h, f, w, v);
    }
  }

  lemma StoreInPage(m: Memory, pages: Pages, chains: Lists, live: Blocks, f: nat, w: nat, v: int)
    requires State(m, pages, chains, live) && f in pages && 6 <= w < FRAME_WORDS && f < FRAME_COUNT
    requires Threaded(m.data[f][w := v], f, pages[f].cache, m.w2[f], pages[f].free)
    ensures State(Stored(m, f, w, v), pages, chains, live)
  {
    var m' := Stored(m, f, w, v);
    forall g | g in pages ensures m'.PageAt(g, pages[g]) { assert m.PageAt(g, pages[g]); }
  }

  lemma StoreInBlock(m: Memory, pages: Pages, chains: Lists, b: Blocks, h: nat, f: nat, w: nat, v: int)
    requires State(m, pages, chains, LiveOf(b)) && Tiled(b, MAX_ORDER)
    requires h in LiveOf(b) && Covers(b, h, f) && f < FRAME_COUNT && w < FRAME_WORDS && f !in pages
    requires f == h && w == 0 ==> MagicOf(v) != SLAB_MAGIC
    ensures State(Stored(m, f, w, v), pages, chains, LiveOf(b))
    ensures !OnSome(chains, f)
  {
    var m', live := Stored(m, f, w, v), LiveOf(b);
    assert Apart(b, h, f);
    assert f in live ==> f == h;
    StoreOutside(m, pages, chains, live, f, w, v);
  }

  lemma StoreOutside(m: Memory, pages: Pages, chains: Lists, live: Blocks, f: nat, w: nat, v: int)
    requires State(m, pages, chains, live) && f < FRAME_COUNT && w < FRAME_WORDS && f !in pages
    requires f in live && w == 0 ==> MagicOf(v) != SLAB_MAGIC
    ensures State(Stored(m, f, w, v), pages, chains, live)
    ensures !OnSome(chains, f)
  {
    var m' := Stored(m, f, w, v);
    forall g | g in pages ensures m'.PageAt(g, pages[g]) { assert m.PageAt(g, pages[g]); }
  }

  lemma OnlySized(m: Memory, m': Memory, f: nat)
    requires OnlyAt(m, m', f)
    ensures m'.Sized()
  {
  }

  // What SlabFree finds in the header of the page of an allocated object.
  lemma TakenFacts(m: Memory, pages: Pages, chains: Lists, live: Blocks, f: nat, k: nat)
    requires State(m, pages, chains, live) && SlotTaken(pages, f, k)
    ensures f in pages && f < FRAME_COUNT && pages[f].cache < CACHE_COUNT && |m.w0| == |m.w5| == FRAME_COUNT
    ensures MagicOf(m.w0[f]) == SLAB_MAGIC && m.w5[f] == CachePtr(pages[f].cache)
    ensures m.w0[f] / TWO32 - 1 == (m.w0[f] - TWO32) / TWO32
    ensures (m.w0[f] - TWO32) / TWO32 == 0 <==> |pages[f].free| + 1 == ObjPerSlab(pages[f].cache)
    ensures |pages[f].free| + 1 <= ObjPerSlab(pages[f].cache)
    ensures var ptr := SlotAddr(f, pages[f].cache, k);
            AddrToFrame(ptr) == f && ptr % FRAME_SIZE / 8 == (ptr - FrameToAddr(f)) / 8
    ensures OnlyAt(m, PushMemory(m, f, (SlotAddr(f, pages[f].cache, k) - FrameToAddr(f)) / 8, SlotAddr(f,
                   pages[f].cache, k)), f)
  {
    hide ObjPerSlab, AddrToFrame, SlotOff, ObjSize, Threaded;
    assert m.PageAt(f, pages[f]);
    HeaderMagic(m.w0[f], m.w1[f], m.w5[f], pages[f]);
    PtrFrame(f, pages[f].cache, k);
    SlotWordFits(pages[f].cache, k);
  }

  lemma TakenFrom(pages: Pages, pages': Pages, f: nat, k: nat)
    requires Taken(pages, pages', f, k)
    ensures pages'[f].cache == pages[f].cache
  {
  }

  // The slab layer does not notice what happens to free blocks.
  lemma KeepState(m: Memory, m': Memory, pages: Pages, chains: Lists, b: Blocks)
    requires State(m, pages, chains, LiveOf(b)) && Undisturbed(m, m', b)
    ensures State(m', pages, chains, LiveOf(b))
  {
    forall f | f in pages ensures f < FRAME_COUNT && m'.PageAt(f, pages[f]) {
      UndisturbedAt(m, m', b, f);
      assert m.PageAt(f, pages[f]);
    }
    forall h | h in LiveOf(b) && h !in pages ensures MagicOf(m'.w0[h]) != SLAB_MAGIC {
      UndisturbedAt(m, m', b, h);
    }
  }

  lemma LiveInUse(b: Blocks, f: nat)
    requires f in LiveOf(b)
    ensures InUse(b, f)
  {
    assert Covers(b, f, f);
  }
}
