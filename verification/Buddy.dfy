/**
  The buddy allocator itself: frame tags, free-list heads and the links inside
  the free blocks, all updated in place.
 */
module BuddyHeap {
  import opened Widths
  import opened Counting
  import opened Dyadic
  import opened Layout
  import opened Blocks
  import opened FreeLists

  function TagOf(k: Blk): Tag {
    match k
    case Free(o) => Tag(false, false, o)
    case Live(o, u) => Tag(true, u, o)
  }

  // The tag at the head of every block is right, and no other frame carries
  // FRAME_ALLOC, however old its tag is. Nothing is said about frame x.
  ghost predicate TagsOk(tags: seq<Tag>, b: Blocks, x: int) {
    && |tags| == FRAME_COUNT
    && forall f: nat | f < FRAME_COUNT && f != x :: if f in b then tags[f] == TagOf(b[f]) else !tags[f].alloc
  }

  // Free list o holds exactly the free blocks of order o, apart from x.
  ghost predicate Listed(lists: Lists, b: Blocks, x: int) {
    && |lists| == MAX_ORDER + 1
    && forall o, f: nat | 0 <= o <= MAX_ORDER :: f in lists[o] <==> FreeAt(b, f, o) && f != x
  }

  // The words of memory that belong to allocated blocks are as they were.
  ghost predicate Kept(before: seq<int>, after: seq<int>, b: Blocks) {
    |before| == |after| && forall f | 0 <= f < |before| && InUse(b, f) :: before[f] == after[f]
  }

  lemma LinksKeep(before: seq<int>, after: seq<int>, lists: Lists, b: Blocks, x: int)
    requires OnlyLinks(before, after, lists) && Listed(lists, b, x) && Tiled(b, MAX_ORDER)
    ensures Kept(before, after, b)
  {
    forall f: nat | OnSome(lists, f) ensures !InUse(b, f) {
      FreeHeadNotInUse(b, MAX_ORDER, f);
    }
  }

  lemma KeptSame(s: seq<int>, b: Blocks)
    ensures Kept(s, s, b)
  {
  }

  lemma KeptThen(s: seq<int>, t: seq<int>, u: seq<int>, b: Blocks, c: Blocks)
    requires Kept(s, t, b) && Kept(t, u, c)
    requires forall h <- LiveOf(b) :: h in c && c[h].Live? && c[h].order >= b[h].order
    ensures Kept(s, u, b)
  {
    InUseGrows(b, c);
  }

  lemma KeptAfterFree(s: seq<int>, t: seq<int>, u: seq<int>, b: Blocks, c: Blocks, h: nat)
    requires Kept(s, t, b) && Kept(t, u, c) && LiveOf(c) == LiveOf(b) - {h}
    ensures Kept(s, u, c)
  {
    forall g | g in LiveOf(c) ensures g in b && b[g] == c[g] { assert g in LiveOf(b); }
    InUseGrows(c, b);
  }

  lemma InUseGrows(b: Blocks, c: Blocks)
    requires forall h <- LiveOf(b) :: h in c && c[h].Live? && c[h].order >= b[h].order
    ensures forall f: nat :: InUse(b, f) ==> InUse(c, f)
  {
    forall f: nat | InUse(b, f) ensures InUse(c, f) {
      var h: nat :| Covers(b, h, f) && b[h].Live?;
      assert h in LiveOf(b);
      Pow2Monotone(b[h].order, c[h].order);
      assert Covers(c, h, f);
    }
  }

  // Taking buddy g off its list and joining it with i.
  lemma ListedAfterMerge(before: Lists, after: Lists, b: Blocks, i: nat, o: nat)
    requires Listed(before, b, i) && o < MAX_ORDER
    requires FreeAt(b, i, o) && FreeAt(b, Flip(i, o), o) && Flip(i, o) != i
    requires exists k :: 0 <= k < |before[o]| && before[o][k] == Flip(i, o)
               && after == before[o := Without(before[o], k)]
    requires !OnSome(after, Flip(i, o))
    ensures Listed(after, Merged(b, i, o), Lower(i, Flip(i, o)))
  {
    var g := Flip(i, o);
    var k :| 0 <= k < |before[o]| && before[o][k] == g && after == before[o := Without(before[o], k)];
    forall p, f: nat | 0 <= p <= MAX_ORDER
      ensures f in after[p] <==> FreeAt(Merged(b, i, o), f, p) && f != Lower(i, g)
    {
      assert f in before[p] <==> FreeAt(b, f, p) && f != i;
      if p == o && f != g { WithoutMembers(before[o], k, f); }
    }
  }

  lemma ListedAfterInsert(before: Lists, b: Blocks, x: nat, o: nat)
    requires Listed(before, b, x) && FreeAt(b, x, o) && o <= MAX_ORDER
    ensures Listed(Pushed(before, o, x), b, -1)
  {
    var after := Pushed(before, o, x);
    forall p, f: nat | 0 <= p <= MAX_ORDER
      ensures f in after[p] <==> FreeAt(b, f, p)
    {
      assert f in before[p] <==> FreeAt(b, f, p) && f != x;
    }
  }

  // The merge test reads the tag of a block head, so the tag is right.
  lemma BuddyTag(tags: seq<Tag>, b: Blocks, i: nat, o: nat)
    requires Tiled(b, MAX_ORDER) && TagsOk(tags, b, -1) && FreeAt(b, i, o) && o < MAX_ORDER
    ensures Flip(i, o) < FRAME_COUNT
    ensures (!tags[Flip(i, o)].alloc && tags[Flip(i, o)].order == o) <==> FreeAt(b, Flip(i, o), o)
  {
    var g := Flip(i, o);
    BuddyIsHead(b, MAX_ORDER, i);
    FrameCountIsPow2();
    assert Placed(g, b[g].order, MAX_ORDER);
  }

  lemma TagsAfterMerge(tags: seq<Tag>, b: Blocks, i: nat, o: nat)
    requires Tiled(b, MAX_ORDER) && TagsOk(tags, b, -1) && o < MAX_ORDER
    requires FreeAt(b, i, o) && FreeAt(b, Flip(i, o), o) && Flip(i, o) != i
    ensures Lower(i, Flip(i, o)) < FRAME_COUNT
    ensures TagsOk(tags[Lower(i, Flip(i, o)) := Tag(false, false, o + 1)], Merged(b, i, o), -1)
  {
    FrameCountIsPow2();
    assert Placed(i, o, MAX_ORDER) by { assert Placed(i, b[i].order, MAX_ORDER); }
    assert Placed(Flip(i, o), b[Flip(i, o)].order, MAX_ORDER);
  }

  // The free buddy is on its list and is no part of memory in use.
  lemma BuddyListed(lists: Lists, b: Blocks, i: nat, o: nat)
    requires Listed(lists, b, i) && o < MAX_ORDER && FreeAt(b, Flip(i, o), o)
    ensures |lists| == MAX_ORDER + 1 && Flip(i, o) in lists[o]
  {
    FlipTwice(i, o);
  }

  // What list_remove of the buddy and the new tag leave behind.
  lemma MergeState(before: Lists, after: Lists, b: Blocks, tags: seq<Tag>, i: nat, o: nat)
    requires Tiled(b, MAX_ORDER) && CoalescedExcept(b, MAX_ORDER, i) && TagsOk(tags, b, -1) && Listed(before, b, i)
    requires o < MAX_ORDER && FreeAt(b, i, o) && FreeAt(b, Flip(i, o), o)
    requires exists k :: 0 <= k < |before[o]| && before[o][k] == Flip(i, o)
               && after == before[o := Without(before[o], k)]
    requires !OnSome(after, Flip(i, o))
    ensures var c, x := Merged(b, i, o), Lower(i, Flip(i, o));
            && x < FRAME_COUNT && FreeAt(c, x, o + 1) && LiveOf(c) == LiveOf(b)
            && Tiled(c, MAX_ORDER) && CoalescedExcept(c, MAX_ORDER, x)
            && Listed(after, c, x) && TagsOk(tags[x := Tag(false, false, o + 1)], c, -1)
  {
    hide Tiled, CoalescedExcept, TagsOk, Listed, OnSome, Without, LiveOf, Flip;
    FlipTwice(i, o);
    MergeBuddies(b, MAX_ORDER, i, o);
    ListedAfterMerge(before, after, b, i, o);
    TagsAfterMerge(tags, b, i, o);
  }

  lemma MergeKeeps(s: seq<int>, t: seq<int>, u: seq<int>, lists: Lists, b: Blocks, c: Blocks, x: int)
    requires Kept(s, t, b) && OnlyLinks(t, u, lists) && Listed(lists, c, x) && Tiled(c, MAX_ORDER)
    requires LiveOf(c) == LiveOf(b)
    ensures Kept(s, u, c)
  {
    hide Kept, OnlyLinks, Listed, Tiled;
    LinksKeep(t, u, lists, c, x);
    SameLive(s, t, b, c);
    KeptThen(s, t, u, c, c);
  }

  lemma SameLive(s: seq<int>, t: seq<int>, b: Blocks, c: Blocks)
    requires Kept(s, t, b) && LiveOf(c) == LiveOf(b)
    ensures Kept(s, t, c)
  {
    assert forall h <- LiveOf(c) :: h in LiveOf(b);
    InUseGrows(c, b);
  }

  lemma WithoutMembers(l: seq<nat>, k: nat, f: nat)
    requires k < |l| && f != l[k]
    ensures f in l <==> f in Without(l, k)
  {
    var n := Without(l, k);
    if i :| 0 <= i < |l| && l[i] == f { assert n[if i < k then i else i - 1] == f; }
    if i :| 0 <= i < |n| && n[i] == f { assert l[if i < k then i else i + 1] == f; }
  }

  // An address that buddy_free accepts.
  predicate IsFrameAddr(addr: nat) {
    HEAP_PHYS <= addr < HEAP_PHYS + HEAP_SIZE && addr % FRAME_SIZE == 0
  }

  predicate InHeap(addr: nat) {
    HEAP_PHYS <= addr < HEAP_PHYS + HEAP_SIZE
  }

  // Whole frames for a number of bytes; the sum wraps around in 64 bits.
  function PagesFor(size: nat): nat {
    ((size + FRAME_SIZE - 1) % TWO64) / FRAME_SIZE
  }

  // 2^order is the least power of two that is no less than pages.
  ghost predicate IsOrderFor(order: nat, pages: nat) {
    Pow2(order) >= pages && (order > 0 ==> Pow2(order - 1) < pages)
  }

  method OrderFor(pages: nat) returns (order: nat)
    ensures IsOrderFor(order, pages)
  {
    order := 0;
    while Pow2(order) < pages
      invariant order > 0 ==> Pow2(order - 1) < pages
      decreases pages - Pow2(order)
    {
      order := order + 1;
    }
  }

  lemma OrderUnique(pages: nat, o: nat, p: nat)
    requires IsOrderFor(o, pages) && IsOrderFor(p, pages)
    ensures o == p
  {
    if o < p { Pow2Monotone(o, p - 1); }
    if p < o { Pow2Monotone(p, o - 1); }
  }

  lemma ListedAfterSplit(before: Lists, b: Blocks, h: nat, o: nat)
    requires Listed(before, b, -1) && h in b && b[h].Live? && b[h].order == o + 1 <= MAX_ORDER
    requires Flip(h, o) !in b
    ensures Listed(Pushed(before, o, Flip(h, o)), Halved(b, h), -1)
  {
    var g := Flip(h, o);
    var after, c := Pushed(before, o, g), Halved(b, h);
    forall p, f: nat | 0 <= p <= MAX_ORDER
      ensures f in after[p] <==> FreeAt(c, f, p)
    {
      assert f in before[p] <==> FreeAt(b, f, p);
    }
  }

  // p is the least order, from `order` up, whose list is not empty.
  ghost predicate FirstList(lists: Lists, order: nat, p: nat) {
    && |lists| == MAX_ORDER + 1
    && order <= p <= MAX_ORDER && lists[p] != []
    && forall q | order <= q < p :: lists[q] == []
  }

  // h is the first block on that list.
  ghost predicate FirstFit(lists: Lists, order: nat, h: nat) {
    exists p: nat :: FirstList(lists, order, p) && lists[p][0] == h
  }

  // In terms of the blocks: h is a free block that is large enough, and no free block
  // that is large enough is smaller.
  ghost predicate SmallestFit(b: Blocks, order: nat, h: nat) {
    h in b && b[h].Free? && order <= b[h].order
    && forall f <- b :: b[f].Free? && order <= b[f].order ==> b[h].order <= b[f].order
  }

  lemma FirstIsSmallest(lists: Lists, b: Blocks, order: nat, h: nat)
    requires Listed(lists, b, -1) && FirstFit(lists, order, h)
    ensures SmallestFit(b, order, h)
  {
    var p: nat :| FirstList(lists, order, p) && lists[p][0] == h;
    assert h in lists[p] && FreeAt(b, h, p);
    forall f <- b ensures b[f].Free? && order <= b[f].order ==> p <= b[f].order {
      var o := b[f].order;
      assert o <= MAX_ORDER ==> (f in lists[o] <==> FreeAt(b, f, o));
    }
  }

  // From b to c the only change to the allocated blocks is that k, at h, is new.
  ghost predicate Served(b: Blocks, c: Blocks, h: nat, k: Blk) {
    h !in LiveOf(b) && LiveOf(c) == LiveOf(b)[h := k]
  }

  lemma ServedIncludes(b: Blocks, c: Blocks, h: nat, k: Blk)
    requires Served(b, c, h, k)
    ensures Includes(c, b) && h in c && c[h] == k && k.Live?
  {
    assert h in LiveOf(c);
    forall g | g in LiveOf(b) ensures g in c && c[g] == b[g] {
      assert g in LiveOf(c);
    }
  }

  lemma ServedHalved(b: Blocks, c: Blocks, h: nat, o: nat, user: bool)
    requires Canonical(c, MAX_ORDER) && Served(b, c, h, Live(o + 1, user)) && o < MAX_ORDER
    ensures h in c && c[h] == Live(o + 1, user) && Flip(h, o) < FRAME_COUNT && Flip(h, o) !in c
    ensures Canonical(Halved(c, h), MAX_ORDER) && Served(b, Halved(c, h), h, Live(o, user))
    ensures Includes(Halved(c, h), b) && h in Halved(c, h) && Halved(c, h)[h].Live?
  {
    hide Tiled, Coalesced, CoalescedExcept, Includes, Flip, Pow2;
    ServedIncludes(b, c, h, Live(o + 1, user));
    GiveUpperHalf(c, MAX_ORDER, h);
    FrameCountIsPow2();
    ServedIncludes(b, Halved(c, h), h, Live(o, user));
  }

  // Freeing the block just allocated restores the state, list order aside.
  lemma FreeUndoesAlloc(b: Blocks, c: Blocks, d: Blocks, h: nat, k: Blk)
    requires Canonical(b, MAX_ORDER) && Canonical(d, MAX_ORDER)
    requires Served(b, c, h, k) && LiveOf(d) == LiveOf(c) - {h}
    ensures d == b
  {
    assert LiveOf(d) == LiveOf(b);
    LiveDeterminesAll(b, d, MAX_ORDER);
  }

  // What the head of a list that is not empty points to.
  lemma FirstBlock(next: seq<int>, prev: seq<int>, area: seq<int>, lists: Lists, b: Blocks, p: nat)
    requires Linked(next, prev, area, lists) && Listed(lists, b, -1) && p <= MAX_ORDER && lists[p] != []
    ensures var h := lists[p][0];
            h in lists[p] && FreeAt(b, h, p) && h < FRAME_COUNT && area[p] >= 0
            && AddrToFrame(area[p]) == h && IsLink(next[h])
  {
    FirstIsFrame(next, prev, area, lists, p);
    assert ListAt(next, prev, area[p], lists[p]);
    assert NodeAt(next, prev, lists[p], 0);
    assert 1 < |lists[p]| ==> NodeAt(next, prev, lists[p], 1);
    AddrRoundTrip(lists[p][0]);
    assert lists[p][0] in lists[p];
  }

  lemma NoFit(lists: Lists, b: Blocks, order: nat)
    requires Listed(lists, b, -1) && Tiled(b, MAX_ORDER)
    requires forall q | order <= q <= MAX_ORDER :: lists[q] == []
    ensures !HasFit(b, order)
  {
    forall h | h in b && b[h].Free? ensures b[h].order < order {
      assert Placed(h, b[h].order, MAX_ORDER);
      assert h in lists[b[h].order];
    }
  }

  lemma ListedAfterTake(before: Lists, after: Lists, b: Blocks, h: nat, o: nat, user: bool)
    requires Listed(before, b, -1) && o <= MAX_ORDER && FreeAt(b, h, o)
    requires exists k :: 0 <= k < |before[o]| && before[o][k] == h && after == before[o := Without(before[o], k)]
    requires !OnSome(after, h)
    ensures Listed(after, b[h := Live(o, user)], -1)
  {
    var k :| 0 <= k < |before[o]| && before[o][k] == h && after == before[o := Without(before[o], k)];
    forall p, f: nat | 0 <= p <= MAX_ORDER
      ensures f in after[p] <==> FreeAt(b[h := Live(o, user)], f, p)
    {
      assert f in before[p] <==> FreeAt(b, f, p);
      if p == o && f != h { WithoutMembers(before[o], k, f); }
    }
  }

  // The blocks of b are still allocated, as they were, in c.
  ghost predicate Includes(c: Blocks, b: Blocks) {
    forall g <- LiveOf(b) :: g in c && c[g] == b[g]
  }

  lemma TagsAfterSplit(tags: seq<Tag>, b: Blocks, h: nat, o: nat)
    requires TagsOk(tags, b, h) && h in b && b[h].Live? && b[h].order == o + 1
    requires Flip(h, o) < FRAME_COUNT
    ensures TagsOk(tags[Flip(h, o) := Tag(false, false, o)], Halved(b, h), h)
  {
  }

  ghost function InitialLists(): Lists {
    seq(MAX_ORDER + 1, o => if o == MAX_ORDER then [0] else [])
  }

  lemma InitialState(next: seq<int>, prev: seq<int>, tags: seq<Tag>, area: seq<int>)
    requires |next| == |prev| == |tags| == FRAME_COUNT && |area| == MAX_ORDER + 1
    requires next[0] == prev[0] == NULL && area[MAX_ORDER] == HEAP_PHYS
    requires forall o | 0 <= o < MAX_ORDER :: area[o] == NULL
    requires tags[0] == Tag(false, false, MAX_ORDER) && forall f | 0 < f < FRAME_COUNT :: !tags[f].alloc
    ensures var b: Blocks := map[0 := Free(MAX_ORDER)];
            && Canonical(b, MAX_ORDER) && TagsOk(tags, b, -1) && Listed(InitialLists(), b, -1)
            && Linked(next, prev, area, InitialLists())
  {
    WholeIsCanonical(MAX_ORDER);
    var l := InitialLists();
    assert l[MAX_ORDER] == [0] && forall o | 0 <= o < MAX_ORDER :: l[o] == [];
    assert ListAt(next, prev, HEAP_PHYS, [0]) by { assert NodeAt(next, prev, [0], 0); }
  }

  lemma FrameOfAddr(addr: nat)
    requires addr < TWO64 && addr % FRAME_SIZE == 0
    ensures IsFrameAddr(addr) <==> AddrToFrame(addr) < FRAME_COUNT
    ensures IsFrameAddr(addr) ==> addr == FrameToAddr(AddrToFrame(addr))
  {
  }

  // FRAME_ALLOC is set exactly at the heads of live blocks.
  lemma TagTells(tags: seq<Tag>, b: Blocks, f: nat)
    requires TagsOk(tags, b, -1) && f < FRAME_COUNT
    ensures tags[f].alloc <==> f in LiveOf(b)
    ensures f in LiveOf(b) ==> TagOf(LiveOf(b)[f]) == tags[f]
  {
  }

  // The kernel's part of a map of live blocks, and that together with the user
  // blocks from frame i on.
  ghost function KernelOf(live: Blocks): Blocks {
    map h | h in live && !live[h].Free? && !live[h].user :: live[h]
  }

  ghost function KeepFrom(live: Blocks, i: nat): Blocks {
    map h | h in live && (h >= i || (!live[h].Free? && !live[h].user)) :: live[h]
  }

  lemma ScanStarts(b: Blocks)
    ensures KeepFrom(LiveOf(b), 0) == LiveOf(b) && forall h <- LiveOf(b) :: LiveOf(b)[h].Live?
  {
  }

  // One step of the scan forgets one user block, and only that.
  lemma ScanStep(live: Blocks, b: Blocks, i: nat)
    requires Tiled(b, MAX_ORDER) && LiveOf(b) == KeepFrom(live, i)
    requires forall h <- live :: live[h].Live?
    ensures if i in LiveOf(b) && LiveOf(b)[i].user
            then KeepFrom(live, i + Pow2(LiveOf(b)[i].order)) == LiveOf(b) - {i}
            else KeepFrom(live, i + 1) == LiveOf(b)
  {
    if i in LiveOf(b) && LiveOf(b)[i].user {
      forall h | h in LiveOf(b) && h > i ensures h >= i + Pow2(b[i].order) {
        assert Apart(b, i, h);
      }
    }
  }

  lemma ScanEnds(b: Blocks, i: nat)
    requires Tiled(b, MAX_ORDER) && i >= FRAME_COUNT
    ensures KeepFrom(LiveOf(b), i) == KernelOf(LiveOf(b))
  {
    FrameCountIsPow2();
    forall h | h in b ensures h < i { assert Placed(h, b[h].order, MAX_ORDER); }
  }

  lemma StoreKeepsLists(next: seq<int>, prev: seq<int>, area: seq<int>, lists: Lists, b: Blocks, f: nat, v: int)
    requires Linked(next, prev, area, lists) && Listed(lists, b, -1) && Tiled(b, MAX_ORDER)
    requires f < FRAME_COUNT && InUse(b, f)
    ensures Linked(next[f := v], prev, area, lists) && Linked(next, prev[f := v], area, lists)
  {
    if OnSome(lists, f) { FreeHeadNotInUse(b, MAX_ORDER, f); }
    StoreElsewhere(next, prev, area, lists, f, v);
  }

  class Heap {
    const next: array<int>
    const prev: array<int>
    const tags: array<Tag>
    const area: array<int>
    ghost var blocks: Blocks
    ghost var lists: Lists

    ghost predicate Shape() {
      && next.Length == prev.Length == tags.Length == FRAME_COUNT
      && area.Length == MAX_ORDER + 1
      && next != prev && next != area && prev != area
    }

    // Everything but coalescing, with frame x taken out of the free lists.
    ghost predicate Almost(x: int, y: int)
      reads this, next, prev, tags, area
    {
      && Shape()
      && Tiled(blocks, MAX_ORDER)
      && TagsOk(tags[..], blocks, y)
      && Listed(lists, blocks, x)
      && Linked(next[..], prev[..], area[..], lists)
    }

    ghost predicate Valid()
      reads this, next, prev, tags, area
    {
      Almost(-1, -1) && Coalesced(blocks, MAX_ORDER)
    }

    lemma Sizes()
      requires Valid()
      ensures next.Length == prev.Length == tags.Length == FRAME_COUNT && next != prev
      ensures Canonical(blocks, MAX_ORDER)
    {
    }

    lemma TagAt(f: nat)
      requires Valid() && (f < FRAME_COUNT || f in LiveBlocks())
      ensures tags.Length == FRAME_COUNT > f
      ensures tags[f].alloc <==> f in LiveBlocks()
      ensures f in LiveBlocks() ==> LiveBlocks()[f].order == tags[f].order <= MAX_ORDER
      ensures f in LiveBlocks() ==> LiveBlocks()[f].Live? && LiveBlocks()[f].user == tags[f].user
    {
      FrameCountIsPow2();
      if f in blocks { assert Placed(f, blocks[f].order, MAX_ORDER); }
      TagTells(tags[..], blocks, f);
    }

    ghost function LiveBlocks(): Blocks
      reads this
    {
      LiveOf(blocks)
    }

    // list_add(&free_area[o], frame x)
    method ListAdd(o: nat, x: nat)
      requires Shape() && Linked(next[..], prev[..], area[..], lists)
      requires o <= MAX_ORDER && x < FRAME_COUNT && !OnSome(lists, x)
      modifies next, prev, area, `lists
      ensures Linked(next[..], prev[..], area[..], lists)
      ensures lists == Pushed(old(lists), o, x)
      ensures OnlyLinks(old(next[..]), next[..], lists) && OnlyLinks(old(prev[..]), prev[..], lists)
    {
      AddLinked(next[..], prev[..], area[..], lists, o, x);
      ghost var next', prev' := AddNext(next[..], area[o], x), AddPrev(prev[..], lists[o], x);
      if lists[o] != [] { FirstIsFrame(next[..], prev[..], area[..], lists, o); }
      assert ListAt(next[..], prev[..], area[o], lists[o]);
      next[x] := area[o];
      prev[x] := NULL;
      if area[o] != NULL {
        prev[AddrToFrame(area[o])] := FrameToAddr(x);
      }
      area[o] := FrameToAddr(x);
      assert next[..] == next' && prev[..] == prev';
      lists := Pushed(lists, o, x);
    }

    // list_remove(&free_area[o], frame x)
    method ListRemove(o: nat, x: nat)
      requires Shape() && Linked(next[..], prev[..], area[..], lists)
      requires o <= MAX_ORDER && x in lists[o]
      modifies next, prev, area, `lists
      ensures Linked(next[..], prev[..], area[..], lists)
      ensures exists k :: 0 <= k < |old(lists)[o]| && old(lists)[o][k] == x
                && lists == old(lists)[o := Without(old(lists)[o], k)]
      ensures !OnSome(lists, x) && x < FRAME_COUNT
      ensures OnlyLinks(old(next[..]), next[..], lists) && OnlyLinks(old(prev[..]), prev[..], lists)
      ensures next[x] == old(next[x])
    {
      ghost var l := lists[o];
      ghost var k :| 0 <= k < |l| && l[k] == x;
      RemoveLinked(next[..], prev[..], area[..], lists, o, k);
      RemoveOnlyLinks(next[..], prev[..], lists, o, k);
      Neighbours(next[..], prev[..], area[o], l, k);
      ghost var next', prev' := RemoveNext(next[..], l, k), RemovePrev(prev[..], l, k);
      ghost var area' := area[..][o := RemoveHead(next[..], area[o], l, k)];
      if prev[x] != NULL {
        next[AddrToFrame(prev[x])] := next[x];
      } else {
        area[o] := next[x];
      }
      assert next[..] == next' && area[..] == area';
      if next[x] != NULL {
        prev[AddrToFrame(next[x])] := prev[x];
      }
      assert next[..] == next' && prev[..] == prev' && area[..] == area';
      lists := lists[o := Without(l, k)];
    }

    // One turn of the merge loop: unlink the free buddy and retag the joint block.
    method MergeOnce(idx: nat, order: nat, buddy: nat, ghost next0: seq<int>, ghost prev0: seq<int>)
      requires Almost(idx, -1) && CoalescedExcept(blocks, MAX_ORDER, idx) && order < MAX_ORDER
      requires FreeAt(blocks, idx, order) && buddy == Flip(idx, order) && FreeAt(blocks, buddy, order)
      requires Kept(next0, next[..], blocks) && Kept(prev0, prev[..], blocks)
      modifies this, next, prev, tags, area
      ensures FreeAt(blocks, Lower(idx, buddy), order + 1)
      ensures Almost(Lower(idx, buddy), -1) && CoalescedExcept(blocks, MAX_ORDER, Lower(idx, buddy))
      ensures LiveBlocks() == old(LiveBlocks())
      ensures Kept(next0, next[..], blocks) && Kept(prev0, prev[..], blocks)
    {
      hide Tiled, CoalescedExcept, TagsOk, Listed, Linked, OnlyLinks, Kept, LiveOf, Merged, FreeAt, Without, OnSome;
      ghost var before, b := lists, blocks;
      BuddyListed(lists, b, idx, order);
      ListRemove(order, buddy);
      MergeState(before, lists, b, tags[..], idx, order);
      blocks := Merged(b, idx, order);
      MergeKeeps(next0, old(next[..]), next[..], lists, b, blocks, Lower(idx, buddy));
      MergeKeeps(prev0, old(prev[..]), prev[..], lists, b, blocks, Lower(idx, buddy));
      tags[if idx < buddy then idx else buddy] := Tag(false, false, order + 1);
      assert tags[..] == old(tags[..])[Lower(idx, buddy) := Tag(false, false, order + 1)];
    }

    // The loop that buddy_free and munmap_all_user share: join frame x's block
    // with its buddy for as long as that is free, then list the result.
    method MergeUp(x: nat, o: nat)
      requires Almost(x, -1) && CoalescedExcept(blocks, MAX_ORDER, x) && FreeAt(blocks, x, o)
      modifies this, next, prev, tags, area
      ensures Valid() && LiveBlocks() == old(LiveBlocks())
      ensures Kept(old(next[..]), next[..], blocks) && Kept(old(prev[..]), prev[..], blocks)
    {
      hide Linked, CoalescedExcept, Listed;
      var idx: nat, order: nat := x, o;
      assert Placed(x, o, MAX_ORDER) by { assert Placed(x, blocks[x].order, MAX_ORDER); }
      while order < MAX_ORDER
        invariant Almost(idx, -1) && CoalescedExcept(blocks, MAX_ORDER, idx) && FreeAt(blocks, idx, order)
        invariant order <= MAX_ORDER
        invariant LiveBlocks() == old(LiveBlocks())
        invariant Kept(old(next[..]), next[..], blocks) && Kept(old(prev[..]), prev[..], blocks)
        decreases MAX_ORDER - order
      {
        var buddy := Xor(idx, Pow2(order));
        XorFlips(idx, order);
        BuddyTag(tags[..], blocks, idx, order);
        if !tags[buddy].alloc && tags[buddy].order == order {
          MergeOnce(idx, order, buddy, old(next[..]), old(prev[..]));
          idx := if idx < buddy then idx else buddy;
          order := order + 1;
        } else {
          break;
        }
      }
      InsertBlock(idx, order, old(next[..]), old(prev[..]));
    }

    // list_add of the finished block.
    method InsertBlock(idx: nat, order: nat, ghost next0: seq<int>, ghost prev0: seq<int>)
      requires Almost(idx, -1) && CoalescedExcept(blocks, MAX_ORDER, idx) && FreeAt(blocks, idx, order)
      requires order == MAX_ORDER || !FreeAt(blocks, Flip(idx, order), order)
      requires Kept(next0, next[..], blocks) && Kept(prev0, prev[..], blocks)
      modifies this, next, prev, tags, area
      ensures Valid() && blocks == old(blocks)
      ensures Kept(next0, next[..], blocks) && Kept(prev0, prev[..], blocks)
    {
      MergeEnds(blocks, MAX_ORDER, idx, order);
      FrameCountIsPow2();
      assert Placed(idx, blocks[idx].order, MAX_ORDER);
      ghost var before := lists;
      ListAdd(order, idx);
      ListedAfterInsert(before, blocks, idx, order);
      LinksKeep(old(next[..]), next[..], lists, blocks, -1);
      LinksKeep(old(prev[..]), prev[..], lists, blocks, -1);
      KeptThen(next0, old(next[..]), next[..], blocks, blocks);
      KeptThen(prev0, old(prev[..]), prev[..], blocks, blocks);
    }

    // buddy_free. Callers pass a live block with its order; other addresses are ignored.
    method BuddyFree(addr: nat, order: int)
      requires Valid()
      requires IsFrameAddr(addr) && 0 <= order <= MAX_ORDER
        ==> AddrToFrame(addr) in LiveBlocks() && order == LiveBlocks()[AddrToFrame(addr)].order
      modifies this, next, prev, tags, area
      ensures Valid()
      ensures LiveBlocks() == if IsFrameAddr(addr) && 0 <= order <= MAX_ORDER
                        then old(LiveBlocks()) - {AddrToFrame(addr)} else old(LiveBlocks())
      ensures Kept(old(next[..]), next[..], blocks) && Kept(old(prev[..]), prev[..], blocks)
    {
      if addr == NULL || order < 0 || order > MAX_ORDER { return; }
      if addr < HEAP_PHYS || addr >= HEAP_PHYS + HEAP_SIZE { return; }
      if addr % FRAME_SIZE != 0 { return; }
      var idx := AddrToFrame(addr);
      FreeHead(idx, order, next[..], prev[..]);
    }

    // Mark the block free, merge it with its buddies and list the result.
    method FreeHead(idx: nat, order: nat, ghost next0: seq<int>, ghost prev0: seq<int>)
      requires Valid() && idx in LiveBlocks() && order == LiveBlocks()[idx].order
      requires Kept(next0, next[..], blocks) && Kept(prev0, prev[..], blocks)
      modifies this, next, prev, tags, area
      ensures Valid() && LiveBlocks() == old(LiveBlocks()) - {idx}
      ensures Kept(next0, next[..], blocks) && Kept(prev0, prev[..], blocks)
    {
      Release(idx, order);
      MergeUp(idx, order);
      KeptAfterFree(next0, old(next[..]), next[..], old(blocks), blocks, idx);
      KeptAfterFree(prev0, old(prev[..]), prev[..], old(blocks), blocks, idx);
    }

    // frames[idx] = order: the block is free, and not yet on a list.
    method Release(idx: nat, order: nat)
      requires Valid() && idx in LiveBlocks() && order == LiveBlocks()[idx].order
      modifies this, tags
      ensures blocks == old(blocks)[idx := Free(order)]
      ensures Almost(idx, -1) && CoalescedExcept(blocks, MAX_ORDER, idx)
      ensures LiveBlocks() == old(LiveBlocks()) - {idx}
    {
      hide Linked, CoalescedExcept, Coalesced, Tiled;
      ReleaseBlock(blocks, MAX_ORDER, idx);
      FrameCountIsPow2();
      assert Placed(idx, blocks[idx].order, MAX_ORDER);
      tags[idx] := Tag(false, false, order);
      blocks := blocks[idx := Free(order)];
      assert Listed(lists, blocks, idx);
    }

    // One turn of the split loop of buddy_alloc: block h keeps its lower half.
    method SplitOnce(h: nat, o: nat, user: bool, ghost b: Blocks, ghost next0: seq<int>, ghost prev0: seq<int>)
      requires Almost(-1, h) && Coalesced(blocks, MAX_ORDER)
      requires Served(b, blocks, h, Live(o + 1, user)) && o < MAX_ORDER && h < FRAME_COUNT
      requires Kept(next0, next[..], b) && Kept(prev0, prev[..], b)
      modifies this, next, prev, tags, area
      ensures Almost(-1, h) && Coalesced(blocks, MAX_ORDER)
      ensures Served(b, blocks, h, Live(o, user))
      ensures Kept(next0, next[..], b) && Kept(prev0, prev[..], b) && next[h] == old(next[h])
    {
      var g := Xor(h, Pow2(o));
      XorFlips(h, o);
      ghost var before, c := lists, blocks;
      ServedHalved(b, c, h, o, user);
      TagsAfterSplit(tags[..], c, h, o);
      ListedAfterSplit(before, c, h, o);
      assert !OnSome(lists, g);
      tags[g] := Tag(false, false, o);
      ListAdd(o, g);
      blocks := Halved(c, h);
      SplitKeeps(old(next[..]), next[..], old(prev[..]), prev[..], b, h, next0, prev0);
    }

    lemma SplitKeeps(n: seq<int>, n': seq<int>, p: seq<int>, p': seq<int>, b: Blocks, h: nat, next0: seq<int>,
                     prev0: seq<int>)
      requires Listed(lists, blocks, -1) && Tiled(blocks, MAX_ORDER)
      requires OnlyLinks(n, n', lists) && OnlyLinks(p, p', lists)
      requires Kept(next0, n, b) && Kept(prev0, p, b)
      requires Includes(blocks, b) && h in blocks && blocks[h].Live? && h < |n|
      ensures Kept(next0, n', b) && Kept(prev0, p', b) && n[h] == n'[h]
    {
      LinksKeep(n, n', lists, blocks, -1);
      LinksKeep(p, p', lists, blocks, -1);
      KeptThen(next0, n, n', b, blocks);
      KeptThen(prev0, p, p', b, blocks);
      assert Covers(blocks, h, h);
    }

    // list_remove of the block that the search found.
    method TakeFirst(p: nat, user: bool, ghost order: nat) returns (h: nat)
      requires Valid() && FirstList(lists, order, p)
      modifies this, next, prev, area
      ensures FirstFit(old(lists), order, h) && h < FRAME_COUNT
      ensures Served(old(blocks), blocks, h, Live(p, user))
      ensures Almost(-1, h) && Coalesced(blocks, MAX_ORDER)
      ensures Kept(old(next[..]), next[..], old(blocks)) && Kept(old(prev[..]), prev[..], old(blocks))
      ensures IsLink(next[h])
    {
      hide Tiled, Coalesced, CoalescedExcept, Kept, OnlyLinks, Linked, OnSome;
      ghost var before, b := lists, blocks;
      FirstBlock(next[..], prev[..], area[..], lists, blocks, p);
      h := AddrToFrame(area[p]);
      TakeBlock(b, MAX_ORDER, h, user);
      ListRemove(p, h);
      blocks := b[h := Live(p, user)];
      ListedAfterTake(before, lists, b, h, p, user);
      LinksKeep(old(next[..]), next[..], lists, blocks, -1);
      LinksKeep(old(prev[..]), prev[..], lists, blocks, -1);
      KeptThen(old(next[..]), old(next[..]), next[..], b, blocks);
      KeptThen(old(prev[..]), old(prev[..]), prev[..], b, blocks);
    }

    // buddy_alloc. The ghost result h is the frame that r points to.
    method BuddyAlloc(order: int, user: bool) returns (r: nat, ghost h: nat)
      requires Valid()
      modifies this, next, prev, tags, area
      ensures Valid()
      // It fails exactly when no aligned run of 2^order frames is free.
      ensures r == NULL <==> order < 0 || order > MAX_ORDER || !HasRun(old(blocks), MAX_ORDER, order)
      ensures r == NULL ==> blocks == old(blocks) && lists == old(lists)
      // Otherwise the first block on the first sufficient list begins the new one.
      ensures r != NULL ==> h < FRAME_COUNT && r == FrameToAddr(h) && FirstFit(old(lists), order, h)
      ensures r != NULL ==> SmallestFit(old(blocks), order, h)
      ensures r != NULL ==> Served(old(blocks), blocks, h, Live(order, user)) && IsLink(next[h])
      ensures Kept(old(next[..]), next[..], old(blocks)) && Kept(old(prev[..]), prev[..], old(blocks))
    {
      if order < 0 || order > MAX_ORDER { return NULL, 0; }
      FitIffRun(blocks, MAX_ORDER, order);
      var found := FindOrder(order);
      if found < 0 { return NULL, 0; }
      var block := TakeFirst(found, user, order);
      h := block;
      FirstIsSmallest(old(lists), old(blocks), order, h);
      Split(block, order, found, user, old(blocks), old(next[..]), old(prev[..]));
      ServedIncludes(old(blocks), blocks, h, Live(order, user));
      tags[block] := Tag(true, user, order);
      r := FrameToAddr(block);
    }

    // The split loop: give back upper halves until block h has the order asked for.
    method Split(h: nat, order: nat, found: nat, user: bool, ghost b: Blocks, ghost next0: seq<int>,
                 ghost prev0: seq<int>)
      requires order <= found <= MAX_ORDER && h < FRAME_COUNT
      requires Served(b, blocks, h, Live(found, user))
      requires Almost(-1, h) && Coalesced(blocks, MAX_ORDER)
      requires Kept(next0, next[..], b) && Kept(prev0, prev[..], b)
      modifies this, next, prev, tags, area
      ensures Served(b, blocks, h, Live(order, user))
      ensures Almost(-1, h) && Coalesced(blocks, MAX_ORDER)
      ensures Kept(next0, next[..], b) && Kept(prev0, prev[..], b) && next[h] == old(next[h])
    {
      hide Tiled, TagsOk, Listed, Linked, Coalesced, CoalescedExcept, Served, Kept;
      var o: nat := found;
      while o > order
        invariant order <= o <= found
        invariant Almost(-1, h) && Coalesced(blocks, MAX_ORDER)
        invariant Served(b, blocks, h, Live(o, user))
        invariant Kept(next0, next[..], b) && Kept(prev0, prev[..], b) && next[h] == old(next[h])
      {
        var half := o - 1;
        SplitOnce(h, half, user, b, next0, prev0);
        o := half;
      }
    }

    // The first order from `order` up whose list is not empty.
    method FindOrder(order: nat) returns (found: int)
      requires Valid() && order <= MAX_ORDER
      ensures found < 0 ==> !HasFit(blocks, order)
      ensures found >= 0 ==> HasFit(blocks, order) && FirstList(lists, order, found)
    {
      found := -1;
      var o := order;
      while o <= MAX_ORDER
        invariant order <= o <= MAX_ORDER + 1
        invariant forall q | order <= q < o :: lists[q] == []
      {
        assert ListAt(next[..], prev[..], area[o], lists[o]);
        if area[o] != NULL {
          FirstBlock(next[..], prev[..], area[..], lists, blocks, o);
          return o;
        }
        o := o + 1;
      }
      NoFit(lists, blocks, order);
    }

    // memory_init, for the buddy part: one free block of the maximum order.
    constructor ()
      ensures Valid() && blocks == map[0 := Free(14)] && next.Length == 16384
      ensures fresh(next) && fresh(prev) && fresh(tags) && fresh(area)
    {
      var n, p, t, a := new int[FRAME_COUNT], new int[FRAME_COUNT], new Tag[FRAME_COUNT], new int[MAX_ORDER + 1];
      var i := 0;
      while i <= MAX_ORDER
        invariant 0 <= i <= MAX_ORDER + 1
        invariant forall o | 0 <= o < i :: a[o] == NULL
      {
        a[i] := NULL;
        i := i + 1;
      }
      i := 0;
      while i < FRAME_COUNT
        invariant 0 <= i <= FRAME_COUNT
        invariant forall f | 0 <= f < i :: t[f] == Tag(false, false, 0)
        invariant forall o | 0 <= o <= MAX_ORDER :: a[o] == NULL
      {
        t[i] := Tag(false, false, 0);
        i := i + 1;
      }
      n[0], p[0] := NULL, NULL;
      a[MAX_ORDER] := HEAP_PHYS;
      t[0] := Tag(false, false, MAX_ORDER);
      next, prev, tags, area := n, p, t, a;
      blocks := map[0 := Free(MAX_ORDER)];
      lists := InitialLists();
      InitialState(n[..], p[..], t[..], a[..]);
    }

    // munmap_user: frees the block that begins at addr, if there is one.
    method MunmapUser(addr: nat, length: nat) returns (r: int)
      requires Valid() && addr < TWO64
      modifies this, next, prev, tags, area
      ensures Valid()
      ensures r == if addr == NULL || IsFrameAddr(addr) then 0 else -1
      ensures LiveBlocks() == if IsFrameAddr(addr) then old(LiveBlocks()) - {AddrToFrame(addr)} else old(LiveBlocks())
      ensures Kept(old(next[..]), next[..], blocks) && Kept(old(prev[..]), prev[..], blocks)
    {
      if addr == NULL { return 0; }
      if addr % FRAME_SIZE != 0 { return -1; }
      var idx := AddrToFrame(addr);
      FrameOfAddr(addr);
      if idx >= FRAME_COUNT { return -1; }
      if !tags[idx].alloc {
        TagTells(tags[..], blocks, idx);
        return 0;
      }
      TagTells(tags[..], blocks, idx);
      BuddyFree(addr, tags[idx].order);
      return 0;
    }

    // munmap_all_user: one forward scan that frees, and merges, as it goes.
    method MunmapAllUser()
      requires Valid()
      modifies this, next, prev, tags, area
      ensures Valid()
      ensures LiveBlocks() == KernelOf(old(LiveBlocks()))
      ensures KernelOf(old(LiveBlocks())) == map[] ==> blocks == map[0 := Free(MAX_ORDER)]
      ensures Kept(old(next[..]), next[..], blocks) && Kept(old(prev[..]), prev[..], blocks)
    {
      hide Heap.Valid, Tiled, Kept, KeepFrom, LiveOf;
      ghost var b0 := blocks;
      Sizes();
      ScanStarts(b0);
      KeptSame(next[..], blocks);
      KeptSame(prev[..], blocks);
      var i: nat := 0;
      while i < FRAME_COUNT
        invariant Valid()
        invariant LiveBlocks() == KeepFrom(old(LiveBlocks()), i)
        invariant Kept(old(next[..]), next[..], blocks) && Kept(old(prev[..]), prev[..], blocks)
      {
        Sizes();
        var f := tags[i];
        TagAt(i);
        ScanStep(LiveOf(b0), blocks, i);
        if f.alloc && f.user {
          var order := f.order;
          FreeHead(i, order, old(next[..]), old(prev[..]));
          i := i + Pow2(order);
        } else {
          i := i + 1;
        }
      }
      ScanEnds(b0, i);
      Sizes();
      if LiveBlocks() == map[] { EmptyIsOneBlock(blocks, MAX_ORDER); }
    }

    // mmap_user: a user block of whole frames; h is its first frame.
    method MmapUser(length: nat) returns (r: nat, ghost h: nat, ghost order: nat)
      requires Valid() && length < TWO64
      modifies this, next, prev, tags, area
      ensures Valid()
      ensures IsOrderFor(order, if PagesFor(length) == 0 then 1 else PagesFor(length))
      ensures r == NULL <==> order > MAX_ORDER || !HasRun(old(blocks), MAX_ORDER, order)
      ensures r == NULL ==> blocks == old(blocks)
      ensures r != NULL ==> h < FRAME_COUNT && r == FrameToAddr(h) && Served(old(blocks), blocks, h, Live(order, true))
      ensures r != NULL ==> IsLink(next[h])
      ensures Kept(old(next[..]), next[..], old(blocks)) && Kept(old(prev[..]), prev[..], old(blocks))
    {
      var pages := PagesFor(length);
      if pages == 0 { pages := 1; }
      var o := OrderFor(pages);
      order := o;
      r, h := BuddyAlloc(o, true);
    }

    // Giving every live block back, in any order, leaves one block.
    method FreeEach(heads: seq<nat>)
      requires Valid() && Distinct(heads) && Elements(heads) == LiveBlocks().Keys
      modifies this, next, prev, tags, area
      ensures Valid() && blocks == map[0 := Free(MAX_ORDER)]
    {
      hide Heap.Valid, Heap.Almost, Tiled, Kept;
      var i := 0;
      while i < |heads|
        invariant 0 <= i <= |heads| && Valid()
        invariant forall h: nat :: h in LiveBlocks() <==> h in heads[i..]
      {
        ghost var rest := heads[i..];
        assert heads[i] in rest && rest[1..] == heads[i + 1..];
        assert forall h :: h in rest <==> h == heads[i] || h in rest[1..];
        TagAt(heads[i]);
        AddrRoundTrip(heads[i]);
        BuddyFree(FrameToAddr(heads[i]), tags[heads[i]].order);
        i := i + 1;
      }
      assert LiveBlocks().Keys == {};
      Sizes();
      EmptyIsOneBlock(blocks, MAX_ORDER);
    }

    // A store by the owner of a block into the first or second word of a frame.
    method Store(f: nat, second: bool, v: int)
      requires Valid() && f < FRAME_COUNT && InUse(blocks, f)
      modifies next, prev
      ensures Valid()
      ensures next[..] == if second then old(next[..]) else old(next[..])[f := v]
      ensures prev[..] == if second then old(prev[..])[f := v] else old(prev[..])
    {
      StoreKeepsLists(next[..], prev[..], area[..], lists, blocks, f, v);
      if second { prev[f] := v; } else { next[f] := v; }
      assert next[..] == if second then old(next[..]) else old(next[..])[f := v];
      assert prev[..] == if second then old(prev[..])[f := v] else old(prev[..]);
    }
  }
}
