/**
  What follows when munmap_user is given the address of a slab page: the page's
  frame is handed out again while objects in it are still in use.
 */
module PageReuse {
  import opened Dyadic
  import opened Layout
  import opened Blocks
  import opened BuddyHeap
  import opened Slabs
  import opened Kmalloc
  import opened Grants

  // The frames that no block in use covers.
  ghost function IdleFrames(b: Blocks): set<nat> {
    set f: nat | f < FRAME_COUNT && !InUse(b, f)
  }

  // A frame that is idle can be had.
  lemma IdleRun(b: Blocks, f: nat)
    requires f < FRAME_COUNT && !InUse(b, f)
    ensures HasRun(b, MAX_ORDER, 0)
  {
    FrameCountIsPow2();
    assert Placed(f, 0, MAX_ORDER) && Pow2(0) == 1;
    forall k, h | f <= k < f + Pow2(0) && Covers(b, h, k) ensures b[h].Free? { }
    assert Idle(b, f, 0);
  }

  // A block that is gone leaves its first frame idle.
  lemma FreedIdle(b: Blocks, c: Blocks, f: nat)
    requires Tiled(b, MAX_ORDER) && f in LiveOf(b) && LiveOf(c) == LiveOf(b) - {f}
    ensures !InUse(c, f)
  {
    forall g | g in LiveOf(c) ensures !Covers(c, g, f) {
      assert g in LiveOf(b);
      assert Apart(b, g, f) && Apart(b, f, g);
    }
    forall g: nat ensures !(Covers(c, g, f) && c[g].Live?) { assert g in LiveOf(c) <==> g in c && c[g].Live?; }
  }

  // One more frame is in use, and the others are as before.
  lemma OneTaken(b: Blocks, c: Blocks, h: nat, f: nat)
    requires Canonical(b, MAX_ORDER) && Canonical(c, MAX_ORDER) && Served(b, c, h, Live(0, false))
    requires h < FRAME_COUNT && f < FRAME_COUNT && !InUse(b, f)
    ensures h != f ==> !InUse(c, f)
    ensures IdleFrames(c) < IdleFrames(b)
  {
    hide InUse, Tiled, Coalesced, CoalescedExcept, Served;
    assert Pow2(0) == 1;
    forall k: nat | k < FRAME_COUNT ensures InUse(c, k) <==> InUse(b, k) || k == h {
      CoveredSame(b, c, h, Live(0, false), k);
    }
    CoveredSame(b, c, h, Live(0, false), h);
    assert h in IdleFrames(b) && h !in IdleFrames(c);
  }

  lemma ServedNow(b: Blocks, c: Blocks, h: nat)
    requires Served(b, c, h, Live(0, false))
    ensures h in LiveOf(c) && LiveOf(c)[h] == Live(0, false)
  {
  }

  // An object of the page lies inside it.
  lemma SlotInside(f: nat, c: nat, k: nat)
    requires c < CACHE_COUNT && k < ObjPerSlab(c)
    ensures FrameToAddr(f) <= SlotAddr(f, c, k) && SlotAddr(f, c, k) + ObjSize(c) <= FrameToAddr(f) + FRAME_SIZE
  {
    SlotFits(c, k);
  }

  // After munmap_user of a slab page with an object k in use, in any state,
  // buddy_alloc of single frames comes to that very frame: the new block lies
  // over the object.
  method PageReused(a: Allocator, f: nat, k: nat) returns (q: nat)
    requires a.Valid() && SlotTaken(a.pages, f, k) && f < FRAME_COUNT
    modifies a.Repr()
    ensures a.pages == old(a.pages) && SlotTaken(a.pages, f, k)
    ensures q == FrameToAddr(f) && f in a.heap.LiveBlocks() && a.heap.LiveBlocks()[f] == Live(0, false)
    ensures var c := a.pages[f].cache;
            q <= SlotAddr(f, c, k) && SlotAddr(f, c, k) + ObjSize(c) <= q + FRAME_SIZE
  {
    hide Heap.Valid, State, Tiled, Coalesced, CoalescedExcept, InUse, Served, HasRun, SlotAddr, ObjPerSlab, ObjSize,
         Kept, FirstFit, Shrinks, Granted, ContentsKept, LiveOf;
    ghost var b, live := a.heap.blocks, a.heap.LiveBlocks();
    a.heap.Sizes();
    StateParts(a.Mem(), a.pages, a.chains, live);
    SlotInside(f, a.pages[f].cache, k);
    AddrRoundTrip(f);
    var r := a.MunmapUser(FrameToAddr(f), FRAME_SIZE);
    FreedIdle(b, a.heap.blocks, f);
    q := NULL;
    while q != FrameToAddr(f)
      invariant a.heap.Valid() && a.pages == old(a.pages)
      invariant q != FrameToAddr(f) ==> !InUse(a.heap.blocks, f)
      invariant q == FrameToAddr(f) ==> f in a.heap.LiveBlocks() && a.heap.LiveBlocks()[f] == Live(0, false)
      decreases IdleFrames(a.heap.blocks), q != FrameToAddr(f)
    {
      ghost var before, h := a.heap.blocks, 0;
      a.heap.Sizes();
      IdleRun(before, f);
      q, h := a.heap.BuddyAlloc(0, false);
      a.heap.Sizes();
      OneTaken(before, a.heap.blocks, h, f);
      ServedNow(before, a.heap.blocks, h);
      AddrRoundTrip(h);
    }
  }
}
