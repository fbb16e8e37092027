/** What one allocation does to the frames in use. */
module Grants {
  import opened Dyadic
  import opened Layout
  import opened Blocks
  import opened BuddyHeap

  // A frame is covered by the new block or as before.
  lemma CoveredSame(b: Blocks, c: Blocks, h: nat, k: Blk, f: nat)
    requires Tiled(b, MAX_ORDER) && Tiled(c, MAX_ORDER) && Served(b, c, h, k) && k.Live?
    requires f < FRAME_COUNT
    ensures InUse(c, f) <==> InUse(b, f) || h <= f < h + Pow2(k.order)
    ensures h <= f < h + Pow2(k.order) ==> !InUse(b, f)
  {
    ServedIncludes(b, c, h, k);
    if g :| Covers(c, g, f) && c[g].Live? {
      assert g in LiveOf(c);
      if g != h { assert g in LiveOf(b); assert Covers(b, g, f); }
    }
    if g :| Covers(b, g, f) && b[g].Live? { ServedApart(b, c, h, k, g, f); }
    if h <= f < h + Pow2(k.order) { assert Covers(c, h, f); }
  }

  // A block that was live covers no frame of the new one.
  lemma ServedApart(b: Blocks, c: Blocks, h: nat, k: Blk, g: nat, f: nat)
    requires Tiled(c, MAX_ORDER) && Served(b, c, h, k) && Covers(b, g, f) && b[g].Live?
    ensures Covers(c, g, f) && InUse(c, f) && !(h <= f < h + Pow2(k.order))
  {
    ServedIncludes(b, c, h, k);
    assert g in LiveOf(b);
    assert Covers(c, g, f) && Apart(c, g, h) && Apart(c, h, g);
  }

  lemma FreeFrames(b: Blocks, g: nat, f: nat)
    requires Tiled(b, MAX_ORDER) && g in b && b[g].Free? && g <= f < g + Pow2(b[g].order)
    ensures f < FRAME_COUNT && !InUse(b, f)
  {
    FrameCountIsPow2();
    assert Placed(g, b[g].order, MAX_ORDER);
    forall x | Covers(b, x, f) ensures b[x].Free? { assert Apart(b, g, x) && Apart(b, x, g); }
  }

  lemma FreeCover(b: Blocks, f: nat) returns (g: nat)
    requires Tiled(b, MAX_ORDER) && f < FRAME_COUNT && !InUse(b, f)
    ensures Covers(b, g, f) && b[g].Free?
  {
    FrameCountIsPow2();
    assert Covered(b, f);
    g :| Covers(b, g, f);
  }
}
