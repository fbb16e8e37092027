/**
  The abstract state of the buddy allocator: a map from the first frame of
  every block to the block's order and use. `m` is the maximum order, so the
  heap has 2^m frames.
 */
module Blocks {
  import opened Dyadic

  datatype Blk = Free(order: nat) | Live(order: nat, user: bool)

  type Blocks = map<nat, Blk>

  ghost predicate Covers(b: Blocks, h: nat, f: nat) {
    h in b && h <= f < h + Pow2(b[h].order)
  }

  ghost predicate Covered(b: Blocks, f: nat) {
    exists h :: Covers(b, h, f)
  }

  ghost predicate Placed(h: nat, o: nat, m: nat) {
    o <= m && Aligned(h, o) && h + Pow2(o) <= Pow2(m)
  }

  ghost predicate Apart(b: Blocks, h: nat, g: nat) {
    h in b && g in b && h < g ==> h + Pow2(b[h].order) <= g
  }

  // Every block is aligned to its size, and every frame is in exactly one block.
  ghost predicate Tiled(b: Blocks, m: nat) {
    && (forall h <- b :: Placed(h, b[h].order, m))
    && (forall h: nat, g: nat :: Apart(b, h, g))
    && (forall f: nat :: f < Pow2(m) ==> Covered(b, f))
  }

  ghost predicate FreeAt(b: Blocks, h: nat, o: nat) {
    h in b && b[h] == Free(o)
  }

  // No two buddies are both free, unless one of them is at x.
  ghost predicate CoalescedExcept(b: Blocks, m: nat, x: int) {
    forall h <- b :: h != x && b[h].Free? && b[h].order < m && Flip(h, b[h].order) != x
      ==> !FreeAt(b, Flip(h, b[h].order), b[h].order)
  }

  ghost predicate Coalesced(b: Blocks, m: nat) {
    CoalescedExcept(b, m, -1)
  }

  // What the allocator keeps between calls.
  ghost predicate Canonical(b: Blocks, m: nat) {
    Tiled(b, m) && Coalesced(b, m)
  }

  // No frame of [i, i + 2^o) is allocated.
  ghost predicate Idle(b: Blocks, i: nat, o: nat) {
    forall f, h :: i <= f < i + Pow2(o) && Covers(b, h, f) ==> b[h].Free?
  }

  ghost predicate RunInside(b: Blocks, i: nat, o: nat, h: nat) {
    h in b && b[h].Free? && h <= i && i + Pow2(o) <= h + Pow2(b[h].order)
  }

  ghost function LiveOf(b: Blocks): Blocks {
    map h | h in b && b[h].Live? :: b[h]
  }

  // The block that begins at i ^ 2^o is no larger than 2^o, whatever it is.
  // This is why the merge test may trust the tag it reads.
  lemma BuddyIsHead(b: Blocks, m: nat, i: nat)
    requires Tiled(b, m) && i in b && b[i].order < m
    ensures Flip(i, b[i].order) in b
    ensures b[Flip(i, b[i].order)].order <= b[i].order
  {
    var o := b[i].order;
    var g := Flip(i, o);
    ParentOf(i, o);
    var lo := if i < g then i else g;
    Pow2Monotone(o + 1, m);
    TopAligned(m);
    NestedOrDisjoint(lo, o + 1, 0, m);
    assert Placed(i, o, m);
    assert Covered(b, g);
    var h :| Covers(b, h, g);
    assert Placed(h, b[h].order, m);
    assert Apart(b, h, i) && Apart(b, i, h);
    if b[h].order > o {
      NestedOrDisjoint(lo, o + 1, h, b[h].order);
      assert false;
    }
    NestedOrDisjoint(h, b[h].order, g, o);
  }

  lemma TopAligned(m: nat)
    ensures Aligned(0, m)
  {
    if m > 0 { TopAligned(m - 1); }
  }

  // An aligned run of idle frames lies inside one free block.
  lemma {:induction false} RunInsideBlock(b: Blocks, m: nat, i: nat, o: nat) returns (h: nat)
    requires Canonical(b, m)
    requires Aligned(i, o) && i + Pow2(o) <= Pow2(m) && Idle(b, i, o)
    ensures RunInside(b, i, o, h)
    decreases o
  {
    if o == 0 {
      assert Covered(b, i);
      h :| Covers(b, h, i);
    } else {
      UpperHalf(i, o - 1);
      h := RunInsideBlock(b, m, i, o - 1);
      var g := RunInsideBlock(b, m, i + Pow2(o - 1), o - 1);
      h := JoinHalves(b, m, i, o - 1, h, g);
    }
  }

  // Two idle halves inside free blocks h and g: since the halves are buddies,
  // one of these blocks holds both.
  lemma JoinHalves(b: Blocks, m: nat, i: nat, o: nat, h: nat, g: nat) returns (k: nat)
    requires Canonical(b, m) && Aligned(i, o + 1) && i + Pow2(o + 1) <= Pow2(m)
    requires RunInside(b, i, o, h) && RunInside(b, i + Pow2(o), o, g)
    ensures RunInside(b, i, o + 1, k)
  {
    UpperHalf(i, o);
    BlockAtLeast(b, h, i, o);
    BlockAtLeast(b, g, i + Pow2(o), o);
    assert Placed(h, b[h].order, m) && Placed(g, b[g].order, m);
    assert FreeAt(b, h, o) ==> !FreeAt(b, Flip(h, o), o);
    k := if b[h].order > o then h else g;
    NestedOrDisjoint(i, o + 1, k, b[k].order);
  }

  // A block that contains an aligned run of 2^o frames has order o or more,
  // and begins with it when the order is o.
  lemma BlockAtLeast(b: Blocks, h: nat, i: nat, o: nat)
    requires RunInside(b, i, o, h)
    ensures b[h].order >= o
    ensures b[h].order == o ==> h == i
  {
    if b[h].order < o { Pow2Strict(b[h].order, o); }
  }

  // Part of a free block is idle.
  lemma InsideIsIdle(b: Blocks, m: nat, i: nat, o: nat, h: nat)
    requires Tiled(b, m) && RunInside(b, i, o, h)
    ensures Idle(b, i, o)
  {
    forall f, g | i <= f < i + Pow2(o) && Covers(b, g, f)
      ensures b[g].Free?
    {
      assert Apart(b, g, h) && Apart(b, h, g);
    }
  }

  // Some aligned run of 2^o frames is entirely free.
  ghost predicate HasRun(b: Blocks, m: nat, o: nat) {
    exists i: nat :: Placed(i, o, m) && Idle(b, i, o)
  }

  ghost predicate HasFit(b: Blocks, o: nat) {
    exists h <- b :: b[h].Free? && b[h].order >= o
  }

  lemma FitIffRun(b: Blocks, m: nat, o: nat)
    requires Canonical(b, m)
    ensures HasRun(b, m, o) <==> HasFit(b, o)
  {
    if i: nat :| Placed(i, o, m) && Idle(b, i, o) {
      var h := RunInsideBlock(b, m, i, o);
      BlockAtLeast(b, h, i, o);
    }
    if h :| h in b && b[h].Free? && b[h].order >= o {
      assert Placed(h, b[h].order, m);
      AlignedLower(h, o, b[h].order);
      Pow2Monotone(o, b[h].order);
      InsideIsIdle(b, m, h, o, h);
      assert Placed(h, o, m);
    }
  }

  lemma LiveSame(b: Blocks, c: Blocks, g: nat)
    requires LiveOf(b) == LiveOf(c) && g in c && c[g].Live?
    ensures g in b && b[g] == c[g]
  {
    assert g in LiveOf(c) && g in LiveOf(b);
  }

  // A free block of b is idle under any c that has the same live blocks.
  lemma IdleSame(b: Blocks, c: Blocks, m: nat, h: nat)
    requires Tiled(b, m) && LiveOf(b) == LiveOf(c)
    requires h in b && b[h].Free?
    ensures Idle(c, h, b[h].order)
  {
    forall f, g | h <= f < h + Pow2(b[h].order) && Covers(c, g, f)
      ensures c[g].Free?
    {
      assert Apart(b, g, h) && Apart(b, h, g);
      if c[g].Live? {
        LiveSame(b, c, g);
        assert false;
      }
    }
  }

  lemma SameFree(b: Blocks, c: Blocks, m: nat, h: nat)
    requires Canonical(b, m) && Canonical(c, m) && LiveOf(b) == LiveOf(c)
    requires h in b && b[h].Free?
    ensures h in c && c[h] == b[h]
  {
    assert Placed(h, b[h].order, m);
    IdleSame(b, c, m, h);
    var g := RunInsideBlock(c, m, h, b[h].order);
    BlockAtLeast(c, g, h, b[h].order);
    assert Placed(g, c[g].order, m);
    IdleSame(c, b, m, g);
    var k := RunInsideBlock(b, m, g, c[g].order);
    BlockAtLeast(b, k, g, c[g].order);
    assert Apart(b, h, k) && Apart(b, k, h);
  }

  // Canonical form: the live blocks determine the whole state.
  lemma LiveDeterminesAll(b: Blocks, c: Blocks, m: nat)
    requires Canonical(b, m) && Canonical(c, m) && LiveOf(b) == LiveOf(c)
    ensures b == c
  {
    forall h | h in b ensures h in c && c[h] == b[h] {
      if b[h].Free? { SameFree(b, c, m, h); } else { assert h in LiveOf(b); }
    }
    forall h | h in c ensures h in b {
      if c[h].Free? { SameFree(c, b, m, h); } else { assert h in LiveOf(c); }
    }
  }

  // With nothing live the heap is one free block.
  lemma EmptyIsOneBlock(b: Blocks, m: nat)
    requires Canonical(b, m) && LiveOf(b) == map[]
    ensures b == map[0 := Free(m)]
  {
    var c: Blocks := map[0 := Free(m)];
    WholeIsCanonical(m);
    assert LiveOf(c) == map[];
    LiveDeterminesAll(b, c, m);
  }

  lemma WholeIsCanonical(m: nat)
    ensures Canonical(map[0 := Free(m)], m)
  {
    TopAligned(m);
    var b: Blocks := map[0 := Free(m)];
    forall f: nat | f < Pow2(m) ensures Covered(b, f) {
      assert Covers(b, 0, f);
    }
  }

  // ---- the three state changes ----

  // A free or live block changes use, not extent.
  lemma Retag(b: Blocks, m: nat, h: nat, k: Blk)
    requires Tiled(b, m) && h in b && k.order == b[h].order
    ensures Tiled(b[h := k], m)
  {
    var c := b[h := k];
    forall k: nat, l: nat ensures Apart(c, k, l) { assert Apart(b, k, l); }
    forall g | g in c ensures Placed(g, c[g].order, m) { assert Placed(g, b[g].order, m); }
    forall f: nat | f < Pow2(m) ensures Covered(c, f) {
      assert Covered(b, f);
      var g :| Covers(b, g, f);
      assert Covers(c, g, f);
    }
  }

  // Cutting a block in two halves.
  lemma SplitTiled(b: Blocks, m: nat, h: nat, x: Blk, y: Blk)
    requires Tiled(b, m) && h in b && b[h].order > 0
    requires x.order == y.order == b[h].order - 1
    ensures h + Pow2(x.order) !in b
    ensures Tiled(b[h := x][h + Pow2(x.order) := y], m)
  {
    hide Coalesced, Flip;
    var o := b[h].order - 1;
    var g := h + Pow2(o);
    var c := b[h := x][g := y];
    assert Placed(h, o + 1, m) && Apart(b, h, g);
    UpperHalf(h, o);
    forall k | k in c ensures Placed(k, c[k].order, m) {
      if k != h && k != g { assert Placed(k, b[k].order, m); }
    }
    forall k: nat, l: nat ensures Apart(c, k, l) {
      assert Apart(b, k, l) && Apart(b, h, l) && Apart(b, k, h) && Apart(b, h, k);
    }
    forall f: nat | f < Pow2(m) ensures Covered(c, f) {
      assert Covered(b, f);
      var k: nat :| Covers(b, k, f);
      assert Covers(c, if k != h then k else if f < g then h else g, f);
    }
  }

  // Joining a block with its equal-sized buddy.
  lemma JoinTiled(b: Blocks, m: nat, h: nat, g: nat, x: Blk)
    requires Tiled(b, m) && h in b && g in b && g == h + Pow2(b[h].order)
    requires b[g].order == b[h].order
    requires Aligned(h, b[h].order + 1) && x.order == b[h].order + 1 <= m
    ensures Tiled((b - {g})[h := x], m)
  {
    var o := b[h].order;
    var c := (b - {g})[h := x];
    assert Placed(g, o, m);
    assert h + Pow2(o + 1) == g + Pow2(o);
    forall k | k in c ensures Placed(k, c[k].order, m) {
      if k != h { assert Placed(k, b[k].order, m); }
    }
    forall k: nat, l: nat ensures Apart(c, k, l) { JoinApart(b, m, h, g, x, k, l); }
    forall f: nat | f < Pow2(m) ensures Covered(c, f) { JoinCovered(b, m, h, g, x, f); }
  }

  lemma JoinApart(b: Blocks, m: nat, h: nat, g: nat, x: Blk, k: nat, l: nat)
    requires Tiled(b, m) && h in b && g in b && g == h + Pow2(b[h].order) && b[g].order == b[h].order
    requires x.order == b[h].order + 1
    ensures Apart((b - {g})[h := x], k, l)
  {
    assert Apart(b, k, l) && Apart(b, g, l) && Apart(b, h, l) && Apart(b, l, g) && Apart(b, g, h);
  }

  lemma JoinCovered(b: Blocks, m: nat, h: nat, g: nat, x: Blk, f: nat)
    requires Tiled(b, m) && h in b && g in b && g == h + Pow2(b[h].order) && b[g].order == b[h].order
    requires x.order == b[h].order + 1 && f < Pow2(m)
    ensures Covered((b - {g})[h := x], f)
  {
    var c := (b - {g})[h := x];
    assert Covered(b, f);
    var k: nat :| Covers(b, k, f);
    if k == g || k == h { assert Covers(c, h, f); } else { assert Covers(c, k, f); }
  }

  // ---- what the changes do to coalescing and to the live blocks ----

  lemma TakeBlock(b: Blocks, m: nat, h: nat, user: bool)
    requires Canonical(b, m) && h in b && b[h].Free?
    ensures var c := b[h := Live(b[h].order, user)];
            Canonical(c, m) && LiveOf(c) == LiveOf(b)[h := Live(b[h].order, user)]
  {
    Retag(b, m, h, Live(b[h].order, user));
    NoNewFree(b, b[h := Live(b[h].order, user)], m, -1);
  }

  // Coalescing is not lost while the set of free blocks shrinks.
  lemma NoNewFree(b: Blocks, c: Blocks, m: nat, x: int)
    requires CoalescedExcept(b, m, x)
    requires forall g <- c :: c[g].Free? ==> g in b && b[g] == c[g]
    ensures CoalescedExcept(c, m, x)
  {
  }

  // An allocated block gives its upper half back.
  function Halved(b: Blocks, h: nat): Blocks
    requires h in b && b[h].Live? && b[h].order > 0
  {
    var o := b[h].order - 1;
    b[h := Live(o, b[h].user)][Flip(h, o) := Free(o)]
  }

  lemma PlacedAt(b: Blocks, m: nat, h: nat)
    requires Tiled(b, m) && h in b
    ensures Placed(h, b[h].order, m)
  {
  }

  lemma GiveUpperHalf(b: Blocks, m: nat, h: nat)
    requires Canonical(b, m) && h in b && b[h].Live? && b[h].order > 0
    ensures var o := b[h].order - 1; var g := Flip(h, o);
            && g == h + Pow2(o) && g < Pow2(m) && h < Pow2(m) && g !in b
            && Canonical(Halved(b, h), m)
            && LiveOf(Halved(b, h)) == LiveOf(b)[h := Live(o, b[h].user)]
  {
    hide Tiled;
    var o := b[h].order - 1;
    var x := Live(o, b[h].user);
    PlacedAt(b, m, h);
    UpperHalf(h, o);
    var g := h + Pow2(o);
    SplitTiled(b, m, h, x, Free(o));
    var c := Halved(b, h);
    PlacedAt(c, m, g);
    forall k | k in c && c[k].Free? && c[k].order < m
      ensures !FreeAt(c, Flip(k, c[k].order), c[k].order)
    {
      if k != g && Flip(k, c[k].order) == g && c[k].order == o {
        FlipTwice(k, o);
      } else if k != g {
        assert !FreeAt(b, Flip(k, b[k].order), b[k].order);
      }
    }
  }

  lemma ReleaseBlock(b: Blocks, m: nat, h: nat)
    requires Canonical(b, m) && h in b
    ensures var c := b[h := Free(b[h].order)];
            Tiled(c, m) && CoalescedExcept(c, m, h) && LiveOf(c) == LiveOf(b) - {h}
  {
    Retag(b, m, h, Free(b[h].order));
  }

  // Where the block that two buddies make begins, and where the upper buddy was.
  function Lower(i: nat, g: nat): nat { if i < g then i else g }
  function Upper(i: nat, g: nat): nat { if i < g then g else i }

  function Merged(b: Blocks, i: nat, o: nat): Blocks {
    var g := Flip(i, o);
    (b - {Upper(i, g)})[Lower(i, g) := Free(o + 1)]
  }

  lemma MergeBuddies(b: Blocks, m: nat, i: nat, o: nat)
    requires Tiled(b, m) && CoalescedExcept(b, m, i) && o < m
    requires FreeAt(b, i, o) && FreeAt(b, Flip(i, o), o)
    ensures var c := Merged(b, i, o);
            && Lower(i, Flip(i, o)) < Upper(i, Flip(i, o))
            && Tiled(c, m) && CoalescedExcept(c, m, Lower(i, Flip(i, o))) && LiveOf(c) == LiveOf(b)
  {
    var g := Flip(i, o);
    FlipTwice(i, o);
    MergeLive(b, i, g, o);
    MergeTiled(b, m, i, g, o);
    MergeCoalesced(b, m, i, o);
  }

  lemma MergeLive(b: Blocks, i: nat, g: nat, o: nat)
    requires FreeAt(b, i, o) && FreeAt(b, g, o) && i != g
    ensures LiveOf((b - {Upper(i, g)})[Lower(i, g) := Free(o + 1)]) == LiveOf(b)
  {
  }

  lemma MergeTiled(b: Blocks, m: nat, i: nat, g: nat, o: nat)
    requires Tiled(b, m) && FreeAt(b, i, o) && FreeAt(b, g, o) && g == Flip(i, o) && o < m
    ensures Tiled((b - {Upper(i, g)})[Lower(i, g) := Free(o + 1)], m)
  {
    assert Placed(i, o, m);
    ParentOf(i, o);
    JoinTiled(b, m, Lower(i, g), Upper(i, g), Free(o + 1));
  }

  lemma MergeCoalesced(b: Blocks, m: nat, i: nat, o: nat)
    requires CoalescedExcept(b, m, i) && i in b && Flip(i, o) in b && Flip(i, o) != i
    ensures CoalescedExcept(Merged(b, i, o), m, Lower(i, Flip(i, o)))
  {
    var g := Flip(i, o);
    var lo := Lower(i, g);
    var c := Merged(b, i, o);
    forall k | k in c && k != lo && c[k].Free? && c[k].order < m && Flip(k, c[k].order) != lo
      ensures !FreeAt(c, Flip(k, c[k].order), c[k].order)
    {
      assert k in b && k != i && b[k] == c[k];
      if Flip(k, b[k].order) != i {
        assert !FreeAt(b, Flip(k, b[k].order), b[k].order);
      }
    }
  }

  lemma MergeEnds(b: Blocks, m: nat, i: nat, o: nat)
    requires Tiled(b, m) && CoalescedExcept(b, m, i) && FreeAt(b, i, o)
    requires o == m || !FreeAt(b, Flip(i, o), o)
    ensures Canonical(b, m)
  {
    forall k | k in b && b[k].Free? && b[k].order < m
      ensures !FreeAt(b, Flip(k, b[k].order), b[k].order)
    {
      if k != i && Flip(k, b[k].order) == i { FlipTwice(k, b[k].order); }
    }
  }

  // A frame that belongs to an allocated block.
  ghost predicate InUse(b: Blocks, f: nat) {
    exists h :: Covers(b, h, f) && b[h].Live?
  }

  lemma FreeHeadNotInUse(b: Blocks, m: nat, h: nat)
    requires Tiled(b, m) && h in b && b[h].Free?
    ensures !InUse(b, h)
  {
    forall g | Covers(b, g, h) ensures b[g].Free? {
      assert Apart(b, g, h) && Apart(b, h, g);
    }
  }
}
