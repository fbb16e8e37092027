/**
  The process table in place, and the two heap blocks of every process: its
  kernel stack and its page-table root.
 */
module Processes {
  import opened Widths
  import opened Dyadic
  import opened Layout
  import opened Blocks
  import opened FreeLists
  import opened BuddyHeap
  import opened Grants
  import opened Scheduling

  const STACK_SIZE: nat := 8192

  // Where the kernel stack begins; unsigned 64-bit subtraction.
  function StackAddr(p: Pcb): (r: nat)
    ensures r < TWO64
  {
    (p.rsp0 - STACK_SIZE) % TWO64
  }

  // p's process holds block k at frame f.
  ghost predicate Owns(p: Pcb, f: nat, k: Blk) {
    p.state != Empty &&
    (  (k == Live(1, true) && IsFrameAddr(StackAddr(p)) && AddrToFrame(StackAddr(p)) == f)
    || (k == Live(0, false) && IsFrameAddr(p.pml4) && AddrToFrame(p.pml4) == f))
  }

  ghost predicate OwnedIn(t: seq<Pcb>, f: nat, k: Blk) {
    exists i: nat :: i < |t| && Owns(t[i], f, k)
  }

  // Every live block is in `rest` or held by exactly one process, not both.
  ghost predicate Accounted(t: seq<Pcb>, live: Blocks, rest: Blocks) {
    && (forall f: nat, k: Blk :: OwnedIn(t, f, k) ==> f in live && live[f] == k && f !in rest)
    && (forall f <- live :: (f in rest && rest[f] == live[f]) || OwnedIn(t, f, live[f]))
    && (forall f <- rest :: f in live && live[f] == rest[f])
    && forall i: nat, j: nat, f: nat, k: Blk, l: Blk :: i < j < |t| && Owns(t[i], f, k) ==> !Owns(t[j], f, l)
  }

  // If the processes hold the same blocks in two states, and the rest of the
  // kernel does, then all blocks are the same, free ones included.
  lemma SameOwnersSameHeap(b: Blocks, c: Blocks, t: seq<Pcb>, u: seq<Pcb>, rest: Blocks)
    requires Canonical(b, MAX_ORDER) && Canonical(c, MAX_ORDER)
    requires Accounted(t, LiveOf(b), rest) && Accounted(u, LiveOf(c), rest)
    requires forall f: nat, k: Blk :: OwnedIn(t, f, k) <==> OwnedIn(u, f, k)
    ensures b == c
  {
    hide OwnedIn, Canonical, LiveOf;
    var l, m := LiveOf(b), LiveOf(c);
    forall f | f in l ensures f in m && m[f] == l[f] {
      if !(f in rest && rest[f] == l[f]) { assert OwnedIn(t, f, l[f]); }
    }
    forall f | f in m ensures f in l {
      if !(f in rest && rest[f] == m[f]) { assert OwnedIn(u, f, m[f]); }
    }
    assert l == m;
    LiveDeterminesAll(b, c, MAX_ORDER);
  }

  // A change of state among the states in use moves no block.
  ghost predicate SameOwners(t: seq<Pcb>, u: seq<Pcb>) {
    && |u| == |t|
    && forall i: nat | i < |t| :: u[i].rsp0 == t[i].rsp0 && u[i].pml4 == t[i].pml4
         && (u[i].state == Empty <==> t[i].state == Empty)
  }

  lemma SameOwned(t: seq<Pcb>, u: seq<Pcb>, live: Blocks, rest: Blocks)
    requires SameOwners(t, u) && Accounted(t, live, rest)
    ensures Accounted(u, live, rest)
  {
    assert forall i: nat, f: nat, k: Blk :: i < |t| ==> (Owns(u[i], f, k) <==> Owns(t[i], f, k));
    forall f: nat, k: Blk ensures OwnedIn(u, f, k) <==> OwnedIn(t, f, k) { }
  }

  lemma OwnersAfter(t: seq<Pcb>, slot: nat, p: Pcb, f: nat, k: Blk)
    requires InState(t, slot, Empty)
    ensures OwnedIn(t[slot := p], f, k) <==> OwnedIn(t, f, k) || Owns(p, f, k)
  {
    hide IsFrameAddr, AddrToFrame, StackAddr;
    var u := t[slot := p];
    assert !Owns(t[slot], f, k);
    if i: nat :| i < |t| && Owns(t[i], f, k) { assert Owns(u[i], f, k); }
    if Owns(p, f, k) { assert Owns(u[slot], f, k); }
  }

  lemma SpawnAccounted(t: seq<Pcb>, live: Blocks, live': Blocks, rest: Blocks, slot: nat, p: Pcb, h: nat, g: nat)
    requires Accounted(t, live, rest) && InState(t, slot, Empty)
    requires h !in live && g !in live && h != g && live' == live[h := Live(1, true)][g := Live(0, false)]
    requires p.state != Empty && IsFrameAddr(StackAddr(p)) && AddrToFrame(StackAddr(p)) == h
    requires IsFrameAddr(p.pml4) && AddrToFrame(p.pml4) == g
    ensures Accounted(t[slot := p], live', rest)
  {
    hide IsFrameAddr, AddrToFrame, StackAddr;
    var u := t[slot := p];
    forall f: nat, k: Blk
      ensures OwnedIn(u, f, k) <==> OwnedIn(t, f, k) || Owns(p, f, k)
    {
      OwnersAfter(t, slot, p, f, k);
    }
    forall i: nat, j: nat, f: nat, k: Blk, l: Blk | i < j < |u| && Owns(u[i], f, k) ensures !Owns(u[j], f, l) {
      StillOne(t, live, rest, slot, p, h, g, i, j, f, k, l);
    }
  }

  lemma StillOne(t: seq<Pcb>, live: Blocks, rest: Blocks, slot: nat, p: Pcb, h: nat, g: nat, i: nat, j: nat, f: nat,
                 k: Blk, l: Blk)
    requires Accounted(t, live, rest) && InState(t, slot, Empty) && h !in live && g !in live
    requires forall x: nat, y: Blk :: Owns(p, x, y) ==> x == h || x == g
    requires i < j < |t| && Owns(t[slot := p][i], f, k)
    ensures !Owns(t[slot := p][j], f, l)
  {
    hide IsFrameAddr, AddrToFrame, StackAddr, Owns;
    assert i != slot ==> OwnedIn(t, f, k);
    assert j != slot ==> Owns(t[slot := p][j], f, l) ==> OwnedIn(t, f, l);
  }

  lemma ReapAccounted(t: seq<Pcb>, live: Blocks, live': Blocks, rest: Blocks, i: nat)
    requires Accounted(t, live, rest) && i < |t| && t[i].state != Empty
    requires forall f: nat :: f in live' <==> f in live && !exists k :: Owns(t[i], f, k)
    requires forall f <- live' :: live'[f] == live[f]
    ensures Accounted(SetState(t, i, Empty), live', rest)
  {
    hide IsFrameAddr, AddrToFrame, StackAddr;
    var u := SetState(t, i, Empty);
    forall f: nat, k: Blk ensures !Owns(u[i], f, k) { }
    forall f: nat, k: Blk | OwnedIn(u, f, k) ensures OwnedIn(t, f, k) && !exists l :: Owns(t[i], f, l) {
      var j: nat :| j < |u| && Owns(u[j], f, k);
      assert j != i && Owns(t[j], f, k);
    }
    forall f: nat, k: Blk | OwnedIn(t, f, k) && !exists l :: Owns(t[i], f, l) ensures OwnedIn(u, f, k) {
      var j: nat :| j < |t| && Owns(t[j], f, k);
      assert Owns(u[j], f, k);
    }
    forall f | f in rest ensures f in live' && live'[f] == rest[f] {
      assert forall k :: Owns(t[i], f, k) ==> OwnedIn(t, f, k);
    }
  }

  // ---- when a page is left after a stack was taken ----

  // The only free block has two frames.
  ghost predicate OnlyPair(b: Blocks) {
    exists h: nat :: FreeAt(b, h, 1) && forall g <- b :: b[g].Free? ==> g == h
  }

  lemma NoPageLeft(b: Blocks, c: Blocks, h: nat)
    requires Canonical(b, MAX_ORDER) && Canonical(c, MAX_ORDER) && Served(b, c, h, Live(1, true))
    requires HasRun(b, MAX_ORDER, 1)
    ensures !HasRun(c, MAX_ORDER, 0) <==> OnlyPair(b)
  {
    hide Tiled, Coalesced, CoalescedExcept, HasRun, InUse, Served;
    FitIffRun(b, MAX_ORDER, 1);
    FitIffRun(c, MAX_ORDER, 0);
    if !HasFit(c, 0) { LastPairTaken(b, c, h); }
    if OnlyPair(b) { PairWasLast(b, c, h); }
  }

  lemma LastPairTaken(b: Blocks, c: Blocks, h: nat)
    requires Tiled(b, MAX_ORDER) && Tiled(c, MAX_ORDER) && Served(b, c, h, Live(1, true))
    requires HasFit(b, 1) && !HasFit(c, 0)
    ensures OnlyPair(b)
  {
    hide Tiled, InUse, Served;
    assert Pow2(1) == 2;
    var g :| g in b && b[g].Free? && b[g].order >= 1;
    Pow2Monotone(1, b[g].order);
    FreeInNew(b, c, h, g, g);
    FreeInNew(b, c, h, g, g + Pow2(b[g].order) - 1);
    assert Pow2(1) == 2;
    FourOrMore(b[g].order);
    assert FreeAt(b, g, 1);
    forall x | x in b && b[x].Free? ensures x == g {
      FreeInNew(b, c, h, x, x);
      FreeApart(b, g, x);
    }
  }

  lemma FourOrMore(o: nat)
    ensures o > 1 ==> Pow2(o) >= 4
  {
    assert Pow2(2) == 4;
    if o > 1 { Pow2Monotone(2, o); }
  }

  lemma IdleIsFit(c: Blocks, f: nat)
    requires Tiled(c, MAX_ORDER) && f < FRAME_COUNT && !InUse(c, f)
    ensures HasFit(c, 0)
  {
    hide Tiled, InUse;
    var x := FreeCover(c, f);
  }

  lemma FreeInNew(b: Blocks, c: Blocks, h: nat, g: nat, f: nat)
    requires Tiled(b, MAX_ORDER) && Tiled(c, MAX_ORDER) && Served(b, c, h, Live(1, true)) && !HasFit(c, 0)
    requires g in b && b[g].Free? && g <= f < g + Pow2(b[g].order)
    ensures h <= f < h + 2
  {
    hide Tiled, InUse, Served;
    assert Pow2(1) == 2;
    FreeFrames(b, g, f);
    CoveredSame(b, c, h, Live(1, true), f);
    if !InUse(c, f) { IdleIsFit(c, f); }
  }

  lemma NewInPair(b: Blocks, c: Blocks, h: nat, g: nat, f: nat)
    requires Tiled(b, MAX_ORDER) && Tiled(c, MAX_ORDER) && Served(b, c, h, Live(1, true))
    requires FreeAt(b, g, 1) && (forall x <- b :: b[x].Free? ==> x == g) && f < FRAME_COUNT && h <= f < h + 2
    ensures g <= f < g + 2
  {
    hide Tiled, InUse, Served;
    assert Pow2(1) == 2;
    CoveredSame(b, c, h, Live(1, true), f);
    var x := FreeCover(b, f);
  }

  lemma FreeApart(b: Blocks, g: nat, x: nat)
    requires Tiled(b, MAX_ORDER) && g in b && x in b && b[g].order == 1 && g <= x < g + 2
    ensures x == g
  {
    assert Apart(b, g, x);
    assert Pow2(1) == 2;
  }

  lemma PairWasLast(b: Blocks, c: Blocks, h: nat)
    requires Tiled(b, MAX_ORDER) && Tiled(c, MAX_ORDER) && Served(b, c, h, Live(1, true))
    requires OnlyPair(b)
    ensures !HasFit(c, 0)
  {
    hide Tiled, InUse, Served;
    assert Pow2(1) == 2;
    var g: nat :| FreeAt(b, g, 1) && forall x <- b :: b[x].Free? ==> x == g;
    NewBlockInside(b, c, h);
    NewInPair(b, c, h, g, h);
    NewInPair(b, c, h, g, h + 1);
    forall x | x in c && c[x].Free? ensures false {
      assert x < x + Pow2(c[x].order);
      FreeFrames(c, x, x);
      CoveredSame(b, c, h, Live(1, true), x);
      var y := FreeCover(b, x);
    }
  }

  lemma NewBlockInside(b: Blocks, c: Blocks, h: nat)
    requires Tiled(c, MAX_ORDER) && Served(b, c, h, Live(1, true))
    ensures h + 2 <= FRAME_COUNT
  {
    ServedIncludes(b, c, h, Live(1, true));
    FrameCountIsPow2();
    assert Placed(h, c[h].order, MAX_ORDER);
    assert Pow2(1) == 2;
  }

  lemma SwitchOwners(s: Sys, s': Sys)
    requires Wf(s) && Switched(s, s')
    ensures SameOwners(s.table, s'.table)
  {
  }

  // The nearest READY slot is the current one if that is READY.
  lemma NearestSelf(t: seq<Pcb>, c: nat)
    requires |t| == MAX_PROC && c < MAX_PROC
    ensures InState(t, c, Ready) ==> !NoneReady(t) && forall r: nat :: Nearest(t, c, r) <==> r == c
    ensures forall r: nat :: Nearest(t, c, r) ==> !NoneReady(t) && (r == c ==> InState(t, c, Ready))
  {
    if InState(t, c, Ready) {
      forall r: nat | r < MAX_PROC ensures Dist(c, r) == 0 <==> r == c { DistBack(c, r); }
    }
  }

  lemma ExitTable(s: Sys, code: int, t: seq<Pcb>)
    requires Wf(s) && Alive(s) && OneRunning(s) && PidsOk(s) && Woke(Ended(s, code), t, s.table[s.current].pid)
    ensures var s' := s.(table := t); Wf(s') && OneRunning(s') && PidsOk(s') && SameOwners(s.table, t)
  {
    hide IsChild;
    assert forall i: nat :: InState(t, i, Running) ==> InState(s.table, i, Running);
  }

  lemma ChangedState(s: Sys, k: nat, st: Status)
    requires Wf(s) && OneRunning(s) && PidsOk(s) && k < MAX_PROC && st != Running
    ensures var s' := s.(table := SetState(s.table, k, st)); Wf(s') && OneRunning(s') && PidsOk(s')
    ensures st != Empty && s.table[k].state != Empty ==> SameOwners(s.table, SetState(s.table, k, st))
  {
    var t := SetState(s.table, k, st);
    assert forall i: nat :: InState(t, i, Running) ==> InState(s.table, i, Running);
  }

  lemma OnlyFirst(t: seq<Pcb>, pid: int, i: nat)
    requires FirstPid(t, pid, i)
    ensures HasPid(t, pid) && (WouldBlock(t, pid) <==> t[i].state != Zombie)
    ensures forall j: nat :: FirstPid(t, pid, j) <==> j == i
  {
  }

  lemma StackOrder(o: nat)
    requires IsOrderFor(o, if PagesFor(STACK_SIZE) == 0 then 1 else PagesFor(STACK_SIZE))
    ensures o == 1
  {
    assert PagesFor(STACK_SIZE) == 2;
    assert Pow2(0) == 1 && Pow2(1) == 2;
    OrderUnique(2, o, 1);
  }

  lemma StackFrame(h: nat)
    requires h < FRAME_COUNT
    ensures IsFrameAddr(FrameToAddr(h)) && 0 < FrameToAddr(h) < TWO64 - STACK_SIZE && AddrToFrame(FrameToAddr(h)) == h
  {
    AddrRoundTrip(h);
  }

  lemma SpawnTakes(b: Blocks, c: Blocks, d: Blocks, h: nat, g: nat, p: Pcb)
    requires Served(b, c, h, Live(1, true)) && Served(c, d, g, Live(0, false)) && h < FRAME_COUNT && g < FRAME_COUNT
    requires p.rsp0 == FrameToAddr(h) + STACK_SIZE && p.pml4 == FrameToAddr(g)
    ensures Taken(LiveOf(b), LiveOf(d), p)
  {
    hide LiveOf, IsFrameAddr, AddrToFrame;
    StackFrame(h);
    StackFrame(g);
    assert StackAddr(p) == FrameToAddr(h);
  }

  lemma BothTaken(b: Blocks, c: Blocks, d: Blocks, h: nat, g: nat, kstack: nat, root: nat)
    requires Served(b, c, h, Live(1, true)) && Served(c, d, g, Live(0, false)) && h < FRAME_COUNT && g < FRAME_COUNT
    requires kstack == FrameToAddr(h) && root == FrameToAddr(g)
    ensures forall p: Pcb :: p.rsp0 == kstack + STACK_SIZE && p.pml4 == root ==> Taken(LiveOf(b), LiveOf(d), p)
  {
    forall p: Pcb | p.rsp0 == kstack + STACK_SIZE && p.pml4 == root ensures Taken(LiveOf(b), LiveOf(d), p) {
      SpawnTakes(b, c, d, h, g, p);
    }
  }

  lemma PairIsRun(b: Blocks)
    requires Canonical(b, MAX_ORDER)
    ensures OnlyPair(b) ==> HasRun(b, MAX_ORDER, 1)
  {
    FitIffRun(b, MAX_ORDER, 1);
  }

  lemma SpawnedAt(s: Sys, stack: nat, pml4: nat, slot: nat, s': Sys)
    requires Wf(s) && Alive(s) && OneRunning(s) && PidsOk(s) && FirstEmpty(s.table, slot)
    requires s' == Sys(s.table[slot := Child(s, stack, pml4)], s.current, s.nextPid + 1)
    ensures Step(s, Event.Spawn(stack, pml4), s') && Wf(s') && OneRunning(s') && PidsOk(s') && s.nextPid > 0
  {
    hide OneRunning, Alive;
    StepSafe(s, Event.Spawn(stack, pml4), s');
    StepPids(s, Event.Spawn(stack, pml4), s');
  }

  lemma NoneNear(t: seq<Pcb>, c: nat)
    requires |t| == MAX_PROC && c < MAX_PROC && forall k: nat | InState(t, k, Ready) :: Dist(c, k) >= MAX_PROC
    ensures NoneReady(t)
  {
    forall k: nat ensures !InState(t, k, Ready) {
      if k < MAX_PROC { DistBack(c, k); }
    }
  }

  lemma TakenAccounted(t: seq<Pcb>, live: Blocks, live': Blocks, rest: Blocks, slot: nat, p: Pcb)
    requires Accounted(t, live, rest) && InState(t, slot, Empty) && Taken(live, live', p) && p.state != Empty
    ensures Accounted(t[slot := p], live', rest)
  {
    hide Accounted, IsFrameAddr, AddrToFrame, StackAddr;
    SpawnAccounted(t, live, live', rest, slot, p, AddrToFrame(StackAddr(p)), AddrToFrame(p.pml4));
  }

  // The two addresses that proc_waitpid frees are those of live blocks, or of none.
  lemma ReapedBlocks(t: seq<Pcb>, live: Blocks, rest: Blocks, k: nat)
    requires Accounted(t, live, rest) && k < |t| && t[k].state != Empty
    ensures var p := t[k];
            && (IsFrameAddr(StackAddr(p)) ==>
                 AddrToFrame(StackAddr(p)) in live && live[AddrToFrame(StackAddr(p))] == Live(1, true))
            && (IsFrameAddr(p.pml4) ==> AddrToFrame(p.pml4) in live && live[AddrToFrame(p.pml4)] == Live(0, false))
  {
    hide IsFrameAddr, AddrToFrame, StackAddr;
    var p := t[k];
    assert IsFrameAddr(StackAddr(p)) ==>
      Owns(p, AddrToFrame(StackAddr(p)), Live(1, true)) && OwnedIn(t, AddrToFrame(StackAddr(p)), Live(1, true));
    assert IsFrameAddr(p.pml4) ==>
      Owns(p, AddrToFrame(p.pml4), Live(0, false)) && OwnedIn(t, AddrToFrame(p.pml4), Live(0, false));
  }

  // What is left once both are gone.
  function Without2(live: Blocks, p: Pcb): Blocks {
    var l := if IsFrameAddr(StackAddr(p)) then live - {AddrToFrame(StackAddr(p))} else live;
    if IsFrameAddr(p.pml4) then l - {AddrToFrame(p.pml4)} else l
  }

  lemma BothGiven(t: seq<Pcb>, live: Blocks, live': Blocks, rest: Blocks, k: nat)
    requires Accounted(t, live, rest) && k < |t| && t[k].state != Empty && live' == Without2(live, t[k])
    ensures GivenBack(live, live', t[k]) && Accounted(SetState(t, k, Empty), live', rest)
  {
    hide Accounted, IsFrameAddr, AddrToFrame, StackAddr;
    var p := t[k];
    forall f: nat ensures f in live' <==> f in live && !exists l :: Owns(p, f, l) {
      assert Owns(p, f, Live(1, true)) <==> IsFrameAddr(StackAddr(p)) && AddrToFrame(StackAddr(p)) == f;
      assert Owns(p, f, Live(0, false)) <==> IsFrameAddr(p.pml4) && AddrToFrame(p.pml4) == f;
    }
    ReapAccounted(t, live, live', rest, k);
  }

  // ---- the table in place ----

  datatype Turn = Reaped(code: int) | NoSuchPid | Again

  // The stack and the page-table root of a new process, both taken from free memory.
  ghost predicate Taken(live: Blocks, live': Blocks, p: Pcb) {
    && IsFrameAddr(StackAddr(p)) && IsFrameAddr(p.pml4)
    && AddrToFrame(StackAddr(p)) !in live && AddrToFrame(p.pml4) !in live
    && AddrToFrame(StackAddr(p)) != AddrToFrame(p.pml4)
    && live' == live[AddrToFrame(StackAddr(p)) := Live(1, true)][AddrToFrame(p.pml4) := Live(0, false)]
  }

  // The first two words of the frames that b's blocks in use cover are as they were.
  ghost predicate HeadsKept(n: seq<int>, p: seq<int>, n': seq<int>, p': seq<int>, b: Blocks) {
    Kept(n, n', b) && Kept(p, p', b)
  }

  lemma HeadsSame(n: seq<int>, p: seq<int>, b: Blocks)
    ensures HeadsKept(n, p, n, p, b)
  {
  }

  lemma HeadsAfterTake(n: seq<int>, p: seq<int>, n1: seq<int>, p1: seq<int>, n2: seq<int>, p2: seq<int>, b: Blocks,
                       c: Blocks, h: nat, k: Blk)
    requires Served(b, c, h, k) && HeadsKept(n, p, n1, p1, b) && HeadsKept(n1, p1, n2, p2, c)
    ensures HeadsKept(n, p, n2, p2, b) && (h < |n1| ==> n2[h] == n1[h])
  {
    hide Kept, LiveOf;
    ServedIncludes(b, c, h, k);
    IncludesLive(b, c);
    KeptThen(n, n1, n2, b, c);
    KeptThen(p, p1, p2, b, c);
    if h < |n1| { KeptAt(n1, n2, c, h); }
  }

  lemma IncludesLive(b: Blocks, c: Blocks)
    requires Includes(c, b)
    ensures forall h <- LiveOf(b) :: h in c && c[h].Live? && c[h].order >= b[h].order
  {
  }

  lemma KeptAt(s: seq<int>, t: seq<int>, c: Blocks, h: nat)
    requires Kept(s, t, c) && h in c && c[h].Live? && h < |s|
    ensures |t| == |s| && t[h] == s[h]
  {
    assert Covers(c, h, h);
  }

  lemma HeadsThen(n: seq<int>, p: seq<int>, n1: seq<int>, p1: seq<int>, n2: seq<int>, p2: seq<int>, b: Blocks)
    requires HeadsKept(n, p, n1, p1, b) && HeadsKept(n1, p1, n2, p2, b)
    ensures HeadsKept(n, p, n2, p2, b)
  {
  }

  // After giving a block back, or none.
  lemma HeadsAfterFree(n: seq<int>, p: seq<int>, n1: seq<int>, p1: seq<int>, n2: seq<int>, p2: seq<int>, b: Blocks,
                       c: Blocks)
    requires HeadsKept(n, p, n1, p1, b) && HeadsKept(n1, p1, n2, p2, c)
    requires forall f <- LiveOf(c) :: f in LiveOf(b) && LiveOf(b)[f] == LiveOf(c)[f]
    ensures HeadsKept(n, p, n2, p2, c)
  {
    hide Kept;
    IncludesLive(c, b);
    InUseGrows(c, b);
    KeptFewer(n, n1, b, c);
    KeptFewer(p, p1, b, c);
    KeptThen(n, n1, n2, c, c);
    KeptThen(p, p1, p2, c, c);
  }

  lemma KeptFewer(s: seq<int>, t: seq<int>, b: Blocks, c: Blocks)
    requires Kept(s, t, b) && forall f: nat :: InUse(c, f) ==> InUse(b, f)
    ensures Kept(s, t, c)
  {
  }

  // Both new blocks begin with a link of the free lists.
  ghost predicate LinksThere(n: seq<int>, stack: nat, pml4: nat) {
    && |n| == FRAME_COUNT && IsFrameAddr(stack) && IsFrameAddr(pml4)
    && AddrToFrame(stack) < FRAME_COUNT && AddrToFrame(pml4) < FRAME_COUNT
    && IsLink(n[AddrToFrame(stack)]) && IsLink(n[AddrToFrame(pml4)])
  }

  // The blocks that p's process holds are no longer allocated.
  ghost predicate GivenBack(live: Blocks, live': Blocks, p: Pcb) {
    && (forall f: nat :: f in live' <==> f in live && !exists k :: Owns(p, f, k))
    && forall f <- live' :: live'[f] == live[f]
  }

  // The table after process_init: no process holds a block of the heap.
  lemma FirstTable(t: seq<Pcb>, live: Blocks, kstack: nat, cr3: nat)
    requires |t| == MAX_PROC && (forall i | 0 < i < MAX_PROC :: t[i] == Unused())
    requires t[0] == if kstack != NULL then Pcb(0, Ready, 0, 0, kstack + STACK_SIZE - 8, cr3) else Unused()
    requires kstack % FRAME_SIZE == 0 && !IsFrameAddr(cr3)
    ensures var s := Sys(t, 0, 1);
            && Wf(s) && PidsOk(s) && OneRunning(s) && Accounted(t, live, live)
            && s == if kstack != NULL then Boot(kstack + STACK_SIZE - 8, cr3)
                    else Sys(seq(MAX_PROC, _ => Unused()), 0, 1)
  {
    if kstack != NULL { BelowFrame(kstack); }
    forall i: nat, f: nat, k: Blk | i < MAX_PROC ensures !Owns(t[i], f, k) { }
    if kstack != NULL {
      assert t == Boot(kstack + STACK_SIZE - 8, cr3).table;
    } else {
      assert t == seq(MAX_PROC, _ => Unused());
    }
  }

  // Eight bytes below a frame is no frame.
  lemma BelowFrame(a: nat)
    requires a % FRAME_SIZE == 0
    ensures !IsFrameAddr((a - 8) % TWO64)
  {
  }

  class Processes {
    const pcbs: array<Pcb>
    var current: nat
    var nextPid: int
    const heap: Heap
    ghost var rest: Blocks

    ghost function State(): Sys
      reads this, pcbs
    {
      Sys(pcbs[..], current, nextPid)
    }

    ghost predicate Valid()
      reads this, pcbs, heap, heap.next, heap.prev, heap.tags, heap.area
    {
      && heap.Valid() && Wf(State()) && PidsOk(State()) && OneRunning(State())
      && Accounted(pcbs[..], heap.LiveBlocks(), rest)
    }

    // process_init. kstack is what kmalloc returned, cr3 the root in use at boot.
    constructor (h: Heap, kstack: nat, cr3: nat)
      requires h.Valid() && kstack % FRAME_SIZE == 0 && !IsFrameAddr(cr3)
      ensures Valid() && heap == h && fresh(pcbs) && rest == h.LiveBlocks()
      ensures kstack != NULL ==> State() == Boot(kstack + STACK_SIZE - 8, cr3)
      ensures kstack == NULL ==> State() == Sys(seq(MAX_PROC, _ => Unused()), 0, 1)
    {
      hide Heap.Valid, LiveOf, Accounted, PidsOk, OneRunning, IsFrameAddr, StackAddr, AddrToFrame;
      var t := new Pcb[MAX_PROC](_ => Unused());
      if kstack != NULL {
        t[0] := Pcb(0, Ready, 0, 0, kstack + STACK_SIZE - 8, cr3);
      }
      pcbs, current, nextPid, heap, rest := t, 0, 1, h, h.LiveBlocks();
      new;
      FirstTable(pcbs[..], heap.LiveBlocks(), kstack, cr3);
    }

    // find_next_ready: the nearest READY slot, the current one first.
    method FindNextReady() returns (r: nat)
      requires Valid()
      ensures r < MAX_PROC
      ensures if NoneReady(pcbs[..]) then r == current else Nearest(pcbs[..], current, r)
    {
      var i := 0;
      while i < MAX_PROC
        invariant 0 <= i <= MAX_PROC
        invariant forall k: nat | InState(pcbs[..], k, Ready) :: Dist(current, k) >= i
      {
        var idx := (current + i) % MAX_PROC;
        DistOf(current, i);
        if pcbs[idx].state == Ready {
          assert InState(pcbs[..], idx, Ready);
          return idx;
        }
        forall k: nat | InState(pcbs[..], k, Ready) ensures Dist(current, k) >= i + 1 { DistBack(current, k); }
        i := i + 1;
      }
      NoneNear(pcbs[..], current);
      return current;
    }

    // schedule. context_switch is the change of the current slot.
    method Schedule()
      requires Valid()
      modifies pcbs, `current
      ensures Valid() && Step(old(State()), Tick, State())
    {
      hide Heap.Valid, Accounted, PidsOk, OneRunning, Nearest, NoneReady;
      ghost var s := State();
      var next := FindNextReady();
      NearestSelf(s.table, current);
      if next == current { return; }
      var prev := current;
      if pcbs[prev].state == Running { pcbs[prev] := pcbs[prev].(state := Ready); }
      pcbs[next] := pcbs[next].(state := Running);
      current := next;
      assert State() == ResumeAt(s, next);
      StepSafe(s, Tick, State());
      StepPids(s, Tick, State());
      SwitchOwners(s, State());
      SameOwned(s.table, pcbs[..], heap.LiveBlocks(), rest);
    }

    // proc_wake_parent
    method WakeParent(child: int)
      requires pcbs.Length == MAX_PROC
      modifies pcbs
      ensures Woke(old(pcbs[..]), pcbs[..], child)
    {
      var i := 0;
      while i < MAX_PROC
        invariant 0 <= i <= MAX_PROC && pcbs[..] == old(pcbs[..])
        invariant forall k: nat | k < i :: !Awaits(pcbs[..], child, k)
      {
        if pcbs[i].state == Blocked {
          var j := 0;
          while j < MAX_PROC
            invariant 0 <= j <= MAX_PROC && pcbs[..] == old(pcbs[..])
            invariant forall k: nat | k < j :: !IsChild(pcbs[..][k], child, pcbs[..][i].pid)
          {
            if pcbs[j].pid == child && pcbs[j].parent == pcbs[i].pid {
              assert IsChild(pcbs[..][j], child, pcbs[..][i].pid);
              assert Awaits(old(pcbs[..]), child, i);
              pcbs[i] := pcbs[i].(state := Ready);
              assert pcbs[..] == SetState(old(pcbs[..]), i, Ready);
              return;
            }
            j := j + 1;
          }
        }
        i := i + 1;
      }
    }

    // proc_exit, up to the switch to another process; the caller does not go on.
    method Exit(code: int)
      requires Valid() && Alive(State())
      modifies pcbs, `current
      ensures Valid() && Step(old(State()), Event.Exit(code), State())
    {
      hide Heap.Valid, Accounted, PidsOk, OneRunning, Nearest, NoneReady, Switched, Awaits;
      ghost var s := State();
      pcbs[current] := pcbs[current].(exitCode := code, state := Zombie);
      assert pcbs[..] == Ended(s, code);
      WakeParent(pcbs[current].pid);
      ghost var t := pcbs[..];
      ExitTable(s, code, t);
      SameOwned(s.table, t, heap.LiveBlocks(), rest);
      Schedule();
      assert Exited(s, code, State());
    }

    // proc_spawn. The stack frame built for the new process is not modelled.
    method Spawn() returns (r: int, ghost stack: nat, ghost pml4: nat)
      requires Valid() && Alive(State())
      modifies pcbs, `nextPid, heap, heap.next, heap.prev, heap.tags, heap.area
      ensures Valid() && rest == old(rest)
      // It fails exactly if the table is full, no pair of frames is free, or the
      // stack leaves no page.
      ensures r == -1 <==> (forall i: nat :: !InState(old(pcbs[..]), i, Empty))
                           || !HasRun(old(heap.blocks), MAX_ORDER, 1) || OnlyPair(old(heap.blocks))
      ensures r == -1 ==> State() == old(State()) && heap.blocks == old(heap.blocks)
      ensures r != -1 ==> r == old(nextPid) && Step(old(State()), Event.Spawn(stack, pml4), State())
      ensures r != -1 ==> Taken(old(heap.LiveBlocks()), heap.LiveBlocks(), Child(old(State()), stack, pml4))
      // What others keep in their blocks is untouched.
      ensures HeadsKept(old(heap.next[..]), old(heap.prev[..]), heap.next[..], heap.prev[..], old(heap.blocks))
      ensures r != -1 ==> LinksThere(heap.next[..], stack, pml4)
    {
      hide Heap.Valid, Accounted, PidsOk, OneRunning, HasRun, OnlyPair, IsFrameAddr, AddrToFrame, StackAddr, Taken,
           Step, Kept, LinksThere;
      ghost var s, live := State(), heap.LiveBlocks();
      r, stack, pml4 := -1, 0, 0;
      HeadsSame(heap.next[..], heap.prev[..], heap.blocks);
      var slot := FindEmpty();
      if slot < 0 { return; }
      var kstack, root := TakeBlocks();
      if kstack == NULL || root == NULL { return; }
      stack, pml4 := kstack, root;
      r := nextPid;
      nextPid := nextPid + 1;
      pcbs[slot] := Pcb(r, Ready, current, 0, kstack + STACK_SIZE, root);
      ghost var p := Child(s, stack, pml4);
      assert State() == Sys(s.table[slot := p], s.current, s.nextPid + 1);
      SpawnedAt(s, stack, pml4, slot, State());
      TakenAccounted(s.table, live, heap.LiveBlocks(), rest, slot, p);
    }

    // The blocks of a new process, or none: a stack that gets no page is given back.
    method TakeBlocks() returns (kstack: nat, root: nat)
      requires heap.Valid()
      modifies heap, heap.next, heap.prev, heap.tags, heap.area
      ensures heap.Valid()
      ensures kstack == NULL || root == NULL <==> !HasRun(old(heap.blocks), MAX_ORDER, 1) || OnlyPair(old(heap.blocks))
      ensures kstack == NULL || root == NULL ==> heap.blocks == old(heap.blocks)
      ensures kstack != NULL && root != NULL ==>
        forall p: Pcb :: p.rsp0 == kstack + STACK_SIZE && p.pml4 == root ==>
          Taken(old(heap.LiveBlocks()), heap.LiveBlocks(), p)
      ensures HeadsKept(old(heap.next[..]), old(heap.prev[..]), heap.next[..], heap.prev[..], old(heap.blocks))
      ensures kstack != NULL && root != NULL ==> LinksThere(heap.next[..], kstack, root)
    {
      hide Heap.Valid, HasRun, OnlyPair, IsFrameAddr, AddrToFrame, StackAddr, Taken, Tiled, Coalesced, CoalescedExcept,
           Kept, LiveOf, Served, IsLink;
      ghost var b, n, p := heap.blocks, heap.next[..], heap.prev[..];
      heap.Sizes();
      ghost var h, g, o;
      kstack, h, o := heap.MmapUser(STACK_SIZE);
      StackOrder(o);
      root := NULL;
      PairIsRun(b);
      if kstack == NULL { return; }
      ghost var c, n1, p1 := heap.blocks, heap.next[..], heap.prev[..];
      heap.Sizes();
      NoPageLeft(b, c, h);
      root, g := heap.BuddyAlloc(0, false);
      StackFrame(h);
      ghost var n2, p2 := heap.next[..], heap.prev[..];
      HeadsAfterTake(n, p, n1, p1, n2, p2, b, c, h, Live(1, true));
      if root == NULL {
        var done := heap.MunmapUser(kstack, STACK_SIZE);
        heap.Sizes();
        FreeUndoesAlloc(b, c, heap.blocks, h, Live(1, true));
        HeadsThen(n, p, n2, p2, heap.next[..], heap.prev[..], b);
        return;
      }
      StackFrame(g);
      BothTaken(b, c, heap.blocks, h, g, kstack, root);
    }

    method FindEmpty() returns (slot: int)
      requires pcbs.Length == MAX_PROC
      ensures slot < 0 ==> slot == -1 && forall i: nat :: !InState(pcbs[..], i, Empty)
      ensures slot >= 0 ==> FirstEmpty(pcbs[..], slot)
    {
      var i := 0;
      while i < MAX_PROC
        invariant 0 <= i <= MAX_PROC
        invariant forall j: nat | j < i :: !InState(pcbs[..], j, Empty)
      {
        if pcbs[i].state == Empty { return i; }
        i := i + 1;
      }
      return -1;
    }

    // One turn of the loop in proc_waitpid. After Again the caller is blocked, and
    // takes the next turn when it is resumed.
    method WaitTurn(pid: int) returns (r: Turn, ghost i: nat)
      requires Valid() && Alive(State())
      modifies pcbs, `current, heap, heap.next, heap.prev, heap.tags, heap.area
      ensures Valid() && rest == old(rest)
      ensures Step(old(State()), Event.Wait(pid), State())
      ensures r == NoSuchPid <==> !HasPid(old(pcbs[..]), pid)
      ensures r == Again <==> WouldBlock(old(pcbs[..]), pid)
      ensures r.Reaped? ==> FirstPid(old(pcbs[..]), pid, i) && r.code == old(pcbs[..])[i].exitCode
      ensures r.Reaped? ==> GivenBack(old(heap.LiveBlocks()), heap.LiveBlocks(), old(pcbs[..])[i])
      ensures !r.Reaped? ==> heap.blocks == old(heap.blocks)
      ensures HeadsKept(old(heap.next[..]), old(heap.prev[..]), heap.next[..], heap.prev[..], heap.blocks)
    {
      hide Kept, Heap.Valid, Accounted, PidsOk, OneRunning, Nearest, NoneReady, Switched, GivenBack, IsFrameAddr,
           AddrToFrame, StackAddr;
      ghost var s := State();
      HeadsSame(heap.next[..], heap.prev[..], heap.blocks);
      i := 0;
      var k := 0;
      while k < MAX_PROC
        invariant 0 <= k <= MAX_PROC
        invariant forall j: nat | j < k :: pcbs[..][j].pid != pid
      {
        if pcbs[k].pid == pid {
          i := k;
          OnlyFirst(pcbs[..], pid, i);
          if pcbs[k].state == Zombie {
            r := Reaped(pcbs[k].exitCode);
            Reap(k);
            return;
          }
          BlockCaller(pid, i);
          return Again, i;
        }
        k := k + 1;
      }
      r := NoSuchPid;
      StepSafe(s, Event.Wait(pid), s);
    }

    // Marks the caller blocked and calls schedule.
    method BlockCaller(pid: int, ghost i: nat)
      requires Valid() && Alive(State()) && FirstPid(pcbs[..], pid, i) && pcbs[i].state != Zombie
      modifies pcbs, `current
      ensures Valid() && Step(old(State()), Event.Wait(pid), State())
    {
      hide Heap.Valid, Accounted, PidsOk, OneRunning, Nearest, NoneReady, Switched;
      ghost var s := State();
      pcbs[current] := pcbs[current].(state := Blocked);
      ghost var t := SetState(s.table, current, Blocked);
      assert pcbs[..] == t;
      ChangedState(s, current, Blocked);
      SameOwned(s.table, t, heap.LiveBlocks(), rest);
      Schedule();
      OnlyFirst(s.table, pid, i);
    }

    // Frees the stack and the page-table root of the process in slot k, and the slot.
    method Reap(k: nat)
      requires Valid() && InState(pcbs[..], k, Zombie)
      modifies pcbs, heap, heap.next, heap.prev, heap.tags, heap.area
      ensures Valid() && pcbs[..] == SetState(old(pcbs[..]), k, Empty)
      ensures GivenBack(old(heap.LiveBlocks()), heap.LiveBlocks(), old(pcbs[..])[k])
      ensures HeadsKept(old(heap.next[..]), old(heap.prev[..]), heap.next[..], heap.prev[..], heap.blocks)
    {
      hide Heap.Valid, Accounted, PidsOk, OneRunning, GivenBack, IsFrameAddr, AddrToFrame, StackAddr, LiveOf, Kept,
           Canonical;
      ghost var s, l, n, p := State(), heap.LiveBlocks(), heap.next[..], heap.prev[..];
      heap.Sizes();
      ReapedBlocks(s.table, l, rest, k);
      var done := heap.MunmapUser(StackAddr(pcbs[k]), STACK_SIZE);
      ghost var b, n1, p1 := heap.blocks, heap.next[..], heap.prev[..];
      heap.BuddyFree(pcbs[k].pml4, 0);
      HeadsAfterFree(n, p, n1, p1, heap.next[..], heap.prev[..], b, heap.blocks);
      pcbs[k] := pcbs[k].(state := Empty);
      assert pcbs[..] == SetState(s.table, k, Empty);
      BothGiven(s.table, l, heap.LiveBlocks(), rest, k);
      ChangedState(s, k, Empty);
    }
  }
}
