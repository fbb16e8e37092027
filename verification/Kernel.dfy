/**
  The kernel's memory and its processes together: slab pages, the blocks of the
  processes and all other blocks lie in one heap.
 */
module Kernel {
  import opened Widths
  import opened Dyadic
  import opened Layout
  import opened Blocks
  import opened FreeLists
  import opened BuddyHeap
  import opened Slabs
  import opened Kmalloc
  import opened Scheduling
  import P = Processes

  // A block of some process begins at the address.
  ghost predicate OwnedAt(t: seq<Pcb>, addr: nat) {
    exists f: nat, k: Blk :: P.OwnedIn(t, f, k) && addr == FrameToAddr(f)
  }

  // The live blocks that no process holds.
  ghost function RestOf(t: seq<Pcb>, live: Blocks): Blocks {
    map f | f in live && !P.OwnedIn(t, f, live[f]) :: live[f]
  }

  // All blocks are accounted for, and no process holds a slab page.
  ghost predicate InStep(t: seq<Pcb>, live: Blocks, pages: Pages, rest: Blocks) {
    P.Accounted(t, live, rest) && forall f <- pages :: f in rest
  }

  lemma OwnedOthers(t: seq<Pcb>, live: Blocks, pages: Pages, rest: Blocks, f: nat, k: Blk)
    requires InStep(t, live, pages, rest) && P.OwnedIn(t, f, k)
    ensures f in Others(pages, live) && Others(pages, live)[f] == k
  {
    hide P.OwnedIn;
  }

  // The blocks that processes hold are still there and no slab pages.
  lemma StillInStep(t: seq<Pcb>, live: Blocks, pages: Pages, rest: Blocks, live': Blocks, pages': Pages)
    requires InStep(t, live, pages, rest) && PagesLive(pages', live')
    requires forall f: nat, k: Blk :: P.OwnedIn(t, f, k) ==> f in Others(pages', live') && live'[f] == k
    ensures InStep(t, live', pages', RestOf(t, live'))
  {
    hide P.OwnedIn, P.Owns;
    forall f | f in pages' ensures f in RestOf(t, live') {
      assert f !in Others(pages', live');
    }
    forall i: nat, j: nat, f: nat, k: Blk, l: Blk | i < j < |t| && P.Owns(t[i], f, k) ensures !P.Owns(t[j], f, l) { }
  }

  // An object is handed out.
  lemma GrownInStep(t: seq<Pcb>, live: Blocks, pages: Pages, rest: Blocks, live': Blocks, pages': Pages, a: nat, n: nat)
    requires InStep(t, live, pages, rest) && PagesLive(pages', live') && Grows(pages, live, pages', live', a, n)
    ensures InStep(t, live', pages', RestOf(t, live'))
  {
    hide P.OwnedIn, InStep, Granted;
    forall f: nat, k: Blk | P.OwnedIn(t, f, k) ensures f in Others(pages', live') && live'[f] == k {
      OwnedOthers(t, live, pages, rest, f, k);
    }
    StillInStep(t, live, pages, rest, live', pages');
  }

  // An object is given back: all is well exactly if no process holds it.
  lemma ShrunkInStep(t: seq<Pcb>, live: Blocks, pages: Pages, rest: Blocks, live': Blocks, pages': Pages, a: nat)
    requires InStep(t, live, pages, rest) && PagesLive(pages', live') && Shrinks(pages, live, pages', live', a)
    ensures InStep(t, live', pages', RestOf(t, live')) <==> !OwnedAt(t, a)
  {
    hide P.OwnedIn, InStep, Granted;
    if f: nat, k: Blk :| P.OwnedIn(t, f, k) && a == FrameToAddr(f) {
      if InStep(t, live', pages', RestOf(t, live')) {
        OwnedOthers(t, live', pages', RestOf(t, live'), f, k);
        BlockGranted(pages', live', f);
      }
    } else {
      forall f: nat, k: Blk | P.OwnedIn(t, f, k) ensures f in Others(pages', live') && live'[f] == k {
        OwnedOthers(t, live, pages, rest, f, k);
      }
      StillInStep(t, live, pages, rest, live', pages');
    }
  }

  // The user blocks are given back, kernel stacks of processes among them.
  lemma KernelInStep(t: seq<Pcb>, live: Blocks, pages: Pages, rest: Blocks)
    requires InStep(t, live, pages, rest) && PagesLive(pages, KernelOf(live))
    ensures InStep(t, KernelOf(live), pages, RestOf(t, KernelOf(live)))
            <==> forall f: nat :: !P.OwnedIn(t, f, Live(1, true))
  {
    hide P.OwnedIn, InStep;
    if f: nat :| P.OwnedIn(t, f, Live(1, true)) {
      OwnedOthers(t, live, pages, rest, f, Live(1, true));
      if InStep(t, KernelOf(live), pages, RestOf(t, KernelOf(live))) {
        OwnedOthers(t, KernelOf(live), pages, RestOf(t, KernelOf(live)), f, Live(1, true));
      }
    } else {
      forall f: nat, k: Blk | P.OwnedIn(t, f, k) ensures f in Others(pages, KernelOf(live)) && KernelOf(live)[f] == k {
        OwnedOthers(t, live, pages, rest, f, k);
        OwnedKinds(t, f, k);
      }
      StillInStep(t, live, pages, rest, KernelOf(live), pages);
    }
  }

  // The block at the address is gone, if one begins there that is no slab page.
  lemma UnmappedInStep(t: seq<Pcb>, live: Blocks, live': Blocks, pages: Pages, rest: Blocks, addr: nat)
    requires InStep(t, live, pages, rest) && PagesLive(pages, live')
    requires live' == if IsFrameAddr(addr) then live - {AddrToFrame(addr)} else live
    ensures InStep(t, live', pages, RestOf(t, live')) <==> !OwnedAt(t, addr)
  {
    hide P.OwnedIn, InStep;
    if f: nat, k: Blk :| P.OwnedIn(t, f, k) && addr == FrameToAddr(f) {
      OwnedOthers(t, live, pages, rest, f, k);
      OwnedKinds(t, f, k);
      AddrRoundTrip(f);
      if InStep(t, live', pages, RestOf(t, live')) { OwnedOthers(t, live', pages, RestOf(t, live'), f, k); }
    } else {
      forall f: nat, k: Blk | P.OwnedIn(t, f, k) ensures f in Others(pages, live') && live'[f] == k {
        OwnedOthers(t, live, pages, rest, f, k);
        if IsFrameAddr(addr) { FrameOfAddr(addr); }
      }
      StillInStep(t, live, pages, rest, live', pages);
    }
  }

  lemma OwnedKinds(t: seq<Pcb>, f: nat, k: Blk)
    requires P.OwnedIn(t, f, k)
    ensures (k == Live(1, true) || k == Live(0, false)) && f < FRAME_COUNT
  {
    var i: nat :| i < |t| && P.Owns(t[i], f, k);
    if IsFrameAddr(P.StackAddr(t[i])) { FrameOfAddr(P.StackAddr(t[i])); }
    if IsFrameAddr(t[i].pml4) { FrameOfAddr(t[i].pml4); }
  }

  // A new process has its blocks.
  lemma SpawnState(m: Memory, m': Memory, pages: Pages, chains: Lists, b: Blocks, live': Blocks, p: Pcb, stack: nat)
    requires State(m, pages, chains, LiveOf(b)) && Undisturbed(m, m', b) && P.Taken(LiveOf(b), live', p)
    requires p.rsp0 == stack + P.STACK_SIZE && P.LinksThere(m'.w0, stack, p.pml4)
    ensures State(m', pages, chains, live')
  {
    hide IsFrameAddr, AddrToFrame, Undisturbed, ChainsOk, Memory.PageAt, IsLink;
    StackIs(p, stack);
    KeepState(m, m', pages, chains, b);
    LinkIsNotMagic(m'.w0[AddrToFrame(stack)]);
    LinkIsNotMagic(m'.w0[AddrToFrame(p.pml4)]);
  }

  lemma StackIs(p: Pcb, stack: nat)
    requires p.rsp0 == stack + P.STACK_SIZE && IsFrameAddr(stack)
    ensures P.StackAddr(p) == stack
  {
  }

  // Blocks that are no slab pages are gone.
  lemma FewerState(m: Memory, m': Memory, pages: Pages, chains: Lists, live: Blocks, c: Blocks)
    requires State(m, pages, chains, live) && Undisturbed(m, m', c)
    requires (forall f <- LiveOf(c) :: f in live && live[f] == LiveOf(c)[f]) && forall f <- pages :: f in LiveOf(c)
    ensures State(m', pages, chains, LiveOf(c))
  {
    hide LiveOf, Undisturbed, ChainsOk;
    UndisturbedSized(m, m', c);
    forall f | f in pages ensures f < FRAME_COUNT && f in LiveOf(c) && m'.PageAt(f, pages[f]) {
      UndisturbedAt(m, m', c, f);
      assert m.PageAt(f, pages[f]);
    }
    forall h | h in LiveOf(c) && h !in pages ensures h < FRAME_COUNT && MagicOf(m'.w0[h]) != SLAB_MAGIC {
      UndisturbedAt(m, m', c, h);
    }
  }

  lemma GivenBackParts(live: Blocks, live': Blocks, p: Pcb)
    requires P.GivenBack(live, live', p)
    ensures forall f <- live' :: f in live && live[f] == live'[f]
  {
    hide P.Owns;
  }

  lemma AccountedRest(t: seq<Pcb>, live: Blocks, rest: Blocks)
    requires P.Accounted(t, live, rest)
    ensures forall f <- rest :: f in live
  {
    hide P.Owns, P.OwnedIn;
  }

  // The blocks of a process overlap nothing else that has been handed out.
  lemma ProcessApart(t: seq<Pcb>, b: Blocks, pages: Pages, rest: Blocks, f: nat, k: Blk, x: nat, n: nat)
    requires Tiled(b, MAX_ORDER) && PagesLive(pages, LiveOf(b)) && InStep(t, LiveOf(b), pages, rest)
    requires P.OwnedIn(t, f, k) && Granted(pages, LiveOf(b), x, n) && x != FrameToAddr(f)
    ensures x + n <= FrameToAddr(f) || FrameToAddr(f) + FRAME_SIZE * Pow2(k.order) <= x
  {
    hide P.OwnedIn, InStep, Granted, LiveOf, Tiled;
    OwnedOthers(t, LiveOf(b), pages, rest, f, k);
    OwnedKinds(t, f, k);
    BlockGranted(pages, LiveOf(b), f);
    GrantedDisjoint(pages, b, x, n, FrameToAddr(f), FRAME_SIZE * Pow2(k.order));
  }

  // The stack and the page-table root that a spawn took belong to the child.
  lemma SpawnOwns(s: Sys, stack: nat, pml4: nat, s': Sys)
    requires Wf(s) && Step(s, Event.Spawn(stack, pml4), s') && IsFrameAddr(stack) && IsFrameAddr(pml4)
    ensures OwnedAt(s'.table, stack) && OwnedAt(s'.table, pml4)
  {
    var slot: nat :| FirstEmpty(s.table, slot)
      && s' == Sys(s.table[slot := Child(s, stack, pml4)], s.current, s.nextPid + 1);
    var p := s'.table[slot];
    StackIs(p, stack);
    FrameOfAddr(stack);
    FrameOfAddr(pml4);
    assert P.Owns(p, AddrToFrame(stack), Live(1, true)) && P.Owns(p, AddrToFrame(pml4), Live(0, false));
    assert P.OwnedIn(s'.table, AddrToFrame(stack), Live(1, true));
    assert P.OwnedIn(s'.table, AddrToFrame(pml4), Live(0, false));
  }

  // A large object begins with a frame.
  lemma BigAligned(pages: Pages, live: Blocks, a: nat, n: nat)
    requires Granted(pages, live, a, n) && n > 2048
    ensures a % FRAME_SIZE == 0
  {
  }

  class Kernel {
    const mem: Allocator
    const procs: P.Processes

    ghost predicate Valid()
      reads mem, mem.Repr(), procs, procs.pcbs, procs.heap, procs.heap.next, procs.heap.prev, procs.heap.tags,
            procs.heap.area
    {
      && procs.heap == mem.heap && mem.Valid() && procs.Valid()
      && forall f <- mem.pages :: f in procs.rest
    }

    // memory_init, then process_init, which takes the idle process's stack.
    constructor (cr3: nat)
      requires !IsFrameAddr(cr3)
      ensures Valid() && fresh(mem) && fresh(mem.Repr()) && fresh(procs) && fresh(procs.pcbs)
    {
      hide Heap.Valid, State, Linked, Grows, CanServe, ContentsKept, P.Accounted, P.OwnedIn, RestOf, PidsOk,
           OneRunning, LiveOf, Granted, Wf, SizeFor, IsFrameAddr, ChainsOk, Memory.Sized, Allocator.Shape;
      var m := new Allocator();
      var kstack, n := m.Kmalloc(P.STACK_SIZE);
      if kstack != NULL { BigAligned(m.pages, m.heap.LiveBlocks(), kstack, n); }
      StateParts(m.Mem(), m.pages, m.chains, m.heap.LiveBlocks());
      var p := new P.Processes(m.heap, kstack, cr3);
      mem, procs := m, p;
    }

    // kmalloc.
    method Kmalloc(size: nat) returns (r: nat, ghost n: nat)
      requires Valid() && size < TWO64
      modifies mem.Repr(), procs`rest
      ensures Valid() && procs.State() == old(procs.State())
      ensures r == NULL <==> size == 0 || !CanServe(old(mem.pages), old(mem.heap.blocks), size)
      ensures r != NULL ==> Grows(old(mem.pages), old(mem.heap.LiveBlocks()), mem.pages, mem.heap.LiveBlocks(), r, n)
      ensures mem.ContentsSince(NULL)
    {
      hide Heap.Valid, State, Linked, Grows, CanServe, ContentsKept, P.Accounted, P.OwnedIn, RestOf, PidsOk,
           OneRunning, LiveOf;
      ghost var live, pages, rest := mem.heap.LiveBlocks(), mem.pages, procs.rest;
      r, n := mem.Kmalloc(size);
      StateParts(mem.Mem(), mem.pages, mem.chains, mem.heap.LiveBlocks());
      if r != NULL {
        GrownInStep(procs.pcbs[..], live, pages, rest, mem.heap.LiveBlocks(), mem.pages, r, n);
        procs.rest := RestOf(procs.pcbs[..], mem.heap.LiveBlocks());
      }
    }

    // kfree: memory and processes stay in step exactly if what is freed is no
    // block of a process.
    method Kfree(ptr: nat)
      requires Valid() && ptr < TWO64
      requires InHeap(ptr) && MagicOf(mem.heap.next[AddrToFrame(ptr)]) == SLAB_MAGIC ==> exists n: nat ::
        SmallObj(mem.pages, ptr, n)
      modifies mem.Repr(), procs`rest
      ensures Valid() <==> !OwnedAt(old(procs.pcbs[..]), ptr)
      ensures mem.Valid() && procs.State() == old(procs.State())
      ensures Shrinks(old(mem.pages), old(mem.heap.LiveBlocks()), mem.pages, mem.heap.LiveBlocks(), ptr)
      ensures mem.ContentsSince(ptr)
    {
      hide Heap.Valid, State, Linked, Shrinks, ContentsKept, P.Accounted, P.OwnedIn, RestOf, PidsOk, OneRunning,
           LiveOf, OwnedAt, SmallObj;
      ghost var live, pages, rest := mem.heap.LiveBlocks(), mem.pages, procs.rest;
      mem.Kfree(ptr);
      StateParts(mem.Mem(), mem.pages, mem.chains, mem.heap.LiveBlocks());
      ShrunkInStep(procs.pcbs[..], live, pages, rest, mem.heap.LiveBlocks(), mem.pages, ptr);
      procs.rest := RestOf(procs.pcbs[..], mem.heap.LiveBlocks());
    }

    // mmap_user.
    method MmapUser(length: nat) returns (r: nat, ghost n: nat)
      requires Valid() && length < TWO64
      modifies mem.Repr(), procs`rest
      ensures Valid() && procs.State() == old(procs.State()) && mem.pages == old(mem.pages)
      ensures r == NULL <==> !CanMap(old(mem.heap.blocks), length)
      ensures r != NULL ==> Grows(old(mem.pages), old(mem.heap.LiveBlocks()), mem.pages, mem.heap.LiveBlocks(), r, n)
      ensures mem.ContentsSince(NULL)
    {
      hide Heap.Valid, State, Linked, Grows, CanMap, ContentsKept, P.Accounted, P.OwnedIn, RestOf, PidsOk, OneRunning,
           LiveOf;
      ghost var live, pages, rest := mem.heap.LiveBlocks(), mem.pages, procs.rest;
      r, n := mem.MmapUser(length);
      StateParts(mem.Mem(), mem.pages, mem.chains, mem.heap.LiveBlocks());
      if r != NULL {
        GrownInStep(procs.pcbs[..], live, pages, rest, mem.heap.LiveBlocks(), mem.pages, r, n);
        procs.rest := RestOf(procs.pcbs[..], mem.heap.LiveBlocks());
      }
    }

    // munmap_user, which takes any address: all is well exactly if that is neither
    // a slab page nor a block of a process.
    method MunmapUser(addr: nat, length: nat) returns (r: int)
      requires Valid() && addr < TWO64
      modifies mem.Repr(), procs`rest
      ensures Valid() <==> !PageAddr(old(mem.pages), addr) && !OwnedAt(old(procs.pcbs[..]), addr)
      ensures mem.heap.Valid() && procs.State() == old(procs.State()) && mem.pages == old(mem.pages)
      ensures mem.heap.LiveBlocks() == if IsFrameAddr(addr) then old(mem.heap.LiveBlocks()) - {AddrToFrame(addr)}
                                       else old(mem.heap.LiveBlocks())
      ensures r == if addr == NULL || IsFrameAddr(addr) then 0 else -1
    {
      hide Heap.Valid, State, Linked, Shrinks, ContentsKept, P.Accounted, P.OwnedIn, RestOf, PidsOk, OneRunning,
           LiveOf, OwnedAt, PageAddr, IsFrameAddr, AddrToFrame, LiveAt;
      ghost var live, pages, rest := mem.heap.LiveBlocks(), mem.pages, procs.rest;
      StateParts(mem.Mem(), mem.pages, mem.chains, mem.heap.LiveBlocks());
      r := mem.MunmapUser(addr, length);
      if !PageAddr(pages, addr) {
        StateParts(mem.Mem(), mem.pages, mem.chains, mem.heap.LiveBlocks());
        UnmappedInStep(procs.pcbs[..], live, mem.heap.LiveBlocks(), pages, rest, addr);
        procs.rest := RestOf(procs.pcbs[..], mem.heap.LiveBlocks());
      }
    }

    // munmap_all_user: it takes the kernel stacks of the processes too.
    method MunmapAllUser()
      requires Valid()
      modifies mem.Repr(), procs`rest
      ensures Valid() <==> forall f: nat :: !P.OwnedIn(old(procs.pcbs[..]), f, Live(1, true))
      ensures mem.Valid() && procs.State() == old(procs.State()) && mem.pages == old(mem.pages)
      ensures mem.heap.LiveBlocks() == KernelOf(old(mem.heap.LiveBlocks()))
    {
      hide Heap.Valid, State, Linked, ContentsKept, P.Accounted, P.OwnedIn, RestOf, PidsOk, OneRunning, LiveOf,
           KernelOf, Granted;
      ghost var live, pages, rest := mem.heap.LiveBlocks(), mem.pages, procs.rest;
      mem.MunmapAllUser();
      StateParts(mem.Mem(), mem.pages, mem.chains, mem.heap.LiveBlocks());
      KernelInStep(procs.pcbs[..], live, pages, rest);
      procs.rest := RestOf(procs.pcbs[..], mem.heap.LiveBlocks());
    }

    // A caller stores a word in its object.
    method Store(f: nat, w: nat, v: int, ghost a: nat, ghost n: nat)
      requires Valid() && f < FRAME_COUNT && w < FRAME_WORDS && mem.Holds(a, n)
      requires a <= FrameToAddr(f) + 8 * w && FrameToAddr(f) + 8 * w + 8 <= a + n
      requires FrameToAddr(f) + 8 * w == a && w == 0 ==> MagicOf(v) != SLAB_MAGIC
      modifies mem.Repr()
      ensures Valid() && procs.State() == old(procs.State()) && mem.heap.blocks == old(mem.heap.blocks)
    {
      hide Heap.Valid, State, Linked, P.Accounted, P.OwnedIn, RestOf, PidsOk, OneRunning, LiveOf, Granted;
      mem.ClientStore(f, w, v, a, n);
    }

    // proc_spawn.
    method Spawn() returns (r: int, ghost stack: nat, ghost pml4: nat)
      requires Valid() && Alive(procs.State())
      modifies mem.Repr(), procs, procs.pcbs
      ensures Valid() && mem.pages == old(mem.pages)
      ensures r == -1 <==> (forall i: nat :: !InState(old(procs.pcbs[..]), i, Empty))
                           || !HasRun(old(mem.heap.blocks), MAX_ORDER, 1) || P.OnlyPair(old(mem.heap.blocks))
      ensures r == -1 ==> procs.State() == old(procs.State()) && mem.heap.blocks == old(mem.heap.blocks)
      ensures r != -1 ==> Step(old(procs.State()), Event.Spawn(stack, pml4), procs.State())
      ensures r != -1 ==> OwnedAt(procs.pcbs[..], stack) && OwnedAt(procs.pcbs[..], pml4)
      // What callers keep in their objects is untouched.
      ensures mem.ContentsSince(NULL)
    {
      hide Heap.Valid, State, Linked, ContentsKept, P.Accounted, P.OwnedIn, RestOf, PidsOk, OneRunning, LiveOf,
           HasRun, P.OnlyPair, Step, P.Taken, Undisturbed, Kept, Tiled, Coalesced, CoalescedExcept, IsFrameAddr,
           AddrToFrame, IsLink, OwnedAt;
      ghost var m, b := mem.Mem(), mem.heap.blocks;
      ghost var s := procs.State();
      mem.heap.Sizes();
      StateParts(m, mem.pages, mem.chains, LiveOf(b));
      r, stack, pml4 := procs.Spawn();
      Undisturb(m, mem.Mem(), b);
      UndisturbedSpares(b, mem.pages.Keys, NULL, m, mem.Mem(), mem.slabNext[..], mem.slabPrev[..]);
      ObjectsSpared(mem.pages, b, m, mem.slabNext[..], mem.slabPrev[..], mem.Mem(), mem.slabNext[..],
                    mem.slabPrev[..]);
      if r == -1 {
        KeepState(m, mem.Mem(), mem.pages, mem.chains, b);
      } else {
        SpawnState(m, mem.Mem(), mem.pages, mem.chains, b, mem.heap.LiveBlocks(), Child(s, stack, pml4), stack);
        SpawnOwns(s, stack, pml4, procs.State());
      }
    }

    // One turn of proc_waitpid.
    method WaitTurn(pid: int) returns (r: P.Turn, ghost i: nat)
      requires Valid() && Alive(procs.State())
      modifies mem.Repr(), procs, procs.pcbs
      ensures Valid() && mem.pages == old(mem.pages)
      ensures Step(old(procs.State()), Event.Wait(pid), procs.State())
      ensures r == P.Again <==> WouldBlock(old(procs.pcbs[..]), pid)
      ensures r.Reaped? ==> FirstPid(old(procs.pcbs[..]), pid, i) && r.code == old(procs.pcbs[..])[i].exitCode
      ensures r.Reaped? ==> P.GivenBack(old(mem.heap.LiveBlocks()), mem.heap.LiveBlocks(), old(procs.pcbs[..])[i])
      ensures !r.Reaped? ==> mem.heap.blocks == old(mem.heap.blocks)
      // What callers keep in the objects that are left is untouched.
      ensures ContentsKept(mem.pages, mem.heap.LiveBlocks(), NULL, old(mem.Mem()), old(mem.slabNext[..]),
                           old(mem.slabPrev[..]), mem.Mem(), mem.slabNext[..], mem.slabPrev[..])
    {
      hide Heap.Valid, State, Linked, ContentsKept, P.Accounted, P.OwnedIn, RestOf, PidsOk, OneRunning, Step,
           WouldBlock, P.GivenBack, Undisturbed, Kept, Tiled, Coalesced, CoalescedExcept, LiveOf;
      ghost var m, live, t := mem.Mem(), mem.heap.LiveBlocks(), procs.pcbs[..];
      mem.heap.Sizes();
      StateParts(m, mem.pages, mem.chains, live);
      r, i := procs.WaitTurn(pid);
      mem.heap.Sizes();
      ghost var c := mem.heap.blocks;
      Undisturb(m, mem.Mem(), c);
      if r.Reaped? { GivenBackParts(live, LiveOf(c), t[i]); }
      AccountedRest(procs.pcbs[..], LiveOf(c), procs.rest);
      FewerState(m, mem.Mem(), mem.pages, mem.chains, live, c);
      StateParts(mem.Mem(), mem.pages, mem.chains, LiveOf(c));
      UndisturbedSpares(c, mem.pages.Keys, NULL, m, mem.Mem(), mem.slabNext[..], mem.slabPrev[..]);
      ObjectsSpared(mem.pages, c, m, mem.slabNext[..], mem.slabPrev[..], mem.Mem(), mem.slabNext[..],
                    mem.slabPrev[..]);
    }

    // proc_exit and schedule leave memory alone.
    method Exit(code: int)
      requires Valid() && Alive(procs.State())
      modifies procs, procs.pcbs
      ensures Valid() && Step(old(procs.State()), Event.Exit(code), procs.State())
    {
      hide Heap.Valid, State, Linked, P.Accounted, P.OwnedIn, RestOf, PidsOk, OneRunning, LiveOf, Step;
      procs.Exit(code);
    }

    method Schedule()
      requires Valid()
      modifies procs, procs.pcbs
      ensures Valid() && Step(old(procs.State()), Tick, procs.State())
    {
      hide Heap.Valid, State, Linked, P.Accounted, P.OwnedIn, RestOf, PidsOk, OneRunning, LiveOf, Step;
      procs.Schedule();
    }
  }
}
