/** pml4_map_phys: the page tables in place, grown with pages of the heap. */
module PageTables {
  import opened Options
  import opened Widths
  import opened Dyadic
  import opened Layout
  import opened Blocks
  import opened BuddyHeap
  import opened Grants
  import opened Paging
  import opened PageRights

  // How many pages after virt's the page of v comes, going round 2^27.
  function PageDist(virt: nat, v: nat): (n: nat)
    ensures n < 0x800_0000
  {
    (PageNo(v) - PageNo(virt)) % 0x800_0000
  }

  // The n pages from virt on translate to those from phys on, all else as before.
  ghost predicate Mapped(m: Mem, m': Mem, root: nat, virt: nat, phys: nat, n: nat) {
    forall v: nat :: Walk(m', root, v) ==
      if PageDist(virt, v) < n then Some(phys + PAGE * PageDist(virt, v) + v % PAGE) else Walk(m, root, v)
  }

  // One page translates as given, all else as before.
  ghost predicate PageAt(m: Mem, m': Mem, root: nat, va: nat, pa: nat) {
    forall v: nat :: Walk(m', root, v) == if PageNo(v) == PageNo(va) then Some(pa + v % PAGE) else Walk(m, root, v)
  }

  // The first n pages from virt on are open as far as the entries above let through.
  ghost predicate Granted(m: Mem, m': Mem, root: nat, virt: nat, phys: nat, n: nat) {
    forall v: nat :: GrantedAt(m, m', root, virt, phys, n, v)
  }

  ghost predicate GrantedAt(m: Mem, m': Mem, root: nat, virt: nat, phys: nat, n: nat, v: nat) {
    var d := PageDist(virt, v);
    if d < n then Rights(m', root, v) == Opened(Rights(m, root, v)) && PageIs(m', root, v, phys + PAGE * d + 0x87)
    else Rights(m', root, v) == Rights(m, root, v)
  }

  lemma GrantedNone(m: Mem, root: nat, virt: nat, phys: nat)
    ensures Granted(m, m, root, virt, phys, 0)
  {
    hide Rights, PageIs, PageDist;
  }

  lemma GrantedSame(m: Mem, m1: Mem, m2: Mem, root: nat, virt: nat, phys: nat, n: nat)
    requires Granted(m, m1, root, virt, phys, n) && SameRights(m1, m2, root)
    ensures Granted(m, m2, root, virt, phys, n)
  {
    hide Rights, PageIs, PageDist;
    forall v: nat ensures GrantedAt(m, m2, root, virt, phys, n, v) {
      assert GrantedAt(m, m1, root, virt, phys, n, v) && PagesStay(m1, m2, root, v);
    }
  }

  lemma GrantedNext(m: Mem, m1: Mem, m2: Mem, root: nat, virt: nat, phys: nat, n: nat, va: nat, pa: nat)
    requires Granted(m, m1, root, virt, phys, n) && va == virt + PAGE * n && pa == phys + PAGE * n && n < 0x800_0000
    requires Enters(m1, m2, root, va, pa + 0x87)
    ensures Granted(m, m2, root, virt, phys, n + 1)
  {
    hide Rights, PageIs, PageDist, PageNo;
    var k := n + 1;
    forall v: nat ensures GrantedAt(m, m2, root, virt, phys, k, v) {
      NextPage(virt, va, n, v);
      assert GrantedAt(m, m1, root, virt, phys, n, v) && EntersAt(m1, m2, root, va, pa + 0x87, v);
    }
  }

  lemma MappedNone(m: Mem, root: nat, virt: nat, phys: nat)
    ensures Mapped(m, m, root, virt, phys, 0)
  {
  }

  lemma NextPage(virt: nat, va: nat, n: nat, v: nat)
    requires va == virt + PAGE * n && n < 0x800_0000
    ensures PageDist(virt, v) == n <==> PageNo(v) == PageNo(va)
  {
    var p := virt / PAGE;
    assert va / PAGE == p + n;
    Cyclic(p, n, PageNo(v));
  }

  lemma Cyclic(p: nat, n: nat, q: nat)
    requires n < 0x800_0000 && q < 0x800_0000
    ensures (q - p % 0x800_0000) % 0x800_0000 == n <==> q == (p + n) % 0x800_0000
  {
    var k, r := p / 0x800_0000, p % 0x800_0000;
    assert p == 0x800_0000 * k + r;
    assert (p + n) % 0x800_0000 == (r + n) % 0x800_0000;
  }

  lemma MappedNext(m: Mem, m1: Mem, m2: Mem, root: nat, virt: nat, phys: nat, n: nat, va: nat, pa: nat)
    requires Mapped(m, m1, root, virt, phys, n) && va == virt + PAGE * n && pa == phys + PAGE * n && n < 0x800_0000
    requires PageAt(m1, m2, root, va, pa)
    ensures Mapped(m, m2, root, virt, phys, n + 1)
  {
    hide Walk, PageNo, PageDist;
    forall v: nat ensures PageDist(virt, v) == n <==> PageNo(v) == PageNo(va) { NextPage(virt, va, n, v); }
  }

  lemma MappedSame(m: Mem, m1: Mem, m2: Mem, root: nat, virt: nat, phys: nat, n: nat)
    requires Mapped(m, m1, root, virt, phys, n) && forall v: nat :: Walk(m2, root, v) == Walk(m1, root, v)
    ensures Mapped(m, m2, root, virt, phys, n)
  {
    hide Walk, PageDist;
  }

  // How many pages a size takes.
  function PagesIn(size: nat): nat { (size + PAGE - 1) / PAGE }

  lemma AnotherPage(size: nat, n: nat)
    ensures PAGE * n < size <==> n < PagesIn(size)
    ensures size <= 0x1_0000_0000_0000 ==> PagesIn(size) <= 0x800_0000
  {
  }

  lemma WholePage(phys: nat, offset: nat, size: nat)
    requires phys % PAGE == 0 && offset % PAGE == 0 && offset < size && phys + size <= 0x10_0000_0000_0000
    ensures (phys + offset) % PAGE == 0 && phys + offset + PAGE <= 0x10_0000_0000_0000
  {
  }

  // Among 48-bit addresses the pages mapped are those of the range, and each
  // address in it keeps its distance.
  lemma RangeIff(virt: nat, v: nat, n: nat)
    requires virt % PAGE == 0 && virt + PAGE * n <= 0x1_0000_0000_0000 && virt < 0x1_0000_0000_0000
    requires v < 0x1_0000_0000_0000
    ensures PageDist(virt, v) < n <==> virt <= v < virt + PAGE * n
    ensures virt <= v ==> PAGE * PageDist(virt, v) + v % PAGE == v - virt
  {
    var p, q := virt / PAGE, v / PAGE;
    assert virt == PAGE * p && v == PAGE * q + v % PAGE;
    assert PageNo(virt) == p && PageNo(v) == q;
    assert PageDist(virt, v) == if q >= p then q - p else q - p + 0x800_0000;
  }

  // What pml4_map_phys is for: the range goes to phys, the rest stays.
  lemma RangeTranslates(m: Mem, m': Mem, root: nat, virt: nat, phys: nat, n: nat, v: nat)
    requires Mapped(m, m', root, virt, phys, n) && virt % PAGE == 0
    requires virt + PAGE * n <= 0x1_0000_0000_0000 && virt < 0x1_0000_0000_0000 && v < 0x1_0000_0000_0000
    ensures Walk(m', root, v) == if virt <= v < virt + PAGE * n then Some(phys + (v - virt)) else Walk(m, root, v)
  {
    hide Walk, PageDist;
    RangeIff(virt, v, n);
  }

  // A page of the range is open to user programs only where both entries above
  // were there before and are: a table hung in on the way keeps them out.
  lemma RangeRights(m: Mem, m': Mem, root: nat, virt: nat, phys: nat, n: nat, v: nat)
    requires Granted(m, m', root, virt, phys, n) && virt % PAGE == 0
    requires virt + PAGE * n <= 0x1_0000_0000_0000 && virt < 0x1_0000_0000_0000 && v < 0x1_0000_0000_0000
    ensures MayTouch(m', root, v) == if virt <= v < virt + PAGE * n then UserWay(m, root, v) else MayTouch(m, root, v)
    ensures MayStore(m', root, v) == if virt <= v < virt + PAGE * n then StoreWay(m, root, v) else MayStore(m, root, v)
    ensures virt <= v < virt + PAGE * n ==> PageIs(m', root, v, phys + (v - virt) - v % PAGE + 0x87)
  {
    hide MayTouch, MayStore, UserWay, StoreWay, PageDist, PageIs;
    RangeIff(virt, v, n);
    assert GrantedAt(m, m', root, virt, phys, n, v);
  }

  // Every table in the heap lies in an allocated block.
  ghost predicate TablesHeld(m: Mem, b: Blocks) {
    forall a <- m :: IsFrameAddr(a) ==> InUse(b, AddrToFrame(a))
  }

  lemma PageOrder(o: nat)
    requires IsOrderFor(o, if PagesFor(4096) == 0 then 1 else PagesFor(4096))
    ensures o == 0
  {
    assert PagesFor(4096) == 1 && Pow2(0) == 1;
    OrderUnique(1, o, 0);
  }

  // A page just allocated holds no table yet.
  lemma NewPage(m: Mem, b: Blocks, c: Blocks, h: nat, p: nat)
    requires Canonical(b, MAX_ORDER) && Canonical(c, MAX_ORDER) && Served(b, c, h, Live(0, true))
    requires TablesHeld(m, b) && h < FRAME_COUNT && p == FrameToAddr(h)
    ensures p !in m && p % 4096 == 0 && p > 0 && TablesHeld(m[p := Zeros()], c)
  {
    hide Tiled, Coalesced, CoalescedExcept, Served, InUse;
    AddrRoundTrip(h);
    assert Pow2(0) == 1;
    CoveredSame(b, c, h, Live(0, true), h);
    forall a | a in m && IsFrameAddr(a) ensures InUse(c, AddrToFrame(a)) {
      FrameOfAddr(a);
      CoveredSame(b, c, h, Live(0, true), AddrToFrame(a));
    }
  }

  class AddressSpace {
    var tables: Mem
    const heap: Heap
    ghost var roles: Roles

    ghost predicate Valid(root: nat)
      reads this, heap, heap.next, heap.prev, heap.tags, heap.area
    {
      heap.Valid() && Tree(tables, roles, root) && TablesHeld(tables, heap.blocks)
    }

    constructor (h: Heap, m: Mem, ghost rs: Roles, ghost root: nat)
      requires h.Valid() && Tree(m, rs, root) && TablesHeld(m, h.blocks)
      ensures Valid(root) && heap == h && tables == m && roles == rs
    {
      tables, heap, roles := m, h, rs;
    }

    // mmap_user of one page for a table.
    method TakePage() returns (p: nat)
      requires heap.Valid() && TablesHeld(tables, heap.blocks)
      modifies heap, heap.next, heap.prev, heap.tags, heap.area
      ensures heap.Valid() && TablesHeld(tables, heap.blocks)
      ensures p == NULL ==> !HasRun(heap.blocks, MAX_ORDER, 0)
      ensures p != NULL ==> p !in tables && p % 4096 == 0 && TablesHeld(tables[p := Zeros()], heap.blocks)
    {
      hide Heap.Valid, TablesHeld, HasRun, Served, IsOrderFor, Kept, FrameToAddr;
      ghost var b := heap.blocks;
      ghost var h, o;
      heap.Sizes();
      p, h, o := heap.MmapUser(4096);
      PageOrder(o);
      heap.Sizes();
      if p != NULL {
        NewPage(tables, b, heap.blocks, h, p);
        HeldPart(tables, p, heap.blocks);
      }
    }

    // Entry i of table a, of the first or second level, is made to lead on: if it
    // does not yet, a new zeroed table is hung into it.
    method Descend(ghost root: nat, a: nat, i: nat) returns (ok: bool, r: nat)
      requires Valid(root) && a in roles && (roles[a].Root? || roles[a].L3?) && i < 512
      requires roles[a].Root? ==> a == root
      modifies this, heap, heap.next, heap.prev, heap.tags, heap.area
      ensures Valid(root)
      ensures forall v: nat :: Walk(tables, root, v) == Walk(old(tables), root, v)
      ensures !ok ==> !HasRun(heap.blocks, MAX_ORDER, 0) && tables == old(tables)
      ensures ok ==> Present(Get(tables, a, i)) && Target(Get(tables, a, i)) == r
      ensures ok ==> r in roles && roles[r] == if old(roles)[a].Root? then L3(i) else L2(old(roles)[a].i, i)
      ensures KeptBut(old(tables), tables, old(roles), roles, a, i)
      ensures SameRights(old(tables), tables, root)
    {
      hide Heap.Valid, TablesHeld, HasRun, Walk, Target, Present, EntryOk, Tree, KeptBut, Hung, Rights, PageIs;
      ghost var m, rs := tables, roles;
      EntryAt(m, rs, root, a, i);
      KeptAll(m, rs, a, i);
      var e := tables[a][i];
      if !Present(e) {
        var p := TakePage();
        if p == NULL {
          return false, 0;
        }
        ghost var role := if roles[a].Root? then L3(i) else L2(roles[a].i, i);
        tables := tables[p := Zeros()];
        tables := Store(tables, a, i, p + 3);
        roles := roles[p := role];
        HungIs(m, tables, rs, roles, root, a, i, p, role);
        HungState(m, tables, rs, roles, root, a, i, p, heap.blocks);
        HungRights(m, tables, rs, roles, root, a, i, p);
        return true, p;
      }
      ok, r := true, Target(e);
    }

    // One page.
    method MapPage(root: nat, va: nat, pa: nat) returns (ok: bool)
      requires Valid(root) && pa % PAGE == 0 && pa + PAGE <= 0x10_0000_0000_0000
      modifies this, heap, heap.next, heap.prev, heap.tags, heap.area
      ensures Valid(root)
      ensures !ok ==> forall v: nat :: Walk(tables, root, v) == Walk(old(tables), root, v)
      ensures !ok ==> !HasRun(heap.blocks, MAX_ORDER, 0)
      ensures ok ==> PageAt(old(tables), tables, root, va, pa)
      ensures if ok then Enters(old(tables), tables, root, va, pa + 0x87) else SameRights(old(tables), tables, root)
    {
      hide Heap.Valid, TablesHeld, HasRun, Walk, Target, Present, EntryOk, FrameToAddr, PageNo, I2, I3, I4;
      hide Enters, SameRights;
      var a, b;
      ok, a := Descend(root, root, I4(va));
      if !ok { return; }
      assert TableOk(tables, roles, root);
      ghost var m1 := tables;
      ok, b := Descend(root, a, I3(va));
      RightsTwice(old(tables), m1, tables, root);
      if !ok { return; }
      assert At2(tables, root, va, b);
      assert TableOk(tables, roles, b);
      ghost var m := tables;
      tables := Store(tables, b, I2(va), pa + 0x87);
      PageEntered(m, tables, roles, root, va, pa, b);
      AlignedPage(pa);
      EnteredRights(m, tables, roles, root, va, pa, b);
      EntersAfter(old(tables), m, tables, root, va, pa + 0x87);
      HeldSame(m, tables, heap.blocks);
      ok := true;
    }

    // pml4_map_phys. Every page is writable: the flag only sets a bit already set.
    method MapPhys(root: nat, virt: nat, phys: nat, size: nat, writable: bool) returns (r: int, ghost n: nat)
      requires Valid(root) && virt % PAGE == 0 && phys % PAGE == 0
      requires virt + size <= TWO64 && phys + size <= 0x10_0000_0000_0000 && size <= 0x1_0000_0000_0000
      modifies this, heap, heap.next, heap.prev, heap.tags, heap.area
      ensures Valid(root) && (r == 0 || r == -1)
      ensures Mapped(old(tables), tables, root, virt, phys, n)
      ensures Granted(old(tables), tables, root, virt, phys, n)
      ensures r == 0 ==> n == PagesIn(size)
      ensures r == -1 ==> n < PagesIn(size) && !HasRun(heap.blocks, MAX_ORDER, 0)
    {
      hide Heap.Valid, TablesHeld, HasRun, Mapped, PageAt, Tree, PageNo, Walk;
      hide Granted, Enters, SameRights;
      ghost var m := tables;
      MappedNone(m, root, virt, phys);
      GrantedNone(m, root, virt, phys);
      n := 0;
      var offset: nat := 0;
      while offset < size
        invariant offset == PAGE * n && n <= PagesIn(size)
        invariant Valid(root) && Mapped(m, tables, root, virt, phys, n)
        invariant Granted(m, tables, root, virt, phys, n)
      {
        AnotherPage(size, n);
        WholePage(phys, offset, size);
        ghost var m1 := tables;
        var ok := MapPage(root, virt + offset, phys + offset);
        if !ok {
          MappedSame(m, m1, tables, root, virt, phys, n);
          GrantedSame(m, m1, tables, root, virt, phys, n);
          return -1, n;
        }
        MappedNext(m, m1, tables, root, virt, phys, n, virt + offset, phys + offset);
        GrantedNext(m, m1, tables, root, virt, phys, n, virt + offset, phys + offset);
        offset := offset + PAGE;
        n := n + 1;
      }
      AnotherPage(size, n);
      r := 0;
    }
  }

  // Only entry i of table a changed; new tables may have come.
  ghost predicate KeptBut(m: Mem, m': Mem, rs: Roles, rs': Roles, a: nat, i: nat) {
    && (forall x | x in rs :: x in rs' && rs'[x] == rs[x])
    && forall x, k: nat | x in rs && !(x == a && k == i) :: Get(m', x, k) == Get(m, x, k)
  }

  lemma KeptAll(m: Mem, rs: Roles, a: nat, i: nat)
    ensures KeptBut(m, m, rs, rs, a, i)
  {
  }

  lemma HeldPart(m: Mem, p: nat, b: Blocks)
    requires TablesHeld(m[p := Zeros()], b)
    ensures TablesHeld(m, b)
  {
    hide IsFrameAddr, AddrToFrame, InUse;
  }

  lemma EntryAt(m: Mem, roles: Roles, root: nat, a: nat, i: nat)
    requires Tree(m, roles, root) && a in roles && (roles[a].Root? || roles[a].L3?) && i < 512
    ensures a in m && |m[a]| == 512 && Get(m, a, i) == m[a][i]
    ensures Present(m[a][i]) ==>
      Target(m[a][i]) in roles && roles[Target(m[a][i])] == if roles[a].Root? then L3(i) else L2(roles[a].i, i)
  {
    assert TableOk(m, roles, a);
    LeadsOn(roles, roles[a], i, m[a][i]);
  }

  lemma HungIs(m: Mem, m': Mem, rs: Roles, rs': Roles, root: nat, a: nat, i: nat, p: nat, role: Role)
    requires Tree(m, rs, root) && a in m && i < |m[a]| && p !in m && p % 4096 == 0 && !Present(m[a][i])
    requires rs' == rs[p := role] && m' == Store(m[p := Zeros()], a, i, p + 3)
    ensures Hung(m, m', rs, rs', a, i, p, role)
  {
    NotATable(m, rs, p);
  }

  // All that hanging a new table in keeps and brings about.
  lemma HungState(m: Mem, m': Mem, rs: Roles, rs': Roles, root: nat, a: nat, i: nat, p: nat, b: Blocks)
    requires Tree(m, rs, root) && a in rs && a in m && i < 512 == |m[a]| && (rs[a].Root? || rs[a].L3?)
    requires (rs[a].Root? ==> a == root)
    requires Hung(m, m', rs, rs', a, i, p, if rs[a].Root? then L3(i) else L2(rs[a].i, i))
    requires TablesHeld(m[p := Zeros()], b)
    ensures Tree(m', rs', root) && TablesHeld(m', b) && KeptBut(m, m', rs, rs', a, i)
    ensures forall v: nat :: Walk(m', root, v) == Walk(m, root, v)
    ensures Present(Get(m', a, i)) && Target(Get(m', a, i)) == p
  {
    hide Walk, Tree, TablesHeld, Present, Target;
    HungTree(m, m', rs, rs', root, a, i, p);
    HungWalks(m, m', rs, rs', root, a, i, p);
    EntryFlags(p, 3);
    HeldSame(m[p := Zeros()], m', b);
  }

  lemma LeadsOn(roles: Roles, role: Role, i: nat, e: nat)
    requires EntryOk(roles, role, i, e) && (role.Root? || role.L3?)
    ensures Present(e) ==> Target(e) in roles && roles[Target(e)] == if role.Root? then L3(i) else L2(role.i, i)
  {
  }

  lemma HungWalks(m: Mem, m': Mem, rs: Roles, rs': Roles, root: nat, a: nat, i: nat, p: nat)
    requires Tree(m, rs, root) && a in rs && a in m && i < 512 == |m[a]| && (rs[a].Root? || rs[a].L3?)
    requires (rs[a].Root? ==> a == root)
    requires Hung(m, m', rs, rs', a, i, p, if rs[a].Root? then L3(i) else L2(rs[a].i, i))
    ensures forall v: nat :: Walk(m', root, v) == Walk(m, root, v)
  {
    hide Hung, Walk;
    forall v: nat ensures Walk(m', root, v) == Walk(m, root, v) {
      if rs[a].Root? { HungAtRoot(m, m', rs, rs', root, i, p, v); } else { HungAt3(m, m', rs, rs', root, a, i, p, v); }
    }
  }

  lemma NotATable(m: Mem, roles: Roles, p: nat)
    requires p !in m && forall a <- roles :: TableOk(m, roles, a)
    ensures p !in roles
  {
    assert p in roles ==> TableOk(m, roles, p);
  }

  lemma HeldSame(m: Mem, m': Mem, b: Blocks)
    requires TablesHeld(m, b) && m'.Keys == m.Keys
    ensures TablesHeld(m', b)
  {
    hide IsFrameAddr, AddrToFrame, InUse;
  }
}
