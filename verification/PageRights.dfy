/**
  What the flags in the entries allow: a program may touch a page only if bit 2,
  and store to it only if bit 1, is set in every entry on the way (section 4.6 of
  volume 3A of the Intel SDM).
 */
module PageRights {
  import opened Options
  import opened Paging

  // The entries that the processor reads for v.
  function Entry4(m: Mem, root: nat, v: nat): nat {
    Get(m, root, v / 0x80_0000_0000 % 512)
  }

  function Entry3(m: Mem, root: nat, v: nat): nat {
    Get(m, Entry4(m, root, v) / 4096 * 4096, v / 0x4000_0000 % 512)
  }

  function Entry2(m: Mem, root: nat, v: nat): nat {
    Get(m, Entry3(m, root, v) / 4096 * 4096, v / 0x20_0000 % 512)
  }

  function Entry1(m: Mem, root: nat, v: nat): nat {
    Get(m, Entry2(m, root, v) / 4096 * 4096, v / 4096 % 512)
  }

  predicate IsPresent(e: nat) { e % 2 == 1 }
  predicate StoresPass(e: nat) { e / 2 % 2 == 1 }
  predicate UsersPass(e: nat) { e / 4 % 2 == 1 }

  // Both upper entries are there and let user programs past.
  predicate UserWay(m: Mem, root: nat, v: nat) {
    && IsPresent(Entry4(m, root, v)) && UsersPass(Entry4(m, root, v))
    && IsPresent(Entry3(m, root, v)) && UsersPass(Entry3(m, root, v))
  }

  // No upper entry that is there keeps stores out.
  predicate StoreWay(m: Mem, root: nat, v: nat) {
    IsPresent(Entry4(m, root, v)) ==>
      StoresPass(Entry4(m, root, v)) && (IsPresent(Entry3(m, root, v)) ==> StoresPass(Entry3(m, root, v)))
  }

  // The way to v's 2 MB page is there, and e is the page's entry.
  predicate PageIs(m: Mem, root: nat, v: nat, e: nat) {
    IsPresent(Entry4(m, root, v)) && IsPresent(Entry3(m, root, v)) && Entry2(m, root, v) == e
  }

  predicate MayTouch(m: Mem, root: nat, v: nat) {
    UserWay(m, root, v) && IsPresent(Entry2(m, root, v)) && UsersPass(Entry2(m, root, v))
  }

  predicate MayStore(m: Mem, root: nat, v: nat) {
    && IsPresent(Entry4(m, root, v)) && StoresPass(Entry4(m, root, v))
    && IsPresent(Entry3(m, root, v)) && StoresPass(Entry3(m, root, v))
    && IsPresent(Entry2(m, root, v)) && StoresPass(Entry2(m, root, v))
  }

  // All that is allowed at v, and what the upper entries alone would allow.
  datatype Allowed = Allowed(touch: bool, store: bool, users: bool, stores: bool)

  function Rights(m: Mem, root: nat, v: nat): Allowed {
    Allowed(MayTouch(m, root, v), MayStore(m, root, v), UserWay(m, root, v), StoreWay(m, root, v))
  }

  // A page is entered that user programs may touch and store to, as far as it goes.
  function Opened(a: Allowed): Allowed { a.(touch := a.users, store := a.stores) }

  // A change that no right and no page entry feels.
  ghost predicate SameRights(m: Mem, m': Mem, root: nat) {
    forall v: nat :: Rights(m', root, v) == Rights(m, root, v) && PagesStay(m, m', root, v)
  }

  ghost predicate PagesStay(m: Mem, m': Mem, root: nat, v: nat) {
    forall e: nat | PageIs(m, root, v, e) :: PageIs(m', root, v, e)
  }

  // A change that enters e for the page of va.
  ghost predicate Enters(m: Mem, m': Mem, root: nat, va: nat, e: nat) {
    forall v: nat :: EntersAt(m, m', root, va, e, v)
  }

  ghost predicate EntersAt(m: Mem, m': Mem, root: nat, va: nat, e: nat, v: nat) {
    if PageNo(v) == PageNo(va) then Rights(m', root, v) == Opened(Rights(m, root, v)) && PageIs(m', root, v, e)
    else Rights(m', root, v) == Rights(m, root, v) && PagesStay(m, m', root, v)
  }

  // What the tables on the way are.
  lemma OnTheWay(m: Mem, roles: Roles, root: nat, v: nat)
    requires Tree(m, roles, root)
    ensures Entry4(m, root, v) == Get(m, root, I4(v)) && root in roles && roles[root].Root?
    ensures Present(Entry4(m, root, v)) ==> IsThird(m, roles, root, v, Target(Entry4(m, root, v)))
    ensures Present(Entry4(m, root, v)) && Present(Entry3(m, root, v)) ==>
      IsSecond(m, roles, root, v, Target(Entry3(m, root, v)))
  {
    hide I2, I3, I4, Large, Walk, Walk3, Walk2, Walk1;
    Indices(v);
    Cut(Entry4(m, root, v));
    Cut(Entry3(m, root, v));
    if Present(Entry4(m, root, v)) {
      var a := Target(Entry4(m, root, v));
      Role3(m, roles, root, v, a);
      if Present(Entry3(m, root, v)) { Role2(m, roles, root, v, Target(Entry3(m, root, v))); }
    }
  }

  ghost predicate IsThird(m: Mem, roles: Roles, root: nat, v: nat, a: nat) {
    a in roles && roles[a] == L3(I4(v)) && Entry3(m, root, v) == Get(m, a, I3(v))
  }

  ghost predicate IsSecond(m: Mem, roles: Roles, root: nat, v: nat, b: nat) {
    b in roles && roles[b] == L2(I4(v), I3(v)) && Entry2(m, root, v) == Get(m, b, I2(v))
  }

  lemma Cut(e: nat)
    ensures e / 4096 * 4096 == Target(e)
  {
  }

  // A translation in plain numbers: bit 0 of every entry on the way must be set, and
  // bit 7 of the second or third ends it with a page of 2^30 or 2^21 bytes.
  lemma Translates(m: Mem, root: nat, v: nat)
    ensures Walk(m, root, v) ==
      var e4, e3, e2, e1 := Entry4(m, root, v), Entry3(m, root, v), Entry2(m, root, v), Entry1(m, root, v);
      if e4 % 2 == 0 || e3 % 2 == 0 then None
      else if e3 / 128 % 2 == 1 then Some(e3 % 0x10_0000_0000_0000 / 0x4000_0000 * 0x4000_0000 + v % 0x4000_0000)
      else if e2 % 2 == 0 then None
      else if e2 / 128 % 2 == 1 then Some(e2 % 0x10_0000_0000_0000 / 0x20_0000 * 0x20_0000 + v % 0x20_0000)
      else if e1 % 2 == 0 then None
      else Some(e1 % 0x10_0000_0000_0000 / 4096 * 4096 + v % 4096)
  {
    hide I2, I3, I4, Get, Target;
    Indices(v);
    Cut(Entry4(m, root, v));
    Cut(Entry3(m, root, v));
    Cut(Entry2(m, root, v));
  }

  lemma BitOne(p: nat, q: nat, f: nat)
    requires p == 4096 * q
    ensures (p + f) / 2 % 2 == f / 2 % 2
  {
    assert (p + f) / 2 == 2048 * q + f / 2;
  }

  lemma BitTwo(p: nat, q: nat, f: nat)
    requires p == 4096 * q
    ensures (p + f) / 4 % 2 == f / 4 % 2
  {
    assert (p + f) / 4 == 1024 * q + f / 4;
  }

  // The entry for a table passes stores on and keeps user programs out; that for a
  // page lets both through.
  lemma LinkBits(p: nat)
    requires p % 4096 == 0
    ensures Present(p + 3) && Target(p + 3) == p && StoresPass(p + 3) && !UsersPass(p + 3)
  {
    hide Present, Target;
    EntryFlags(p, 3);
    BitOne(p, p / 4096, 3);
    BitTwo(p, p / 4096, 3);
  }

  lemma PageBits(pa: nat)
    requires pa % 4096 == 0
    ensures Present(pa + 0x87) && StoresPass(pa + 0x87) && UsersPass(pa + 0x87)
  {
    hide Present, Target;
    EntryFlags(pa, 0x87);
    BitOne(pa, pa / 4096, 0x87);
    BitTwo(pa, pa / 4096, 0x87);
  }

  // Hanging a fresh table in changes no right and no page entry.
  lemma HungWays(m: Mem, m': Mem, roles: Roles, roles': Roles, root: nat, a: nat, i: nat, p: nat, v: nat)
    requires Tree(m, roles, root) && a in roles && a in m && i < 512 == |m[a]|
    requires (roles[a].Root? && a == root) || roles[a].L3?
    requires Hung(m, m', roles, roles', a, i, p, if roles[a].Root? then L3(i) else L2(roles[a].i, i))
    ensures Rights(m', root, v) == Rights(m, root, v) && PagesStay(m, m', root, v)
  {
    hide I2, I3, I4, Target, Tree, StoresPass, UsersPass;
    LinkBits(p);
    HungTree(m, m', roles, roles', root, a, i, p);
    OnTheWay(m, roles, root, v);
    OnTheWay(m', roles', root, v);
  }

  lemma HungRights(m: Mem, m': Mem, roles: Roles, roles': Roles, root: nat, a: nat, i: nat, p: nat)
    requires Tree(m, roles, root) && a in roles && a in m && i < 512 == |m[a]|
    requires (roles[a].Root? && a == root) || roles[a].L3?
    requires Hung(m, m', roles, roles', a, i, p, if roles[a].Root? then L3(i) else L2(roles[a].i, i))
    ensures SameRights(m, m', root)
  {
    hide Hung, Tree, Rights, PagesStay;
    forall v: nat ensures Rights(m', root, v) == Rights(m, root, v) && PagesStay(m, m', root, v) {
      HungWays(m, m', roles, roles', root, a, i, p, v);
    }
  }

  // Entering a page changes no right of the entries above, nor another page's entry.
  lemma EnteredWays(m: Mem, m': Mem, roles: Roles, root: nat, va: nat, pa: nat, b: nat, v: nat)
    requires Tree(m, roles, root) && Tree(m', roles, root) && At2(m, root, va, b)
    requires b in m && |m[b]| == 512 && pa % 4096 == 0 && m' == Store(m, b, I2(va), pa + 0x87)
    ensures EntersAt(m, m', root, va, pa + 0x87, v)
  {
    hide I2, I3, I4, Target, Tree, StoresPass, UsersPass, PageNo, Walk;
    Role2(m, roles, root, va, b);
    PageBits(pa);
    SameIndices(v, va);
    OnTheWay(m, roles, root, v);
    OnTheWay(m', roles, root, v);
    OnTheWay(m, roles, root, va);
  }

  lemma EnteredRights(m: Mem, m': Mem, roles: Roles, root: nat, va: nat, pa: nat, b: nat)
    requires Tree(m, roles, root) && Tree(m', roles, root) && At2(m, root, va, b)
    requires b in m && |m[b]| == 512 && pa % 4096 == 0 && m' == Store(m, b, I2(va), pa + 0x87)
    ensures Enters(m, m', root, va, pa + 0x87)
  {
    hide EntersAt, Tree, At2, I2;
    var e := pa + 0x87;
    forall v: nat ensures EntersAt(m, m', root, va, e, v) {
      EnteredWays(m, m', roles, root, va, pa, b, v);
    }
  }

  lemma EntersAfter(m: Mem, m1: Mem, m2: Mem, root: nat, va: nat, e: nat)
    requires SameRights(m, m1, root) && Enters(m1, m2, root, va, e)
    ensures Enters(m, m2, root, va, e)
  {
    hide Rights, PageIs, PageNo;
    forall v: nat ensures EntersAt(m, m2, root, va, e, v) { assert EntersAt(m1, m2, root, va, e, v); }
  }

  lemma RightsTwice(m: Mem, m1: Mem, m2: Mem, root: nat)
    requires SameRights(m, m1, root) && SameRights(m1, m2, root)
    ensures SameRights(m, m2, root)
  {
    hide Rights, PageIs;
  }
}
