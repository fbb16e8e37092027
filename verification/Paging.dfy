/**
  Page tables as the processor reads them: four levels, 512 entries each
  (section 4.5 of volume 3A of the Intel SDM).
 */
module Paging {
  import opened Arithmetic
  import opened Options

  type Mem = map<nat, seq<nat>>

  const PAGE: nat := 0x20_0000

  // ---- entries ----

  predicate Present(e: nat) { e % 2 == 1 }
  predicate Large(e: nat) { e / 128 % 2 == 1 }
  function Target(e: nat): nat { e - e % 4096 }

  // The physical address in an entry, for a page of the given size.
  function Frame(e: nat, size: nat): nat
    requires size > 0
  {
    e % 0x10_0000_0000_0000 / size * size
  }

  // ---- the parts of an address ----

  // The number of va's 2 MB page among the 2^27 that a 48-bit address can name.
  function PageNo(va: nat): (n: nat)
    ensures n < 0x800_0000
  {
    va / PAGE % 0x800_0000
  }

  function I4(va: nat): (i: nat)
    ensures i < 512
  {
    PageNo(va) / 0x4_0000
  }

  function I3(va: nat): (i: nat)
    ensures i < 512
  {
    PageNo(va) / 512 % 512
  }

  function I2(va: nat): (i: nat)
    ensures i < 512
  {
    PageNo(va) % 512
  }

  function I1(va: nat): (i: nat)
    ensures i < 512
  {
    va / 4096 % 512
  }

  // The indices are the bit fields 47:39, 38:30 and 29:21.
  lemma Indices(va: nat)
    ensures I4(va) == va / 0x80_0000_0000 % 512
    ensures I3(va) == va / 0x4000_0000 % 512
    ensures I2(va) == va / 0x20_0000 % 512
  {
    var p := va / PAGE;
    LowBits(p);
    DivTwice(va, PAGE, 512);
    DivTwice(va, PAGE, 0x4_0000);
  }

  // Cutting a number to 27 bits keeps its lower bits.
  lemma LowBits(p: nat)
    ensures p % 0x800_0000 / 0x4_0000 == p / 0x4_0000 % 512
    ensures p % 0x800_0000 / 512 % 512 == p / 512 % 512
    ensures p % 0x800_0000 % 512 == p % 512
  {
    var t, l := p / 0x800_0000, p % 0x800_0000;
    TopPart(t, l);
    MiddlePart(t, l);
    LowPart(t, l);
  }

  lemma TopPart(t: nat, l: nat)
    requires l < 0x800_0000
    ensures (0x800_0000 * t + l) / 0x4_0000 % 512 == l / 0x4_0000
  {
    assert (0x800_0000 * t + l) / 0x4_0000 == 512 * t + l / 0x4_0000;
  }

  lemma MiddlePart(t: nat, l: nat)
    ensures (0x800_0000 * t + l) / 512 % 512 == l / 512 % 512
  {
    DivIs(0x800_0000 * t + l, 512, 0x4_0000 * t + l / 512, l % 512);
    LowPart512(512 * t, l / 512);
  }

  lemma LowPart512(k: nat, q: nat)
    ensures (512 * k + q) % 512 == q % 512
  {
  }

  lemma LowPart(t: nat, l: nat)
    ensures (0x800_0000 * t + l) % 512 == l % 512
  {
  }

  lemma SameIndices(v: nat, w: nat)
    ensures I4(v) == I4(w) && I3(v) == I3(w) && I2(v) == I2(w) <==> PageNo(v) == PageNo(w)
  {
    var p, q := PageNo(v), PageNo(w);
    assert p == 0x4_0000 * (p / 0x4_0000) + 512 * (p / 512 % 512) + p % 512;
    assert q == 0x4_0000 * (q / 0x4_0000) + 512 * (q / 512 % 512) + q % 512;
  }

  // ---- walking ----

  function Get(m: Mem, a: nat, i: nat): nat {
    if a in m && i < |m[a]| then m[a][i] else 0
  }

  function Walk(m: Mem, root: nat, va: nat): Option<nat> {
    var e4 := Get(m, root, I4(va));
    if !Present(e4) then None
    else Walk3(m, Target(e4), va)
  }

  function Walk3(m: Mem, a: nat, va: nat): Option<nat> {
    var e3 := Get(m, a, I3(va));
    if !Present(e3) then None
    else if Large(e3) then Some(Frame(e3, 0x4000_0000) + va % 0x4000_0000)
    else Walk2(m, Target(e3), va)
  }

  function Walk2(m: Mem, a: nat, va: nat): Option<nat> {
    var e2 := Get(m, a, I2(va));
    if !Present(e2) then None
    else if Large(e2) then Some(Frame(e2, PAGE) + va % PAGE)
    else Walk1(m, Target(e2), va)
  }

  function Walk1(m: Mem, a: nat, va: nat): Option<nat> {
    var e1 := Get(m, a, I1(va));
    if Present(e1) then Some(Frame(e1, 4096) + va % 4096) else None
  }

  // ---- trees ----

  // The place of a table in the tree: the indices that lead to it.
  datatype Role = Root | L3(i: nat) | L2(i: nat, j: nat) | L1

  type Roles = map<nat, Role>

  ghost predicate Leads(roles: Roles, e: nat, r: Role) {
    Target(e) in roles && roles[Target(e)] == r
  }

  // What entry i of a table may hold. There are no 1 GB pages.
  ghost predicate EntryOk(roles: Roles, role: Role, i: nat, e: nat) {
    Present(e) ==>
      match role
      case Root => Leads(roles, e, L3(i))
      case L3(k) => !Large(e) && Leads(roles, e, L2(k, i))
      case L2(_, _) => !Large(e) ==> Leads(roles, e, L1)
      case L1 => true
  }

  ghost predicate TableOk(m: Mem, roles: Roles, a: nat)
    requires a in roles
  {
    a in m && |m[a]| == 512 && a % 4096 == 0 && forall i | 0 <= i < 512 :: EntryOk(roles, roles[a], i, m[a][i])
  }

  // No table is reached in two ways, but for those of the last level.
  ghost predicate Tree(m: Mem, roles: Roles, root: nat) {
    && root in roles && roles[root] == Root
    && forall a <- roles :: TableOk(m, roles, a)
  }

  function Zeros(): (t: seq<nat>)
    ensures |t| == 512 && forall i | 0 <= i < 512 :: t[i] == 0
  {
    seq(512, _ => 0)
  }

  function Store(m: Mem, a: nat, i: nat, e: nat): Mem
    requires a in m && i < |m[a]|
  {
    var t: seq<nat> := m[a][i := e];
    m[a := t]
  }

  // Where a walk that gets there finds its third and second table.
  ghost predicate At3(m: Mem, root: nat, va: nat, a: nat) {
    Present(Get(m, root, I4(va))) && Target(Get(m, root, I4(va))) == a
  }

  ghost predicate At2(m: Mem, root: nat, va: nat, b: nat) {
    && At3(m, root, va, Target(Get(m, root, I4(va))))
    && var e := Get(m, Target(Get(m, root, I4(va))), I3(va)); Present(e) && Target(e) == b
  }

  lemma Role3(m: Mem, roles: Roles, root: nat, va: nat, a: nat)
    requires Tree(m, roles, root) && At3(m, root, va, a)
    ensures a in roles && roles[a] == L3(I4(va)) && TableOk(m, roles, a)
    ensures Walk(m, root, va) == Walk3(m, a, va)
  {
    assert TableOk(m, roles, root);
  }

  lemma Role2(m: Mem, roles: Roles, root: nat, va: nat, b: nat)
    requires Tree(m, roles, root) && At2(m, root, va, b)
    ensures b in roles && roles[b] == L2(I4(va), I3(va)) && TableOk(m, roles, b)
    ensures Walk(m, root, va) == Walk2(m, b, va)
  {
    Role3(m, roles, root, va, Target(Get(m, root, I4(va))));
  }

  // ---- the three changes ----

  // A zeroed table is hung into an empty entry; no translation changes.
  ghost predicate Hung(m: Mem, m': Mem, roles: Roles, roles': Roles, a: nat, i: nat, p: nat, r: Role)
    requires a in m && i < |m[a]|
  {
    && p !in m && p !in roles && p % 4096 == 0 && !Present(m[a][i])
    && roles' == roles[p := r] && m' == Store(m[p := Zeros()], a, i, p + 3)
  }

  lemma EntryFlags(p: nat, flags: nat)
    requires p % 4096 == 0 && flags < 4096
    ensures Target(p + flags) == p && (Present(p + flags) <==> flags % 2 == 1)
    ensures (Large(p + flags) <==> flags / 128 % 2 == 1)
  {
    FlagBits(p, p / 4096, flags);
  }

  lemma FlagBits(p: nat, q: nat, flags: nat)
    requires p == 4096 * q && flags < 4096
    ensures (p + flags) % 4096 == flags && (p + flags) % 2 == flags % 2 && (p + flags) / 128 % 2 == flags / 128 % 2
  {
    LowFlags(q, flags);
    BitZero(q, flags);
    BitSeven(q, flags);
  }

  lemma LowFlags(q: nat, f: nat)
    requires f < 4096
    ensures (4096 * q + f) % 4096 == f
  {
  }

  lemma BitZero(q: nat, f: nat)
    ensures (4096 * q + f) % 2 == f % 2
  {
  }

  lemma BitSeven(q: nat, f: nat)
    ensures (4096 * q + f) / 128 % 2 == f / 128 % 2
  {
    assert (4096 * q + f) / 128 == 32 * q + f / 128;
  }

  lemma HungTree(m: Mem, m': Mem, roles: Roles, roles': Roles, root: nat, a: nat, i: nat, p: nat)
    requires Tree(m, roles, root) && a in roles && a in m && i < 512 == |m[a]| && (roles[a].Root? || roles[a].L3?)
    requires Hung(m, m', roles, roles', a, i, p, if roles[a].Root? then L3(i) else L2(roles[a].i, i))
    ensures Tree(m', roles', root)
  {
    EntryFlags(p, 3);
    forall x | x in roles' ensures TableOk(m', roles', x) {
      if x != p {
        assert TableOk(m, roles, x);
        forall k | 0 <= k < 512 ensures EntryOk(roles', roles'[x], k, m'[x][k]) {
          assert EntryOk(roles, roles[x], k, m[x][k]);
        }
      }
    }
  }

  // Tables that a walk meets, other than the changed one, are as before.
  lemma HungAtRoot(m: Mem, m': Mem, roles: Roles, roles': Roles, root: nat, i: nat, p: nat, v: nat)
    requires Tree(m, roles, root) && root in m && i < 512 == |m[root]| && Hung(m, m', roles, roles', root, i, p, L3(i))
    ensures Walk(m', root, v) == Walk(m, root, v)
  {
    EntryFlags(p, 3);
    assert TableOk(m, roles, root);
    if I4(v) == i {
      assert Get(m', p, I3(v)) == 0;
    } else if Present(Get(m, root, I4(v))) {
      var a := Target(Get(m, root, I4(v)));
      Role3(m, roles, root, v, a);
      Same3(m, m', roles, a, root, v);
    }
  }

  lemma HungAt3(m: Mem, m': Mem, roles: Roles, roles': Roles, root: nat, a: nat, i: nat, p: nat, v: nat)
    requires Tree(m, roles, root) && a in roles && roles[a].L3? && a in m && i < 512 == |m[a]|
    requires Hung(m, m', roles, roles', a, i, p, L2(roles[a].i, i))
    ensures Walk(m', root, v) == Walk(m, root, v)
  {
    EntryFlags(p, 3);
    assert TableOk(m, roles, root) && TableOk(m, roles, a);
    if Present(Get(m, root, I4(v))) {
      var b := Target(Get(m, root, I4(v)));
      Role3(m, roles, root, v, b);
      if b == a && I3(v) == i {
        assert Get(m', p, I2(v)) == 0;
      } else if b == a {
        Below3(m, m', roles, a, v);
      } else {
        Same3(m, m', roles, b, a, v);
      }
    }
  }

  // The tables of m are those of m' but for the one at x.
  ghost predicate ChangedAt(m: Mem, m': Mem, x: nat) {
    forall a | a in m && a != x :: a in m' && m'[a] == m[a]
  }

  lemma Same1(m: Mem, m': Mem, roles: Roles, c: nat, x: nat, v: nat)
    requires (forall a <- roles :: TableOk(m, roles, a)) && c in roles && ChangedAt(m, m', x) && c != x
    ensures Walk1(m', c, v) == Walk1(m, c, v)
  {
    assert TableOk(m, roles, c);
  }

  lemma Same2(m: Mem, m': Mem, roles: Roles, b: nat, x: nat, v: nat)
    requires (forall a <- roles :: TableOk(m, roles, a)) && b in roles && ChangedAt(m, m', x) && b != x
    requires roles[b].L2? && x in roles && !roles[x].L1?
    ensures Walk2(m', b, v) == Walk2(m, b, v)
  {
    assert TableOk(m, roles, b);
    var e := m[b][I2(v)];
    assert EntryOk(roles, roles[b], I2(v), e);
    if Present(e) && !Large(e) { Same1(m, m', roles, Target(e), x, v); }
  }

  lemma Same3(m: Mem, m': Mem, roles: Roles, a: nat, x: nat, v: nat)
    requires (forall a <- roles :: TableOk(m, roles, a)) && a in roles && ChangedAt(m, m', x) && a != x
    requires roles[a].L3? && x in roles && !roles[x].L1? && (roles[x].L2? ==> roles[x] != L2(roles[a].i, I3(v)))
    ensures Walk3(m', a, v) == Walk3(m, a, v)
  {
    assert TableOk(m, roles, a);
    var e := m[a][I3(v)];
    assert EntryOk(roles, roles[a], I3(v), e);
    if Present(e) { Same2(m, m', roles, Target(e), x, v); }
  }

  // The changed table is a itself, but not in the entry that v uses.
  lemma Below3(m: Mem, m': Mem, roles: Roles, a: nat, v: nat)
    requires (forall a <- roles :: TableOk(m, roles, a)) && a in roles && roles[a].L3? && ChangedAt(m, m', a)
    requires Get(m', a, I3(v)) == Get(m, a, I3(v))
    ensures Walk3(m', a, v) == Walk3(m, a, v)
  {
    assert TableOk(m, roles, a);
    var e := m[a][I3(v)];
    assert EntryOk(roles, roles[a], I3(v), e);
    if Present(e) { Same2(m, m', roles, Target(e), a, v); }
  }

  // A 2 MB page is entered: its addresses go there, all others as before.
  lemma PageEntered(m: Mem, m': Mem, roles: Roles, root: nat, va: nat, pa: nat, b: nat)
    requires Tree(m, roles, root) && At2(m, root, va, b) && pa % PAGE == 0 && pa + PAGE <= 0x10_0000_0000_0000
    requires b in m && |m[b]| == 512 && m' == Store(m, b, I2(va), pa + 0x87)
    ensures Tree(m', roles, root)
    ensures forall v: nat ::
      Walk(m', root, v) == if PageNo(v) == PageNo(va) then Some(pa + v % PAGE) else Walk(m, root, v)
  {
    hide Walk, Present, Large, Target, TableOk, PageNo, I2, I3, I4;
    Role2(m, roles, root, va, b);
    AlignedPage(pa);
    EntryFlags(pa, 0x87);
    FlagsSet();
    EnteredTree(m, m', roles, root, b, I2(va), pa + 0x87);
    forall v: nat
      ensures Walk(m', root, v) == if PageNo(v) == PageNo(va) then Some(pa + v % PAGE) else Walk(m, root, v)
    {
      SameIndices(v, va);
      EnteredWalk(m, m', roles, root, va, pa, b, v);
    }
  }

  lemma AlignedPage(pa: nat)
    requires pa % PAGE == 0
    ensures pa % 4096 == 0
  {
    DivIs(pa, 4096, 512 * (pa / PAGE), 0);
  }

  lemma FlagsSet()
    ensures 0x87 % 2 == 1 && 0x87 / 128 % 2 == 1
  {
  }

  lemma FramePage(pa: nat)
    requires pa % PAGE == 0 && pa + PAGE <= 0x10_0000_0000_0000
    ensures Frame(pa + 0x87, PAGE) == pa
  {
  }

  lemma EnteredTree(m: Mem, m': Mem, roles: Roles, root: nat, b: nat, i: nat, e: nat)
    requires Tree(m, roles, root) && b in roles && roles[b].L2? && b in m && i < 512 == |m[b]|
    requires m' == Store(m, b, i, e)
    requires Large(e)
    ensures Tree(m', roles, root)
  {
    forall x | x in roles ensures TableOk(m', roles, x) {
      assert TableOk(m, roles, x);
      forall k | 0 <= k < 512
        ensures EntryOk(roles, roles[x], k, m'[x][k])
      {
        assert EntryOk(roles, roles[x], k, m[x][k]);
      }
    }
  }

  lemma EnteredWalk(m: Mem, m': Mem, roles: Roles, root: nat, va: nat, pa: nat, b: nat, v: nat)
    requires Tree(m, roles, root) && At2(m, root, va, b) && pa % PAGE == 0 && pa + PAGE <= 0x10_0000_0000_0000
    requires b in m && |m[b]| == 512 && m' == Store(m, b, I2(va), pa + 0x87) && b in roles
    requires roles[b] == L2(I4(va), I3(va))
    requires Present(pa + 0x87) && Large(pa + 0x87)
    ensures Walk(m', root, v) ==
      if I4(v) == I4(va) && I3(v) == I3(va) && I2(v) == I2(va) then Some(pa + v % PAGE) else Walk(m, root, v)
  {
    hide Present, Large, Target, Frame, I2, I3, I4, Walk1;
    assert TableOk(m, roles, root);
    if Present(Get(m, root, I4(v))) {
      var a := Target(Get(m, root, I4(v)));
      Role3(m, roles, root, v, a);
      if I4(v) == I4(va) && I3(v) == I3(va) {
        assert TableOk(m, roles, a);
        if I2(v) == I2(va) {
          FramePage(pa);
        } else {
          Below2(m, m', roles, b, v);
        }
      } else {
        Same3(m, m', roles, a, b, v);
      }
    }
  }

  lemma Below2(m: Mem, m': Mem, roles: Roles, b: nat, v: nat)
    requires (forall a <- roles :: TableOk(m, roles, a)) && b in roles && roles[b].L2? && ChangedAt(m, m', b)
    requires Get(m', b, I2(v)) == Get(m, b, I2(v))
    ensures Walk2(m', b, v) == Walk2(m, b, v)
  {
    assert TableOk(m, roles, b);
    var e := m[b][I2(v)];
    assert EntryOk(roles, roles[b], I2(v), e);
    if Present(e) && !Large(e) { Same1(m, m', roles, Target(e), b, v); }
  }
}
