/**
  Directories: a chain of clusters read as a row of 32-byte slots. A slot has a
  number in the row, and a sector and index on the disk.
 */
module FatSlots {
  import opened Widths
  import opened Bytes
  import opened Counting
  import opened Fat
  import opened FatTable
  import opened FatDriver

  const SLOT_SIZE: nat := 32
  const DELETED: byte := 0xE5
  const ATTR_DIR: byte := 0x10
  const ATTR_FILE: byte := 0x20
  const ATTR_LFN: byte := 0x0F

  type Slot = s: seq<byte> | |s| == 32 witness seq(32, _ => 0)

  function SlotName(s: Slot): seq<byte> { s[..11] }

  function Attr(s: Slot): byte { s[11] }

  predicate IsDir(s: Slot) { Attr(s) / 16 % 2 == 1 }

  // first_cluster_of
  function FirstCluster(s: Slot): nat {
    65536 * Field16(s, 20) + Field16(s, 26)
  }

  function FileSize(s: Slot): nat { Field32(s, 28) }

  function WithName(s: Slot, name: seq<byte>): Slot
    requires |name| == 11
  {
    Splice(s, 0, name)
  }

  function WithCluster(s: Slot, c: nat): Slot
    requires c < TWO32
  {
    Splice(Splice(s, 20, Put16(c / 65536)), 26, Put16(c % 65536))
  }

  function WithSize(s: Slot, n: nat): Slot
    requires n < TWO32
  {
    Splice(s, 28, Put32(n))
  }

  // Where the fields of a slot are, byte by byte.
  lemma SlotFields(s: Slot)
    ensures Attr(s) == s[11] && (IsDir(s) <==> s[11] / 16 % 2 == 1)
    ensures |SlotName(s)| == 11 && forall i | 0 <= i < 11 :: SlotName(s)[i] == s[i]
    ensures FirstCluster(s) == Number(s[26], s[27], s[20], s[21])
    ensures FileSize(s) == Number(s[28], s[29], s[30], s[31])
  {
    var lo, hi, size := s[26..28], s[20..22], s[28..32];
    assert Le16(lo) == Number(s[26], s[27], 0, 0) && Le16(hi) == Number(s[20], s[21], 0, 0);
    assert Le32(size) == Number(s[28], s[29], s[30], s[31]);
  }

  // Storing a first cluster changes bytes 20, 21, 26 and 27.
  lemma WithClusterBytes(s: Slot, c: nat)
    requires c < TWO32
    ensures var x := WithCluster(s, c);
            && Number(x[26], x[27], x[20], x[21]) == c
            && forall i | 0 <= i < 32 && i != 20 && i != 21 && i != 26 && i != 27 :: x[i] == s[i]
  {
    WithClusterGet(s, c);
    SlotFields(WithCluster(s, c));
  }

  // Storing a size changes bytes 28 to 31.
  lemma WithSizeBytes(s: Slot, n: nat)
    requires n < TWO32
    ensures var x := WithSize(s, n);
            Number(x[28], x[29], x[30], x[31]) == n && forall i | 0 <= i < 28 :: x[i] == s[i]
  {
    WithSizeGet(s, n);
    SlotFields(WithSize(s, n));
  }

  lemma WithClusterGet(s: Slot, c: nat)
    requires c < TWO32
    ensures FirstCluster(WithCluster(s, c)) == c
    ensures SlotName(WithCluster(s, c)) == SlotName(s) && Attr(WithCluster(s, c)) == Attr(s)
    ensures FileSize(WithCluster(s, c)) == FileSize(s)
  {
    hide Le16, Le32, Put16;
    var t := Splice(s, 20, Put16(c / 65536));
    SpliceInside(s, 20, Put16(c / 65536));
    SpliceInside(t, 26, Put16(c % 65536));
    SpliceOutside(t, 26, Put16(c % 65536), 20, 22);
    SpliceOutside(t, 26, Put16(c % 65536), 28, 32);
    SpliceOutside(s, 20, Put16(c / 65536), 28, 32);
  }

  lemma WithSizeGet(s: Slot, n: nat)
    requires n < TWO32
    ensures FileSize(WithSize(s, n)) == n && FirstCluster(WithSize(s, n)) == FirstCluster(s)
    ensures SlotName(WithSize(s, n)) == SlotName(s) && Attr(WithSize(s, n)) == Attr(s)
  {
    hide Le16, Le32, Put32;
    SpliceInside(s, 28, Put32(n));
    SpliceOutside(s, 28, Put32(n), 20, 22);
    SpliceOutside(s, 28, Put32(n), 26, 28);
  }

  // ---- the row of slots ----

  predicate HasSlot(b: seq<byte>, p: nat) { SLOT_SIZE * p + SLOT_SIZE <= |b| }

  function SlotAt(b: seq<byte>, p: nat): Slot
    requires HasSlot(b, p)
  {
    b[SLOT_SIZE * p..SLOT_SIZE * p + SLOT_SIZE]
  }

  function PutSlot(b: seq<byte>, p: nat, s: Slot): (r: seq<byte>)
    requires HasSlot(b, p)
    ensures |r| == |b|
  {
    Splice(b, SLOT_SIZE * p, s)
  }

  lemma PutSlotGet(b: seq<byte>, p: nat, s: Slot, q: nat)
    requires HasSlot(b, p) && HasSlot(b, q)
    ensures SlotAt(PutSlot(b, p, s), q) == if q == p then s else SlotAt(b, q)
  {
    if q != p {
      SpliceOutside(b, SLOT_SIZE * p, s, SLOT_SIZE * q, SLOT_SIZE * q + SLOT_SIZE);
    }
  }

  // Slot p of the directory ch is slot i of sector `lba`: sector s of cluster k.
  ghost predicate PlacedIn(g: Geo, ch: seq<nat>, k: nat, s: nat, lba: nat, i: nat, p: nat) {
    && k < |ch| && ch[k] >= 2 && s < g.perCluster && i < 16
    && lba == ClusterSector(g, ch[k]) + s
    && SLOT_SIZE * p == Capacity(g, k) + SECTOR_SIZE * s + SLOT_SIZE * i
  }

  ghost predicate PlacedAt(g: Geo, ch: seq<nat>, lba: nat, i: nat, p: nat) {
    exists k: nat, s: nat :: PlacedIn(g, ch, k, s, lba, i, p)
  }

  lemma InCluster(g: Geo, s: nat, i: nat)
    requires s < g.perCluster && i < 16
    ensures SECTOR_SIZE * s + SLOT_SIZE * i + SLOT_SIZE <= SECTOR_SIZE * s + SECTOR_SIZE <= ClusterSize(g)
  {
  }

  lemma ReadSlot(g: Geo, d: Disk, ch: seq<nat>, lba: nat, i: nat, p: nat)
    requires HasClusters(g, d, ch) && PlacedAt(g, ch, lba, i, p)
    ensures i < 16 && lba < |d| && HasSlot(ChainBytes(g, d, ch), p)
    ensures d[lba][SLOT_SIZE * i..SLOT_SIZE * i + SLOT_SIZE] == SlotAt(ChainBytes(g, d, ch), p)
  {
    hide ChainBytes, ClusterBytes, ClusterSector;
    var k: nat, s: nat :| PlacedIn(g, ch, k, s, lba, i, p);
    InCluster(g, s, i);
    ClusterOfChain(g, d, ch, k);
    SectorOfCluster(g, d, ch[k], s);
    SliceInChain(ChainBytes(g, d, ch), ClusterBytes(g, d, ch[k]), d[lba], Capacity(g, k), ClusterSize(g), 512 * s,
                 32 * i, 32 * p);
  }

  lemma SliceInChain(b: seq<byte>, cl: seq<byte>, sec: seq<byte>, cap: nat, size: nat, at: nat, in_: nat, q: nat)
    requires cap + size <= |b| && cl == b[cap..cap + size]
    requires at + 512 <= size && sec == cl[at..at + 512] && in_ + 32 <= 512 && q == cap + at + in_
    ensures sec[in_..in_ + 32] == b[q..q + 32]
  {
    var u, v := sec[in_..in_ + 32], b[q..q + 32];
    assert forall j | 0 <= j < 32 :: u[j] == sec[in_ + j] == cl[at + in_ + j] == b[cap + at + in_ + j] == v[j];
  }

  // Changing a stretch of one cluster changes that stretch of the chain.
  lemma {:induction false} SpliceChain(g: Geo, d: Disk, d': Disk, ch: seq<nat>, k: nat, at: nat, x: seq<byte>)
    requires HasClusters(g, d, ch) && HasClusters(g, d', ch) && k < |ch| && at + |x| <= ClusterSize(g)
    requires ClusterBytes(g, d', ch[k]) == Splice(ClusterBytes(g, d, ch[k]), at, x)
    requires forall j | 0 <= j < |ch| && j != k :: ClusterBytes(g, d', ch[j]) == ClusterBytes(g, d, ch[j])
    ensures Capacity(g, k) + ClusterSize(g) <= |ChainBytes(g, d, ch)|
    ensures ChainBytes(g, d', ch) == Splice(ChainBytes(g, d, ch), Capacity(g, k) + at, x)
    decreases |ch|
  {
    hide ClusterBytes, ClusterSector, Splice;
    var front, back := ch[..|ch| - 1], ch[|ch| - 1];
    ChainLength(g, d, front);
    if k == |ch| - 1 {
      ChainSame(g, d, d', front);
      SpliceBack(ChainBytes(g, d, front), ClusterBytes(g, d, back), at, x);
    } else {
      SpliceChain(g, d, d', front, k, at, x);
      SpliceFront(ChainBytes(g, d, front), ClusterBytes(g, d, back), Capacity(g, k) + at, x);
    }
  }

  lemma SpliceBack<T>(a: seq<T>, b: seq<T>, at: nat, x: seq<T>)
    requires at + |x| <= |b|
    ensures a + Splice(b, at, x) == Splice(a + b, |a| + at, x)
  {
  }

  lemma SpliceFront<T>(a: seq<T>, b: seq<T>, at: nat, x: seq<T>)
    requires at + |x| <= |a|
    ensures Splice(a, at, x) + b == Splice(a + b, at, x)
  {
  }

  function StoreSlot(d: Disk, lba: nat, i: nat, x: Slot): Disk
    requires lba < |d| && i < 16
  {
    d[lba := Splice(d[lba], SLOT_SIZE * i, x)]
  }

  // Distinct clusters of the volume.
  ghost predicate IsRow(g: Geo, ch: seq<nat>)
    requires GeoOk(g)
  {
    Distinct(ch) && forall i | 0 <= i < |ch| :: IsCluster(g, ch[i])
  }

  lemma RowIn(g: Geo, d: Disk, ch: seq<nat>)
    requires DiskOk(g, d) && IsRow(g, ch)
    ensures HasClusters(g, d, ch)
  {
    forall i | 0 <= i < |ch| ensures ch[i] >= 2 && ClusterSector(g, ch[i]) + g.perCluster <= |d| {
      ClusterInside(g, ch[i]);
    }
  }

  // Writing a slot back: the directory changes at that slot, and nothing else does.
  lemma WriteSlot(g: Geo, d: Disk, ch: seq<nat>, lba: nat, i: nat, p: nat, x: Slot)
    requires DiskOk(g, d) && IsRow(g, ch) && PlacedAt(g, ch, lba, i, p)
    ensures i < 16 && lba < |d| && HasClusters(g, d, ch) && HasSlot(ChainBytes(g, d, ch), p)
    ensures var d' := StoreSlot(d, lba, i, x);
            && DiskOk(g, d') && TableOf(g, d') == TableOf(g, d) && SameReserved(g, d, d') && HasClusters(g, d', ch)
            && Touches(g, d, d', ch)
            && ChainBytes(g, d', ch) == Splice(ChainBytes(g, d, ch), SLOT_SIZE * p, x)
  {
    hide ChainBytes, ClusterBytes, ClusterSector, TableOf, SameReserved, Touches, Capacity, ClusterCount, Splice,
         StoreSlot;
    RowIn(g, d, ch);
    ReadSlot(g, d, ch, lba, i, p);
    var k: nat, s: nat :| PlacedIn(g, ch, k, s, lba, i, p);
    StoreKeeps(g, d, ch, k, s, lba, i, x);
    StoreInChain(g, d, ch, k, s, lba, i, p, x);
  }

  lemma StoreKeeps(g: Geo, d: Disk, ch: seq<nat>, k: nat, s: nat, lba: nat, i: nat, x: Slot)
    requires DiskOk(g, d) && k < |ch| && IsCluster(g, ch[k]) && s < g.perCluster && i < 16
    requires lba == ClusterSector(g, ch[k]) + s
    ensures lba < |d|
    ensures var d' := StoreSlot(d, lba, i, x);
            DiskOk(g, d') && TableOf(g, d') == TableOf(g, d) && SameReserved(g, d, d') && Touches(g, d, d', ch)
  {
    hide ClusterSector, TableOf, SameReserved;
    ClusterInside(g, ch[k]);
    var d' := StoreSlot(d, lba, i, x);
    SameTable(g, d, d');
    TouchesOne(g, d, d', ch, ch[k], lba);
  }

  lemma StoreInChain(g: Geo, d: Disk, ch: seq<nat>, k: nat, s: nat, lba: nat, i: nat, p: nat, x: Slot)
    requires DiskOk(g, d) && HasClusters(g, d, ch) && Distinct(ch) && forall j | 0 <= j < |ch| :: IsCluster(g, ch[j])
    requires PlacedIn(g, ch, k, s, lba, i, p)
    ensures lba < |d|
    ensures var d' := StoreSlot(d, lba, i, x);
            && HasClusters(g, d', ch) && SLOT_SIZE * p + SLOT_SIZE <= |ChainBytes(g, d, ch)|
            && ChainBytes(g, d', ch) == Splice(ChainBytes(g, d, ch), SLOT_SIZE * p, x)
  {
    hide ChainBytes, ClusterBytes, ClusterSector, Capacity, Splice;
    var at := SECTOR_SIZE * s + SLOT_SIZE * i;
    var d' := StoreSlot(d, lba, i, x);
    StoreInCluster(g, d, ch[k], s, lba, i, x);
    InCluster(g, s, i);
    forall j | 0 <= j < |ch| && j != k ensures ClusterBytes(g, d', ch[j]) == ClusterBytes(g, d, ch[j]) {
      OtherCluster(g, d, d', ch[k], ch[j]);
    }
    SpliceChain(g, d, d', ch, k, at, x);
    assert Capacity(g, k) + at == SLOT_SIZE * p;
  }

  lemma ChainIn(g: Geo, d: Disk, ch: seq<nat>)
    requires DiskOk(g, d) && IsChain(TableOf(g, d), ch)
    ensures HasClusters(g, d, ch) && IsRow(g, ch)
  {
    ChainHas(g, d, ch);
  }

  lemma TouchesOne(g: Geo, d: Disk, d': Disk, ch: seq<nat>, c: nat, lba: nat)
    requires c in ch && c >= 2 && ClusterSector(g, c) <= lba < ClusterSector(g, c) + g.perCluster
    requires |d'| == |d| && forall s | 0 <= s < |d| && s != lba :: d'[s] == d[s]
    ensures Touches(g, d, d', ch)
  {
  }

  lemma StoreInCluster(g: Geo, d: Disk, c: nat, s: nat, lba: nat, i: nat, x: Slot)
    requires c >= 2 && ClusterSector(g, c) + g.perCluster <= |d| && s < g.perCluster && i < 16
    requires lba == ClusterSector(g, c) + s
    ensures ClusterBytes(g, StoreSlot(d, lba, i, x), c) ==
            Splice(ClusterBytes(g, d, c), SECTOR_SIZE * s + SLOT_SIZE * i, x)
  {
    hide ClusterSector;
    InCluster(g, s, i);
    var at := ClusterSector(g, c);
    var d' := StoreSlot(d, lba, i, x);
    var l, r := ClusterBytes(g, d', c), Splice(ClusterBytes(g, d, c), SECTOR_SIZE * s + SLOT_SIZE * i, x);
    forall q | 0 <= q < ClusterSize(g) ensures l[q] == r[q] {
      assert l[q] == d'[at + q / 512][q % 512];
      assert ClusterBytes(g, d, c)[q] == d[at + q / 512][q % 512];
    }
  }
}
