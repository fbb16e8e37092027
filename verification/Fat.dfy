/**
  The FAT32 volume as a value: the file allocation table in its sectors, and
  the clusters of the data area. Sectors are 512 bytes.
 */
module Fat {
  import opened Arithmetic
  import opened Widths
  import opened Bytes
  import opened Counting
  import opened FatTable

  const SECTOR_SIZE: nat := 512
  type Sector = s: seq<byte> | |s| == 512 witness seq(512, _ => 0)

  type Disk = seq<Sector>

  // What fat32_init takes from the boot sector.
  datatype Geo = Geo(fatStart: nat, firstData: nat, perCluster: nat, totalSectors: nat, root: nat)

  // total_clusters of fat_find_free.
  function ClusterCount(g: Geo): nat
    requires g.perCluster > 0 && g.firstData <= g.totalSectors
  {
    (g.totalSectors - g.firstData) / g.perCluster
  }

  // cluster_to_sector
  function ClusterSector(g: Geo, c: nat): nat
    requires c >= 2
  {
    g.firstData + (c - 2) * g.perCluster
  }

  // The volume fits its disk, the table has an entry for every cluster, and a
  // sector number is a positive int, which find_entry returns it as.
  ghost predicate GeoOk(g: Geo) {
    && g.perCluster > 0 && g.fatStart < g.firstData <= g.totalSectors < 0x8000_0000
    && ClusterCount(g) + 2 <= EOC_MIN - 1
    && g.fatStart + (ClusterCount(g) + 1) / 128 < g.firstData
    && IsCluster(g, g.root)
  }

  ghost predicate DiskOk(g: Geo, d: Disk) {
    GeoOk(g) && g.totalSectors <= |d|
  }

  predicate IsCluster(g: Geo, c: nat)
    requires g.perCluster > 0 && g.firstData <= g.totalSectors
  {
    2 <= c < ClusterCount(g) + 2
  }

  lemma ClusterInside(g: Geo, c: nat)
    requires GeoOk(g) && IsCluster(g, c)
    ensures g.firstData <= ClusterSector(g, c) && ClusterSector(g, c) + g.perCluster <= g.totalSectors
  {
    CountFits(g);
    hide ClusterCount;
    MulStep(c - 2, ClusterCount(g), g.perCluster);
  }

  lemma CountFits(g: Geo)
    requires g.perCluster > 0 && g.firstData <= g.totalSectors
    ensures ClusterCount(g) * g.perCluster <= g.totalSectors - g.firstData
  {
    DivBounds(g.totalSectors - g.firstData, g.perCluster);
  }

  lemma ClustersApart(g: Geo, c: nat, e: nat)
    requires 2 <= c < e
    ensures ClusterSector(g, c) + g.perCluster <= ClusterSector(g, e)
  {
    MulStep(c - 2, e - 2, g.perCluster);
  }

  // ---- the table ----

  // The 32 bits of entry c, and the 28 of them that count.
  function RawEntry(g: Geo, d: Disk, c: nat): nat
    requires g.fatStart + c / 128 < |d|
  {
    Field32(d[g.fatStart + c / 128], 4 * (c % 128))
  }

  function Entry(g: Geo, d: Disk, c: nat): nat
    requires g.fatStart + c / 128 < |d|
  {
    RawEntry(g, d, c) % TWO28
  }

  // Storing v in the low 28 bits of entry c.
  function PutEntry(g: Geo, d: Disk, c: nat, v: nat): (r: Disk)
    requires g.fatStart + c / 128 < |d|
    ensures |r| == |d|
  {
    var sec := g.fatStart + c / 128;
    var raw := RawEntry(g, d, c);
    d[sec := Splice(d[sec], 4 * (c % 128), Put32(raw - raw % TWO28 + v % TWO28))]
  }

  lemma EntryInside(g: Geo, c: nat)
    requires GeoOk(g) && c < ClusterCount(g) + 2
    ensures g.fatStart + c / 128 < g.firstData
    ensures 4 * c / SECTOR_SIZE == c / 128 && 4 * c % SECTOR_SIZE == 4 * (c % 128)
  {
  }

  lemma PutEntryGet(g: Geo, d: Disk, c: nat, v: nat, e: nat)
    requires g.fatStart + c / 128 < |d| && g.fatStart + e / 128 < |d|
    ensures Entry(g, PutEntry(g, d, c, v), e) == if e == c then v % TWO28 else Entry(g, d, e)
    ensures RawEntry(g, PutEntry(g, d, c, v), e) / TWO28 == RawEntry(g, d, e) / TWO28
  {
    hide Le32, Put32;
    var sec := g.fatStart + c / 128;
    var raw := RawEntry(g, d, c);
    MixBits(raw, v);
    var t := Put32(raw - raw % TWO28 + v % TWO28);
    if e == c {
      SpliceInside(d[sec], 4 * (c % 128), t);
    } else if e / 128 == c / 128 {
      SpliceOutside(d[sec], 4 * (c % 128), t, 4 * (e % 128), 4 * (e % 128) + 4);
    }
  }

  lemma MixBits(raw: nat, v: nat)
    requires raw < TWO32
    ensures var w := raw - raw % TWO28 + v % TWO28;
            0 <= w < TWO32 && w % TWO28 == v % TWO28 && w / TWO28 == raw / TWO28
  {
  }

  // The whole table, entries 0 and 1 included.
  ghost function TableOf(g: Geo, d: Disk): (t: Table)
    requires DiskOk(g, d)
    ensures |t| == ClusterCount(g) + 2
    ensures forall c | 0 <= c < |t| :: g.fatStart + c / 128 < g.firstData && t[c] == Entry(g, d, c)
  {
    seq(ClusterCount(g) + 2, c requires 0 <= c < ClusterCount(g) + 2 => Entry(g, d, c))
  }

  // The two disks hold the same data area.
  ghost predicate SameData(g: Geo, d: Disk, d': Disk) {
    |d| == |d'| && forall s | g.firstData <= s < |d| :: d[s] == d'[s]
  }

  // The bits of the table that the driver may not touch are the same: the top
  // four bits of every entry, and the sectors before the table.
  ghost predicate SameReserved(g: Geo, d: Disk, d': Disk)
    requires DiskOk(g, d)
  {
    && |d| == |d'|
    && (forall c: nat | c < ClusterCount(g) + 2 ::
          g.fatStart + c / 128 < |d| && RawEntry(g, d, c) / TWO28 == RawEntry(g, d', c) / TWO28)
    && (forall s | 0 <= s < g.fatStart :: d[s] == d'[s])
  }

  lemma PutEntryTable(g: Geo, d: Disk, c: nat, v: nat)
    requires DiskOk(g, d) && c < ClusterCount(g) + 2
    ensures g.fatStart + c / 128 < g.firstData
    ensures TableOf(g, PutEntry(g, d, c, v)) == TableOf(g, d)[c := v % TWO28]
    ensures SameData(g, d, PutEntry(g, d, c, v)) && SameReserved(g, d, PutEntry(g, d, c, v))
  {
    EntryInside(g, c);
    var d' := PutEntry(g, d, c, v);
    forall e: nat | e < ClusterCount(g) + 2
      ensures g.fatStart + e / 128 < |d|
      ensures Entry(g, d', e) == (if e == c then v % TWO28 else Entry(g, d, e))
      ensures RawEntry(g, d', e) / TWO28 == RawEntry(g, d, e) / TWO28
    {
      EntryInside(g, e);
      PutEntryGet(g, d, c, v, e);
    }
  }

  // Writing outside the table leaves the table alone.
  lemma SameTable(g: Geo, d: Disk, d': Disk)
    requires DiskOk(g, d) && |d'| == |d| && forall s | 0 <= s < g.firstData :: d[s] == d'[s]
    ensures TableOf(g, d') == TableOf(g, d) && SameReserved(g, d, d')
  {
    forall c: nat | c < ClusterCount(g) + 2
      ensures g.fatStart + c / 128 < |d| && RawEntry(g, d, c) == RawEntry(g, d', c)
    {
      EntryInside(g, c);
    }
  }

  // ---- data ----

  // The sectors of a cluster end to end.
  function Flatten(ss: seq<Sector>): (r: seq<byte>)
    ensures |r| == SECTOR_SIZE * |ss|
  {
    seq(SECTOR_SIZE * |ss|, p requires 0 <= p < SECTOR_SIZE * |ss| => ss[p / SECTOR_SIZE][p % SECTOR_SIZE])
  }

  function ClusterSize(g: Geo): nat { SECTOR_SIZE * g.perCluster }

  function ClusterBytes(g: Geo, d: Disk, c: nat): (r: seq<byte>)
    requires c >= 2 && ClusterSector(g, c) + g.perCluster <= |d|
    ensures |r| == ClusterSize(g)
  {
    Flatten(d[ClusterSector(g, c)..ClusterSector(g, c) + g.perCluster])
  }

  ghost predicate HasClusters(g: Geo, d: Disk, ch: seq<nat>) {
    forall i | 0 <= i < |ch| :: ch[i] >= 2 && ClusterSector(g, ch[i]) + g.perCluster <= |d|
  }

  // The clusters of a chain end to end.
  function ChainBytes(g: Geo, d: Disk, ch: seq<nat>): (r: seq<byte>)
    requires HasClusters(g, d, ch)
  {
    if ch == [] then [] else ChainBytes(g, d, ch[..|ch| - 1]) + ClusterBytes(g, d, ch[|ch| - 1])
  }

  // The bytes that n clusters hold.
  function Capacity(g: Geo, n: nat): nat {
    if n == 0 then 0 else Capacity(g, n - 1) + ClusterSize(g)
  }

  lemma {:induction false} ChainLength(g: Geo, d: Disk, ch: seq<nat>)
    requires HasClusters(g, d, ch)
    ensures |ChainBytes(g, d, ch)| == Capacity(g, |ch|)
  {
    if ch != [] { ChainLength(g, d, ch[..|ch| - 1]); }
  }

  lemma {:induction false} ChainSame(g: Geo, d: Disk, d': Disk, ch: seq<nat>)
    requires HasClusters(g, d, ch) && HasClusters(g, d', ch)
    requires forall i | 0 <= i < |ch| :: ClusterBytes(g, d, ch[i]) == ClusterBytes(g, d', ch[i])
    ensures ChainBytes(g, d, ch) == ChainBytes(g, d', ch)
  {
    if ch != [] { ChainSame(g, d, d', ch[..|ch| - 1]); }
  }

  // n bytes take ceil(n / ClusterSize) clusters.
  lemma {:induction false} CapacityIsProduct(g: Geo, n: nat)
    ensures Capacity(g, n) == n * ClusterSize(g)
  {
    if n > 0 { CapacityIsProduct(g, n - 1); }
  }

  lemma ClustersNeeded(g: Geo, n: nat, bytes: nat)
    requires g.perCluster > 0 && n > 0
    ensures (Capacity(g, n - 1) < bytes <= Capacity(g, n)) <==> n == (bytes + ClusterSize(g) - 1) / ClusterSize(g)
  {
    CapacityIsProduct(g, n);
    var z := ClusterSize(g);
    var q := (bytes + z - 1) / z;
    assert Capacity(g, n - 1) == n * z - z;
    DivBounds(bytes + z - 1, z);
    if n < q { MulStep(n, q, z); }
    if q < n { MulStep(q, n, z); }
  }

  // Cluster c after the first n of its bytes have been stored from t.
  ghost predicate Overlaid(g: Geo, d: Disk, d': Disk, sector: nat, t: seq<byte>, n: nat)
    requires |d| == |d'| && sector + g.perCluster <= |d| && n <= |t| && n <= ClusterSize(g)
  {
    forall s | sector <= s < sector + g.perCluster :: SectorOverlaid(d[s], d'[s], t, s - sector, n)
  }

  ghost predicate SectorOverlaid(s: Sector, s': Sector, t: seq<byte>, k: nat, n: nat)
    requires n <= |t|
  {
    forall i | 0 <= i < SECTOR_SIZE :: s'[i] == if SECTOR_SIZE * k + i < n then t[SECTOR_SIZE * k + i] else s[i]
  }

  lemma FullSector(s: Sector, t: seq<byte>, k: nat)
    requires SECTOR_SIZE * k + SECTOR_SIZE <= |t|
    ensures SectorOverlaid(s, t[SECTOR_SIZE * k..SECTOR_SIZE * k + SECTOR_SIZE], t, k, |t|)
  {
  }

  lemma PartSector(s: Sector, t: seq<byte>, k: nat)
    requires SECTOR_SIZE * k <= |t| < SECTOR_SIZE * k + SECTOR_SIZE
    ensures SectorOverlaid(s, Splice(s, 0, t[SECTOR_SIZE * k..]), t, k, |t|)
  {
  }

  lemma SectorBeyond(s: Sector, t: seq<byte>, k: nat)
    requires |t| <= SECTOR_SIZE * k
    ensures SectorOverlaid(s, s, t, k, |t|)
  {
  }

  lemma OverlaidBytes(g: Geo, d: Disk, d': Disk, c: nat, t: seq<byte>)
    requires c >= 2 && |d| == |d'| && ClusterSector(g, c) + g.perCluster <= |d| && |t| <= ClusterSize(g)
    requires Overlaid(g, d, d', ClusterSector(g, c), t, |t|)
    ensures ClusterBytes(g, d', c) == t + ClusterBytes(g, d, c)[|t|..]
  {
    var sector := ClusterSector(g, c);
    forall p | 0 <= p < ClusterSize(g)
      ensures ClusterBytes(g, d', c)[p] == (t + ClusterBytes(g, d, c)[|t|..])[p]
    {
      assert SectorOverlaid(d[sector + p / 512], d'[sector + p / 512], t, p / 512, |t|);
    }
  }

  // Writing inside one cluster does not show in another.
  lemma OtherCluster(g: Geo, d: Disk, d': Disk, c: nat, e: nat)
    requires DiskOk(g, d) && |d'| == |d| && IsCluster(g, c) && IsCluster(g, e) && c != e
    requires forall s | 0 <= s < |d| && !(ClusterSector(g, c) <= s < ClusterSector(g, c) + g.perCluster) ::
      d'[s] == d[s]
    ensures ClusterSector(g, e) + g.perCluster <= |d|
    ensures ClusterBytes(g, d', e) == ClusterBytes(g, d, e)
  {
    ClusterInside(g, e);
    if c < e { ClustersApart(g, c, e); } else { ClustersApart(g, e, c); }
    assert d'[ClusterSector(g, e)..ClusterSector(g, e) + g.perCluster] ==
         d[ClusterSector(g, e)..ClusterSector(g, e) + g.perCluster];
  }

  // A cluster reads the same while the data area is the same.
  lemma SameDataCluster(g: Geo, d: Disk, d': Disk, c: nat)
    requires DiskOk(g, d) && SameData(g, d, d') && IsCluster(g, c)
    ensures ClusterSector(g, c) + g.perCluster <= |d|
    ensures ClusterBytes(g, d', c) == ClusterBytes(g, d, c)
  {
    ClusterInside(g, c);
    assert d'[ClusterSector(g, c)..ClusterSector(g, c) + g.perCluster] ==
         d[ClusterSector(g, c)..ClusterSector(g, c) + g.perCluster];
  }

  // ---- what writing along a chain does ----

  // The sectors of the data area that differ belong to clusters of ch.
  ghost predicate Touches(g: Geo, d: Disk, d': Disk, ch: seq<nat>) {
    && |d| == |d'|
    && forall s | g.firstData <= s < |d| && d[s] != d'[s] :: InSome(g, ch, s)
  }

  ghost predicate InSome(g: Geo, ch: seq<nat>, s: nat) {
    exists c :: c in ch && c >= 2 && ClusterSector(g, c) <= s < ClusterSector(g, c) + g.perCluster
  }

  lemma TouchesNot(g: Geo, d: Disk, d': Disk, ch: seq<nat>, e: nat)
    requires DiskOk(g, d) && Touches(g, d, d', ch) && IsCluster(g, e) && e !in ch
    ensures ClusterSector(g, e) + g.perCluster <= |d|
    ensures ClusterBytes(g, d', e) == ClusterBytes(g, d, e)
  {
    ClusterInside(g, e);
    var at := ClusterSector(g, e);
    forall s | at <= s < at + g.perCluster ensures d'[s] == d[s] {
      if d[s] != d'[s] {
        var c :| c in ch && c >= 2 && ClusterSector(g, c) <= s < ClusterSector(g, c) + g.perCluster;
        if c < e { ClustersApart(g, c, e); } else { ClustersApart(g, e, c); }
        assert false;
      }
    }
    assert d'[at..at + g.perCluster] == d[at..at + g.perCluster];
  }

  lemma TouchesMore(g: Geo, d0: Disk, d: Disk, d': Disk, ch: seq<nat>, c: nat)
    requires Touches(g, d0, d, ch) && |d| == |d'| && c >= 2
    requires forall s | 0 <= s < |d| && !(ClusterSector(g, c) <= s < ClusterSector(g, c) + g.perCluster) ::
      d'[s] == d[s]
    ensures Touches(g, d0, d', ch + [c])
  {
    forall s | g.firstData <= s < |d| && d0[s] != d'[s] ensures InSome(g, ch + [c], s) {
      if d0[s] != d[s] {
        assert InSome(g, ch, s);
      } else {
        assert c in ch + [c];
      }
    }
  }

  lemma TouchesSameData(g: Geo, d0: Disk, d: Disk, d': Disk, ch: seq<nat>)
    requires Touches(g, d0, d, ch) && SameData(g, d, d')
    ensures Touches(g, d0, d', ch)
  {
  }

  lemma ChainHas(g: Geo, d: Disk, ch: seq<nat>)
    requires DiskOk(g, d) && forall i | 0 <= i < |ch| :: Inside(TableOf(g, d), ch[i])
    ensures HasClusters(g, d, ch)
  {
    forall i | 0 <= i < |ch| ensures ch[i] >= 2 && ClusterSector(g, ch[i]) + g.perCluster <= |d| {
      ClusterInside(g, ch[i]);
    }
  }

  // Clusters 0..i of the chain hold the front of t, cluster i the end of it,
  // and the clusters behind are as before: t lies over what was there.
  lemma {:induction false} OverlayChain(g: Geo, d0: Disk, d: Disk, ch: seq<nat>, i: nat, t: seq<byte>)
    requires HasClusters(g, d0, ch) && HasClusters(g, d, ch) && i < |ch|
    requires Capacity(g, i) <= |t| <= Capacity(g, i) + ClusterSize(g)
    requires ChainBytes(g, d, ch[..i]) == t[..Capacity(g, i)]
    requires var n := |t| - Capacity(g, i);
             ClusterBytes(g, d, ch[i]) == t[Capacity(g, i)..] + ClusterBytes(g, d0, ch[i])[n..]
    requires forall j | i < j < |ch| :: ClusterBytes(g, d, ch[j]) == ClusterBytes(g, d0, ch[j])
    ensures |ChainBytes(g, d0, ch)| >= |t|
    ensures ChainBytes(g, d, ch) == t + ChainBytes(g, d0, ch)[|t|..]
    decreases |ch|
  {
    hide ClusterBytes, ClusterSector;
    var front, back := ch[..|ch| - 1], ch[|ch| - 1];
    ChainLength(g, d0, front);
    if i == |ch| - 1 {
      assert ch[..i] == front;
      LayLast(t, Capacity(g, i), ChainBytes(g, d0, front), ClusterBytes(g, d0, back));
    } else {
      assert front[..i] == ch[..i];
      OverlayChain(g, d0, d, front, i, t);
      LayBefore(t, ChainBytes(g, d0, front), ClusterBytes(g, d0, back));
    }
  }

  lemma LayLast(t: seq<byte>, k: nat, front: seq<byte>, back: seq<byte>)
    requires k == |front| <= |t| <= k + |back|
    ensures t[..k] + (t[k..] + back[|t| - k..]) == t + (front + back)[|t|..]
  {
    DropConcat(front, back, |t|);
  }

  lemma LayBefore(t: seq<byte>, front: seq<byte>, back: seq<byte>)
    requires |t| <= |front|
    ensures t + front[|t|..] + back == t + (front + back)[|t|..]
  {
    DropConcat(front, back, |t|);
  }

  // write_chain has filled the first i clusters of ch with the front of t.
  ghost predicate Progress(g: Geo, d0: Disk, d: Disk, ch: seq<nat>, i: nat, t: seq<byte>) {
    && DiskOk(g, d0) && |d| == |d0|
    && HasClusters(g, d0, ch) && i <= |ch| && Capacity(g, i) <= |t|
    && (forall j | 0 <= j < |ch| :: IsCluster(g, ch[j])) && Distinct(ch)
    && ChainBytes(g, d, ch[..i]) == t[..Capacity(g, i)]
    && Touches(g, d0, d, ch[..i])
  }

  lemma ProgressAhead(g: Geo, d0: Disk, d: Disk, ch: seq<nat>, i: nat, t: seq<byte>, j: nat)
    requires Progress(g, d0, d, ch, i, t) && i <= j < |ch|
    ensures ClusterBytes(g, d, ch[j]) == ClusterBytes(g, d0, ch[j])
  {
    TouchesNot(g, d0, d, ch[..i], ch[j]);
  }

  // Filling the next cluster, wholly or with the end of t.
  lemma TakeMore<T>(t: seq<T>, at: nat, n: nat)
    requires at + n <= |t|
    ensures t[..at + n] == t[..at] + t[at..at + n]
  {
  }

  lemma ProgressWrite(g: Geo, d0: Disk, d: Disk, d': Disk, ch: seq<nat>, i: nat, t: seq<byte>, n: nat)
    requires Progress(g, d0, d, ch, i, t) && i < |ch| && |d'| == |d|
    requires n == if |t| - Capacity(g, i) < ClusterSize(g) then |t| - Capacity(g, i) else ClusterSize(g)
    requires ClusterBytes(g, d', ch[i]) == t[Capacity(g, i)..Capacity(g, i) + n] + ClusterBytes(g, d, ch[i])[n..]
    requires forall s | 0 <= s < |d| && !(ClusterSector(g, ch[i]) <= s < ClusterSector(g, ch[i]) + g.perCluster) ::
      d'[s] == d[s]
    ensures Touches(g, d0, d', ch[..i + 1])
    ensures Capacity(g, i) + n < |t| ==> n == ClusterSize(g) && Progress(g, d0, d', ch, i + 1, t)
    ensures Capacity(g, i) + n == |t| ==> Wrote(g, d0, d', ch, t)
  {
    hide ClusterBytes, ClusterSector, GeoOk, Touches;
    var front, more, at := ch[..i], ch[..i + 1], Capacity(g, i);
    assert more == front + [ch[i]] && more[..i] == front;
    TouchesMore(g, d0, d, d', front, ch[i]);
    FrontKept(g, d, d', ch, i);
    ProgressAhead(g, d0, d, ch, i, t, i);
    if at + n < |t| {
      assert ClusterBytes(g, d, ch[i])[n..] == [];
      TakeMore(t, at, n);
    } else {
      WroteAll(g, d0, d', ch, i, t);
    }
  }

  lemma WroteAll(g: Geo, d0: Disk, d: Disk, ch: seq<nat>, i: nat, t: seq<byte>)
    requires DiskOk(g, d0) && |d| == |d0| && HasClusters(g, d0, ch) && i < |ch| && Distinct(ch)
    requires forall j | 0 <= j < |ch| :: IsCluster(g, ch[j])
    requires Capacity(g, i) <= |t| <= Capacity(g, i) + ClusterSize(g)
    requires Touches(g, d0, d, ch[..i + 1]) && ChainBytes(g, d, ch[..i]) == t[..Capacity(g, i)]
    requires ClusterBytes(g, d, ch[i]) == t[Capacity(g, i)..|t|] + ClusterBytes(g, d0, ch[i])[|t| - Capacity(g, i)..]
    ensures Wrote(g, d0, d, ch, t)
  {
    hide ClusterBytes, ClusterSector;
    forall j | i < j < |ch| ensures ClusterBytes(g, d, ch[j]) == ClusterBytes(g, d0, ch[j]) {
      TouchesNot(g, d0, d, ch[..i + 1], ch[j]);
    }
    assert t[Capacity(g, i)..|t|] == t[Capacity(g, i)..];
    OverlayChain(g, d0, d, ch, i, t);
  }

  // t lies over what the chain held before.
  ghost predicate Wrote(g: Geo, d0: Disk, d: Disk, ch: seq<nat>, t: seq<byte>) {
    && HasClusters(g, d0, ch) && HasClusters(g, d, ch) && |ChainBytes(g, d0, ch)| >= |t|
    && ChainBytes(g, d, ch) == t + ChainBytes(g, d0, ch)[|t|..]
  }

  lemma FrontKept(g: Geo, d: Disk, d': Disk, ch: seq<nat>, i: nat)
    requires DiskOk(g, d) && |d'| == |d| && i < |ch| && Distinct(ch)
    requires HasClusters(g, d, ch) && forall j | 0 <= j < |ch| :: IsCluster(g, ch[j])
    requires forall s | 0 <= s < |d| && !(ClusterSector(g, ch[i]) <= s < ClusterSector(g, ch[i]) + g.perCluster) ::
      d'[s] == d[s]
    ensures ChainBytes(g, d', ch[..i]) == ChainBytes(g, d, ch[..i])
  {
    forall j | 0 <= j < i ensures ClusterBytes(g, d, ch[j]) == ClusterBytes(g, d', ch[j]) {
      OtherCluster(g, d, d', ch[i], ch[j]);
    }
    ChainSame(g, d, d', ch[..i]);
  }

  // Table writes and a longer chain do not disturb what has been filled.
  lemma ProgressTable(g: Geo, d0: Disk, d: Disk, d': Disk, ch: seq<nat>, ch': seq<nat>, i: nat, t: seq<byte>)
    requires Progress(g, d0, d, ch, i, t) && SameData(g, d, d') && ch <= ch'
    requires Distinct(ch') && forall j | 0 <= j < |ch'| :: Inside(TableOf(g, d0), ch'[j])
    ensures Progress(g, d0, d', ch', i, t)
  {
    assert ch'[..i] == ch[..i];
    ChainHas(g, d0, ch');
    forall j | 0 <= j < i ensures ClusterBytes(g, d, ch[j]) == ClusterBytes(g, d', ch[j]) {
      SameDataCluster(g, d, d', ch[j]);
    }
    ChainSame(g, d, d', ch[..i]);
    TouchesSameData(g, d0, d, d', ch[..i]);
  }
}
