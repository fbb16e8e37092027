/** Removing a directory. */
module FatRmdir {
  import opened Bytes
  import opened Fat
  import opened FatTable
  import opened FatDriver
  import opened FatNames
  import opened FatSlots
  import opened FatScan
  import opened FatFiles
  import opened FatFree
  import opened FatDirs

  // Slots 2 to 15 of a directory's first sector are not in use.
  ghost predicate LooksEmpty(s: Sector) {
    forall j | 2 <= j < 16 :: s[SLOT_SIZE * j] == 0 || s[SLOT_SIZE * j] == DELETED
  }

  method CheckEmpty(s: Sector) returns (empty: bool)
    ensures empty <==> LooksEmpty(s)
  {
    empty := true;
    var j := 2;
    while j < 16
      invariant 2 <= j <= 16 && empty
      invariant forall k | 2 <= k < j :: s[SLOT_SIZE * k] == 0 || s[SLOT_SIZE * k] == DELETED
    {
      if s[SLOT_SIZE * j] != 0 && s[SLOT_SIZE * j] != DELETED { return false; }
      j := j + 1;
    }
  }

  // From t to t' exactly what c reaches has been freed.
  ghost predicate FreedFrom(t: Table, t': Table, c: nat) {
    |t'| == |t| && forall e: nat | e < |t| :: t'[e] == if c != 0 && Reaches(t, c, e) then 0 else t[e]
  }

  // What a successful fat32_rmdir leaves.
  ghost predicate DirRemoved(g: Geo, d: Disk, d': Disk, dir: seq<nat>, key: seq<byte>, p: nat) {
    && DiskOk(g, d) && DiskOk(g, d') && HasClusters(g, d, dir) && HasClusters(g, d', dir) && SameReserved(g, d, d')
    && FirstHit(ChainBytes(g, d, dir), Named(key), p)
    && FreedFrom(TableOf(g, d), TableOf(g, d'), FirstCluster(SlotAt(ChainBytes(g, d, dir), p)))
    && ChainBytes(g, d', dir) == PutSlot(ChainBytes(g, d, dir), p, SlotAt(ChainBytes(g, d, dir), p)[0 := DELETED])
    && Touches(g, d, d', dir)
  }

  // fat32_rmdir
  method Rmdir(vol: Volume, name: Name, ghost dir: seq<nat>) returns (r: int, ghost p: nat)
    requires vol.Valid() && IsChain(vol.Table(), dir) && dir[0] == vol.cwd && HasClusters(vol.g, vol.disk[..], dir)
    requires forall q: nat :: FirstHit(ChainBytes(vol.g, vol.disk[..], dir), Named(Name83(name)), q) ==>
      var c := FirstCluster(SlotAt(ChainBytes(vol.g, vol.disk[..], dir), q));
      c == 0 || (Inside(vol.Table(), c) && StaysIn(vol.Table(), c))
    modifies vol.disk
    ensures vol.Valid()
    ensures r == ERR_NOTFOUND <==> NoHit(ChainBytes(vol.g, old(vol.disk[..]), dir), Named(Name83(name)))
    ensures r != ERR_NOTFOUND ==> FirstHit(ChainBytes(vol.g, old(vol.disk[..]), dir), Named(Name83(name)), p)
    ensures r != ERR_NOTFOUND ==>
      r == RemoveVerdict(vol.g, old(vol.disk[..]), SlotAt(ChainBytes(vol.g, old(vol.disk[..]), dir), p))
    // In bytes: byte 11 of the slot says whether it is a directory, bytes 26, 27, 20
    // and 21 where that begins, and slots 2 to 15 of its first sector must be unused.
    ensures r != ERR_NOTFOUND ==> Refusal(vol.g, old(vol.disk[..]), ChainBytes(vol.g, old(vol.disk[..]), dir), p, r)
    ensures r != 0 ==> vol.disk[..] == old(vol.disk[..])
    ensures r == 0 ==> DirRemoved(vol.g, old(vol.disk[..]), vol.disk[..], dir, Name83(name), p)
  {
    hide IsChain, HasClusters, ChainBytes, PlacedAt, SlotStored, TableOf, HasSlot, Judge, NoHit, FirstCluster, StaysIn,
         LooksEmpty, Reaches, SameReserved, SameData, DirRemoved, Refusal;
    ghost var g, d, t := vol.g, vol.disk[..], vol.Table();
    var key := Key83(name);
    var v, lba, i, buf;
    ChainSearchable(vol.g, vol.disk[..], dir);
    v, lba, i, buf, p := Scan(vol, vol.cwd, Named(key), dir);
    ghost var b := ChainBytes(g, d, dir);
    HitOrNot(b, Named(key), v, p);
    if v != Take { return ERR_NOTFOUND, p; }
    ReadSlot(g, d, dir, lba, i, p);
    VerdictBytes(g, d, b, p);
    var slot: Slot := buf[SLOT_SIZE * i..SLOT_SIZE * i + SLOT_SIZE];
    if !IsDir(slot) { return ERR_NOTDIR, p; }
    var cl := FirstCluster(slot);
    ChainIn(g, d, dir);
    SameSelf(g, d);
    if cl != 0 {
      ClusterInside(vol.g, cl);
      var ok, first := vol.ReadSector(ClusterSector(vol.g, cl));
      FirstSector(g, d, cl);
      if ok {
        var empty := CheckEmpty(first);
        if !empty { return ERR_NOTEMPTY, p; }
      }
      FreeChain(vol, cl);
    }
    ghost var d1 := vol.disk[..];
    RowSame(g, d, d1, dir, lba);
    PutBack(vol, lba, i, buf, slot[0 := DELETED], dir, p);
    RemovedBySteps(g, d, d1, vol.disk[..], dir, key, p, slot);
    r := 0;
  }

  ghost predicate Refusal(g: Geo, d: Disk, b: seq<byte>, p: nat, r: int) {
    && 32 * p + 32 <= |b|
    && var c := Number(b[32 * p + 26], b[32 * p + 27], b[32 * p + 20], b[32 * p + 21]);
       RefusalAt(d, b[32 * p + 11], c, g.firstData + (c - 2) * g.perCluster, r)
  }

  ghost predicate RefusalAt(d: Disk, attr: byte, c: nat, sector: int, r: int) {
    && (attr / 16 % 2 == 0 <==> r == -5)
    && (attr / 16 % 2 == 1 ==>
          if c == 0 then r == 0
          else 0 <= sector < |d|
               && r == if forall j | 2 <= j < 16 :: d[sector][32 * j] == 0 || d[sector][32 * j] == 0xE5 then 0 else -6)
  }

  lemma VerdictBytes(g: Geo, d: Disk, b: seq<byte>, p: nat)
    requires DiskOk(g, d) && HasSlot(b, p)
    requires FirstCluster(SlotAt(b, p)) == 0 || IsCluster(g, FirstCluster(SlotAt(b, p)))
    ensures Refusal(g, d, b, p, RemoveVerdict(g, d, SlotAt(b, p)))
  {
    hide FirstCluster, ClusterCount, ClusterSector, RefusalAt, RemoveVerdict, GeoOk, Number;
    var s := SlotAt(b, p);
    SlotFields(s);
    var c := FirstCluster(s);
    assert s[11] == b[32 * p + 11] && s[20] == b[32 * p + 20] && s[21] == b[32 * p + 21];
    assert s[26] == b[32 * p + 26] && s[27] == b[32 * p + 27];
    VerdictAt(g, d, s, c, g.firstData + (c - 2) * g.perCluster);
  }

  lemma VerdictAt(g: Geo, d: Disk, s: Slot, c: nat, sector: int)
    requires DiskOk(g, d) && c == FirstCluster(s) && (c == 0 || IsCluster(g, c))
    requires sector == g.firstData + (c - 2) * g.perCluster
    ensures RefusalAt(d, s[11], c, sector, RemoveVerdict(g, d, s))
  {
    hide FirstCluster, ClusterCount, Number;
    SlotFields(s);
    if c != 0 {
      ClusterInside(g, c);
      var first := d[sector];
      assert LooksEmpty(first) <==> forall j | 2 <= j < 16 :: first[32 * j] == 0 || first[32 * j] == 0xE5;
    }
  }

  // The answer of fat32_rmdir for the slot it finds.
  ghost function RemoveVerdict(g: Geo, d: Disk, slot: Slot): int {
    if !IsDir(slot) then ERR_NOTDIR
    else if FirstCluster(slot) >= 2 && ClusterSector(g, FirstCluster(slot)) < |d|
            && !LooksEmpty(d[ClusterSector(g, FirstCluster(slot))])
    then ERR_NOTEMPTY
    else 0
  }

  lemma FirstSector(g: Geo, d: Disk, c: nat)
    requires DiskOk(g, d) && IsCluster(g, c)
    ensures ClusterSector(g, c) < |d|
  {
    ClusterInside(g, c);
  }

  // Freeing clusters leaves the directory's bytes.
  lemma RowSame(g: Geo, d: Disk, d': Disk, dir: seq<nat>, lba: nat)
    requires DiskOk(g, d) && IsRow(g, dir) && SameData(g, d, d') && HasClusters(g, d, dir)
    requires exists i: nat, p: nat :: PlacedAt(g, dir, lba, i, p)
    ensures HasClusters(g, d', dir) && ChainBytes(g, d', dir) == ChainBytes(g, d, dir)
    ensures lba < |d'| && d'[lba] == d[lba] && Touches(g, d, d', dir)
  {
    hide ClusterBytes, ClusterSector, ChainBytes;
    forall j | 0 <= j < |dir| ensures ClusterBytes(g, d, dir[j]) == ClusterBytes(g, d', dir[j]) {
      SameDataCluster(g, d, d', dir[j]);
    }
    ChainSame(g, d, d', dir);
    var i: nat, p: nat :| PlacedAt(g, dir, lba, i, p);
    var k: nat, s: nat :| PlacedIn(g, dir, k, s, lba, i, p);
    ClusterInside(g, dir[k]);
  }

  lemma RemovedBySteps(g: Geo, d: Disk, d1: Disk, d2: Disk, dir: seq<nat>, key: seq<byte>, p: nat, slot: Slot)
    requires DiskOk(g, d) && DiskOk(g, d1) && HasClusters(g, d, dir) && HasClusters(g, d1, dir)
    requires FirstHit(ChainBytes(g, d, dir), Named(key), p) && slot == SlotAt(ChainBytes(g, d, dir), p)
    requires ChainBytes(g, d1, dir) == ChainBytes(g, d, dir) && SameReserved(g, d, d1) && Touches(g, d, d1, dir)
    requires FreedFrom(TableOf(g, d), TableOf(g, d1), FirstCluster(slot))
    requires SlotStored(g, d1, d2, dir, p, slot[0 := DELETED])
    ensures DirRemoved(g, d, d2, dir, key, p)
  {
    hide ChainBytes, TableOf, FreedFrom, ClusterSector, ClusterBytes, FirstHit;
    SameReservedTrans(g, d, d1, d2);
  }
}
