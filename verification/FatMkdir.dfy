/** Making a directory. */
module FatMkdir {
  import opened Widths
  import opened Bytes
  import opened Fat
  import opened FatTable
  import opened FatDriver
  import opened FatNames
  import opened FatSlots
  import opened FatScan
  import opened FatFiles
  import opened FatDirs

  // After create_entry_at used slot p, the second scan of fat32_mkdir stops there,
  // and so does find_entry.
  lemma NewEntryHits(b: seq<byte>, key: seq<byte>, p: nat, x: Slot)
    requires FirstHit(b, Unused, p) && !Exists(b, key)
    requires SlotName(x) == key && Attr(x) == ATTR_DIR && x[0] != 0 && x[0] != DELETED
    ensures FirstHit(PutSlot(b, p, x), NewDir(key), p) && Judge(NewDir(key), x) == Take
    ensures FoundAt(PutSlot(b, p, x), key, p, x) && FirstHit(PutSlot(b, p, x), Named(key), p)
  {
    var b' := PutSlot(b, p, x);
    PutSlotGet(b, p, x, p);
    forall q: nat | q < p && HasSlot(b, q)
      ensures SlotAt(b', q) == SlotAt(b, q)
      ensures Judge(Find(key), SlotAt(b, q)) == Skip && Judge(NewDir(key), SlotAt(b, q)) == Skip
      ensures Judge(Named(key), SlotAt(b, q)) == Skip
    {
      PutSlotGet(b, p, x, q);
      InUseNotNamed(b, key, p, q);
    }
  }

  lemma {:induction false} InUseNotNamed(b: seq<byte>, key: seq<byte>, p: nat, q: nat)
    requires Passed(b, Unused, p) && !Exists(b, key) && q < p && HasSlot(b, q)
    ensures Judge(Find(key), SlotAt(b, q)) == Skip
    decreases q
  {
    assert Judge(Unused, SlotAt(b, q)) == Skip;
    forall j: nat | j < q && HasSlot(b, j) ensures Judge(Find(key), SlotAt(b, j)) == Skip {
      InUseNotNamed(b, key, p, j);
    }
    var s := SlotAt(b, q);
    assert Judge(Find(key), s) == Take ==> FoundAt(b, key, q, s);
  }

  lemma KeyNotZero(name: Name)
    ensures Name83(name)[0] != 0
  {
    if !IsDots(name) {
      var base := UpperAll(Cut(Base(name), 8));
      assert Name83(name)[0] == Pad(base, 8)[0];
      if base != [] { assert base[0] == Upper(name[0]); }
    }
  }

  // The slot of a new directory whose cluster is f.
  function DirEntry(s: Slot, key: seq<byte>, f: nat): Slot
    requires |key| == 11 && f < TWO32
  {
    WithCluster(Fresh(s, key, ATTR_DIR), f)
  }

  lemma DirEntryGet(s: Slot, key: seq<byte>, f: nat)
    requires |key| == 11 && f < TWO32
    ensures var x := DirEntry(s, key, f);
            SlotName(x) == key && Attr(x) == ATTR_DIR && IsDir(x) && FirstCluster(x) == f && x[0] == key[0]
  {
    FreshGet(s, key, ATTR_DIR);
    WithClusterGet(Fresh(s, key, ATTR_DIR), f);
    assert DirEntry(s, key, f)[0] == SlotName(DirEntry(s, key, f))[0];
  }

  // What a successful fat32_mkdir leaves: the least free cluster f holds the new
  // directory, slot p names it, and nothing else has changed.
  ghost predicate DirMade(g: Geo, d: Disk, d': Disk, dir: seq<nat>, key: seq<byte>, p: nat, f: nat, parent: nat) {
    && DiskOk(g, d) && DiskOk(g, d') && |key| == 11 && parent < TWO32 && f < TWO32
    && LeastFree(TableOf(g, d), f) && TableOf(g, d') == TableOf(g, d)[f := EOC] && SameReserved(g, d, d')
    && HasClusters(g, d, dir) && HasClusters(g, d', dir) && FirstHit(ChainBytes(g, d, dir), Unused, p)
    && ChainBytes(g, d', dir) == PutSlot(ChainBytes(g, d, dir), p, DirEntry(SlotAt(ChainBytes(g, d, dir), p), key, f))
    && ClusterSector(g, f) < |d'| && d'[ClusterSector(g, f)] == DirSector(f, parent)
    && Touches(g, d, d', dir + [f])
  }

  // fat32_mkdir
  method Mkdir(vol: Volume, name: Name, ghost dir: seq<nat>) returns (r: int, ghost p: nat, ghost f: nat)
    requires vol.Valid() && IsChain(vol.Table(), dir) && dir[0] == vol.cwd && HasClusters(vol.g, vol.disk[..], dir)
    requires vol.cwd < TWO32
    modifies vol.disk
    ensures vol.Valid()
    ensures FreeClusters(old(vol.Table())) == {} ==> r == ERR_NOSPACE && vol.disk[..] == old(vol.disk[..])
    ensures FreeClusters(old(vol.Table())) != {} && Exists(ChainBytes(vol.g, old(vol.disk[..]), dir), Name83(name)) ==>
      r == ERR_EXISTS && vol.disk[..] == old(vol.disk[..])
    ensures FreeClusters(old(vol.Table())) != {} && !Exists(ChainBytes(vol.g, old(vol.disk[..]), dir), Name83(name)) ==>
      if NoHit(ChainBytes(vol.g, old(vol.disk[..]), dir), Unused) then
        r == ERR_NOSPACE && vol.disk[..] == old(vol.disk[..])
      else r == (if Name83(name)[0] == DELETED then -1 else 0)
    ensures r == 0 ==> DirMade(vol.g, old(vol.disk[..]), vol.disk[..], dir, Name83(name), p, f, vol.cwd)
    ensures r == 0 ==> !Exists(ChainBytes(vol.g, old(vol.disk[..]), dir), Name83(name))
    // A name that begins with the deleted mark leaves a slot without a cluster.
    ensures r == -1 ==> FirstHit(ChainBytes(vol.g, old(vol.disk[..]), dir), Unused, p)
    ensures r == -1 ==> SlotStored(vol.g, old(vol.disk[..]), vol.disk[..], dir, p,
                                   Fresh(SlotAt(ChainBytes(vol.g, old(vol.disk[..]), dir), p), Name83(name), ATTR_DIR))
  {
    hide IsChain, HasClusters, ChainBytes, SlotStored, FirstHit, TableOf, HasSlot, Judge, NoHit, Exists, FreeClusters,
         Fresh, Name83, DirMade;
    ghost var g, d := vol.g, vol.disk[..];
    p, f := 0, 0;
    var new_ := vol.FindFree();
    if new_ == 0 { return ERR_NOSPACE, 0, 0; }
    SomeIsFree(vol.Table(), new_);
    var found, slot;
    ChainSearchable(vol.g, vol.disk[..], dir);
    found, slot, p := FindEntry(vol, name, dir);
    if found { return ERR_EXISTS, 0, 0; }
    r, p := CreateEntry(vol, name, ATTR_DIR, dir);
    if r != 0 { return r, 0, 0; }
    var key := Key83(name);
    KeyNotZero(name);
    r := FillEntry(vol, key, new_, dir, p, d);
    f := new_;
  }

  lemma SomeIsFree(t: Table, f: nat)
    requires LeastFree(t, f)
    ensures FreeClusters(t) != {} && f < TWO32
  {
    assert f in FreeClusters(t);
  }

  // The second scan of fat32_mkdir, after the entry has been created on disk d.
  method FillEntry(vol: Volume, key: seq<byte>, f: nat, ghost dir: seq<nat>, ghost p: nat, ghost d: Disk)
    returns (r: int)
    requires vol.Valid() && DiskOk(vol.g, d) && IsChain(TableOf(vol.g, d), dir) && dir[0] == vol.cwd < TWO32
    requires |key| == 11 && key[0] != 0
    requires HasClusters(vol.g, d, dir) && FirstHit(ChainBytes(vol.g, d, dir), Unused, p)
    requires !Exists(ChainBytes(vol.g, d, dir), key)
    requires LeastFree(TableOf(vol.g, d), f) && f < TWO32
    requires SlotStored(vol.g, d, vol.disk[..], dir, p, Fresh(SlotAt(ChainBytes(vol.g, d, dir), p), key, ATTR_DIR))
    modifies vol.disk
    ensures vol.Valid()
    ensures r == if key[0] == DELETED then -1 else 0
    ensures r != 0 ==> vol.disk[..] == old(vol.disk[..])
    ensures r == 0 ==> DirMade(vol.g, d, vol.disk[..], dir, key, p, f, vol.cwd)
  {
    hide IsChain, HasClusters, ChainBytes, SlotStored, FirstHit, TableOf, HasSlot, Judge, NoHit, Exists, FreeClusters,
         Fresh, DirMade, PlacedAt, WithCluster, DirSector, SameReserved, SameData;
    ghost var g, d1, b := vol.g, vol.disk[..], ChainBytes(vol.g, d, dir);
    HitHas(b, Unused, p);
    ghost var x := Fresh(SlotAt(b, p), key, ATTR_DIR);
    StoredDir(g, d, d1, dir, p, x);
    FreshGet(SlotAt(b, p), key, ATTR_DIR);
    var v, lba, i, buf;
    ghost var q;
    ChainSearchable(vol.g, vol.disk[..], dir);
    v, lba, i, buf, q := Scan(vol, vol.cwd, NewDir(key), dir);
    if key[0] == DELETED {
      HiddenName(PutSlot(b, p, x), key, v, q);
      return -1;
    }
    assert x[0] == SlotName(x)[0];
    NewEntryHits(b, key, p, x);
    PutSlotGet(b, p, x, p);
    HitIs(PutSlot(b, p, x), NewDir(key), p, x, v, q);
    ReadSlot(g, d1, dir, lba, i, p);
    ChainIn(g, d1, dir);
    PutBack(vol, lba, i, buf, WithCluster(buf[SLOT_SIZE * i..SLOT_SIZE * i + SLOT_SIZE], f), dir, p);
    ghost var d2 := vol.disk[..];
    StoredTable(g, d1, d2, dir, p, WithCluster(x, f));
    var ok := vol.WriteEntry(f, EOC);
    ghost var d3 := vol.disk[..];
    ok := vol.WriteSector(ClusterSector(vol.g, f), DirSector(f, vol.cwd));
    MadeBySteps(g, d, d1, d2, d3, vol.disk[..], dir, key, p, f, vol.cwd);
    r := 0;
  }

  lemma StoredDir(g: Geo, d: Disk, d': Disk, dir: seq<nat>, p: nat, x: Slot)
    requires SlotStored(g, d, d', dir, p, x) && IsChain(TableOf(g, d), dir)
    ensures IsChain(TableOf(g, d'), dir) && HasClusters(g, d', dir) && HasSlot(ChainBytes(g, d, dir), p)
    ensures ChainBytes(g, d', dir) == PutSlot(ChainBytes(g, d, dir), p, x) && TableOf(g, d') == TableOf(g, d)
  {
  }

  lemma StoredTable(g: Geo, d: Disk, d': Disk, dir: seq<nat>, p: nat, x: Slot)
    requires SlotStored(g, d, d', dir, p, x)
    ensures TableOf(g, d') == TableOf(g, d)
  {
  }

  // A name that begins with the deletion mark is never found.
  lemma HiddenName(b: seq<byte>, key: seq<byte>, v: Verdict, q: nat)
    requires |key| == 11 && key[0] == DELETED
    requires v != Skip ==> FirstHit(b, NewDir(key), q)
    ensures v == Skip
  {
    assert HasSlot(b, q) ==> SlotAt(b, q)[0] == SlotName(SlotAt(b, q))[0];
  }

  // Entry created, cluster stored in it, table entry set, first sector written.
  lemma MadeBySteps(g: Geo, d: Disk, d1: Disk, d2: Disk, d3: Disk, d4: Disk, dir: seq<nat>, key: seq<byte>, p: nat,
                    f: nat, parent: nat)
    requires DiskOk(g, d) && HasClusters(g, d, dir) && |key| == 11 && f < TWO32 && parent < TWO32
    requires IsChain(TableOf(g, d), dir) && FirstHit(ChainBytes(g, d, dir), Unused, p) && LeastFree(TableOf(g, d), f)
    requires SlotStored(g, d, d1, dir, p, Fresh(SlotAt(ChainBytes(g, d, dir), p), key, ATTR_DIR))
    requires SlotStored(g, d1, d2, dir, p, DirEntry(SlotAt(ChainBytes(g, d, dir), p), key, f))
    requires DiskOk(g, d3) && TableOf(g, d3) == TableOf(g, d2)[f := EOC % TWO28] && SameData(g, d2, d3)
    requires SameReserved(g, d2, d3)
    requires d4 == if ClusterSector(g, f) < |d3| then d3[ClusterSector(g, f) := DirSector(f, parent)] else d3
    ensures DirMade(g, d, d4, dir, key, p, f, parent)
  {
    hide ChainBytes, ClusterSector, ClusterBytes, Fresh, Judge, WithCluster, DirSector, FirstHit, Capacity;
    SectorWritten(g, d3, d4, f, DirSector(f, parent));
    EntryKeeps(g, d2, d3, f, EOC, dir);
    SectorKeeps(g, d3, d4, f, dir);
    KeptTrans(g, d2, d3, d4, dir);
    TouchesSteps(g, d, d1, d2, d3, d4, dir, f);
    ReservedSteps(g, d, d1, d2, d3, d4);
    PutSlotTwice(ChainBytes(g, d, dir), p, Fresh(SlotAt(ChainBytes(g, d, dir), p), key, ATTR_DIR),
                 DirEntry(SlotAt(ChainBytes(g, d, dir), p), key, f));
  }

  lemma SectorWritten(g: Geo, d: Disk, d': Disk, f: nat, s: Sector)
    requires DiskOk(g, d) && IsCluster(g, f)
    requires d' == if ClusterSector(g, f) < |d| then d[ClusterSector(g, f) := s] else d
    ensures ClusterSector(g, f) < |d| && d' == d[ClusterSector(g, f) := s]
    ensures DiskOk(g, d') && TableOf(g, d') == TableOf(g, d) && SameReserved(g, d, d')
    ensures Touches(g, d, d', [f])
  {
    ClusterInside(g, f);
    SameTable(g, d, d');
    TouchesOne(g, d, d', [f], f, ClusterSector(g, f));
  }

  lemma SectorKeeps(g: Geo, d: Disk, d': Disk, f: nat, o: seq<nat>)
    requires DiskOk(g, d) && DiskOk(g, d') && TableOf(g, d') == TableOf(g, d) && Touches(g, d, d', [f])
    requires IsChain(TableOf(g, d), o) && f !in o
    ensures Kept(g, d, d', o)
  {
    TouchKeeps(g, d, d', [f], o);
  }

  lemma TouchesSteps(g: Geo, d: Disk, d1: Disk, d2: Disk, d3: Disk, d4: Disk, dir: seq<nat>, f: nat)
    requires Touches(g, d, d1, dir) && Touches(g, d1, d2, dir) && SameData(g, d2, d3) && Touches(g, d3, d4, [f])
    ensures Touches(g, d, d4, dir + [f])
  {
    forall s | g.firstData <= s < |d| && d[s] != d4[s] ensures InSome(g, dir + [f], s) {
      if d[s] != d1[s] || d1[s] != d2[s] {
        assert InSome(g, dir, s);
      } else {
        assert InSome(g, [f], s);
      }
    }
  }

  lemma ReservedSteps(g: Geo, d: Disk, d1: Disk, d2: Disk, d3: Disk, d4: Disk)
    requires DiskOk(g, d) && DiskOk(g, d1) && DiskOk(g, d2) && DiskOk(g, d3)
    requires SameReserved(g, d, d1) && SameReserved(g, d1, d2) && SameReserved(g, d2, d3) && SameReserved(g, d3, d4)
    ensures SameReserved(g, d, d4)
  {
    SameReservedTrans(g, d, d1, d2);
    SameReservedTrans(g, d, d2, d3);
    SameReservedTrans(g, d, d3, d4);
  }

  lemma PutSlotTwice(b: seq<byte>, p: nat, x: Slot, y: Slot)
    requires HasSlot(b, p)
    ensures PutSlot(PutSlot(b, p, x), p, y) == PutSlot(b, p, y)
  {
  }

  // The directory name 0xE5: with a cluster and a slot free fat32_mkdir fails, and
  // the slot is marked deleted, so that it can still be used.
  method MarkedName(vol: Volume, ghost dir: seq<nat>) returns (r: int, ghost p: nat)
    requires vol.Valid() && IsChain(vol.Table(), dir) && dir[0] == vol.cwd && HasClusters(vol.g, vol.disk[..], dir)
    requires vol.cwd < TWO32 && FreeClusters(vol.Table()) != {}
    requires !NoHit(ChainBytes(vol.g, vol.disk[..], dir), Unused)
    modifies vol.disk
    ensures vol.Valid() && r == -1 && vol.Table() == old(vol.Table()) && HasClusters(vol.g, vol.disk[..], dir)
    ensures FirstHit(ChainBytes(vol.g, old(vol.disk[..]), dir), Unused, p)
    ensures var b := ChainBytes(vol.g, vol.disk[..], dir);
            HasSlot(b, p) && SlotAt(b, p)[0] == DELETED && Judge(Unused, SlotAt(b, p)) == Take
  {
    hide IsChain, HasClusters, ChainBytes, FirstHit, NoHit, Exists, FreeClusters, Name83, DirMade, TableOf,
         SlotStored, Fresh;
    ghost var g, d := vol.g, vol.disk[..];
    ghost var b := ChainBytes(g, d, dir);
    MarkedKey();
    NeverFound(b, Name83([DELETED]));
    ghost var f;
    r, p, f := Mkdir(vol, [DELETED], dir);
    HitHas(b, Unused, p);
    FreshGet(SlotAt(b, p), Name83([DELETED]), ATTR_DIR);
    MarkedSlot(g, d, vol.disk[..], dir, p, Fresh(SlotAt(b, p), Name83([DELETED]), ATTR_DIR));
  }

  lemma MarkedKey()
    ensures Name83([DELETED])[0] == DELETED
  {
    assert DotAt([DELETED]) == 1;
    assert [DELETED][..1] == [DELETED];
  }

  lemma NeverFound(b: seq<byte>, key: seq<byte>)
    requires |key| == 11 && key[0] == DELETED
    ensures !Exists(b, key)
  {
    forall p: nat | HasSlot(b, p) ensures !FoundAt(b, key, p, SlotAt(b, p)) {
      assert SlotAt(b, p)[0] == SlotName(SlotAt(b, p))[0];
    }
  }

  lemma MarkedSlot(g: Geo, d: Disk, d': Disk, dir: seq<nat>, p: nat, x: Slot)
    requires SlotStored(g, d, d', dir, p, x) && SlotName(x)[0] == DELETED
    ensures TableOf(g, d') == TableOf(g, d) && HasClusters(g, d', dir)
    ensures HasSlot(ChainBytes(g, d', dir), p) && SlotAt(ChainBytes(g, d', dir), p)[0] == DELETED
  {
    hide ChainBytes, HasClusters, TableOf;
    PutSlotGet(ChainBytes(g, d, dir), p, x, p);
    assert x[0] == SlotName(x)[0];
  }
}
