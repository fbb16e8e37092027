/** What directory operations undo, and what they leave alone. */
module FatRoundTrips {
  import opened Widths
  import opened Bytes
  import opened Fat
  import opened FatTable
  import opened FatDriver
  import opened FatNames
  import opened FatSlots
  import opened FatScan
  import opened FatFiles
  import opened FatFree
  import opened FatDirs
  import opened FatMkdir
  import opened FatRmdir

  // ---- other chains ----

  // Making a directory leaves every other chain and its contents.
  lemma MkdirKeeps(g: Geo, d: Disk, d': Disk, dir: seq<nat>, key: seq<byte>, p: nat, f: nat, parent: nat, o: seq<nat>)
    requires DirMade(g, d, d', dir, key, p, f, parent) && IsChain(TableOf(g, d), o) && Disjoint(o, dir)
    ensures Kept(g, d, d', o) && f !in o
  {
    hide ClusterBytes, ClusterSector, ChainBytes, DirSector, DirEntry;
    NewChain(TableOf(g, d), TableOf(g, d'), f, o);
    OtherEntries(TableOf(g, d), TableOf(g, d'), f, o);
    forall x | x in o ensures x !in dir + [f] { assert x !in dir && x !in [f]; }
    TouchKeeps(g, d, d', dir + [f], o);
  }

  lemma OtherEntries(t: Table, t': Table, f: nat, o: seq<nat>)
    requires IsFree(t, f) && t' == t[f := EOC] && IsChain(t, o) && Disjoint(o, [f])
    ensures IsChain(t', o)
  {
    forall i | 0 <= i < |o| ensures o[i] != f { assert o[i] in o && f in [f]; }
  }

  // Removing one leaves every chain that its clusters do not lead to.
  lemma RmdirKeeps(g: Geo, d: Disk, d': Disk, dir: seq<nat>, key: seq<byte>, p: nat, o: seq<nat>)
    requires DirRemoved(g, d, d', dir, key, p) && IsChain(TableOf(g, d), o) && Disjoint(o, dir)
    requires forall x | x in o :: !Reaches(TableOf(g, d), FirstCluster(SlotAt(ChainBytes(g, d, dir), p)), x)
    ensures Kept(g, d, d', o)
  {
    hide ClusterBytes, ClusterSector, ChainBytes, FirstCluster, Reaches;
    var t, t' := TableOf(g, d), TableOf(g, d');
    forall i | 0 <= i < |o| ensures t'[o[i]] == t[o[i]] { assert o[i] in o; }
    TouchKeeps(g, d, d', dir, o);
  }

  // ---- mkdir, then rmdir ----

  // The new cluster leads nowhere else, so freeing it undoes its allocation.
  lemma FreeNew(t: Table, t': Table, t2: Table, f: nat)
    requires IsFree(t, f) && t' == t[f := EOC] && FreedFrom(t', t2, f)
    ensures t2 == t
  {
    assert IsChain(t', [f]);
    forall e: nat | e < |t| ensures t2[e] == t[e] {
      ChainReaches(t', [f], e);
    }
  }

  lemma NewLooksEmpty(self: nat, parent: nat)
    requires self < TWO32 && parent < TWO32
    ensures LooksEmpty(DirSector(self, parent))
  {
  }

  lemma NewStaysIn(t: Table, t': Table, f: nat)
    requires LeastFree(t, f) && t' == t[f := EOC]
    ensures Inside(t', f) && StaysIn(t', f)
  {
    assert IsChain(t', [f]);
    ChainStaysIn(t', [f]);
  }

  // What fat32_rmdir finds after fat32_mkdir.
  lemma ReadyToRemove(g: Geo, d: Disk, d': Disk, dir: seq<nat>, key: seq<byte>, p: nat, f: nat, parent: nat)
    requires DirMade(g, d, d', dir, key, p, f, parent) && IsChain(TableOf(g, d), dir)
    requires !Exists(ChainBytes(g, d, dir), key) && key[0] != 0 && key[0] != DELETED
    ensures IsChain(TableOf(g, d'), dir) && HasClusters(g, d', dir)
    ensures Inside(TableOf(g, d'), f) && StaysIn(TableOf(g, d'), f)
    ensures HasSlot(ChainBytes(g, d, dir), p)
    ensures FirstHit(ChainBytes(g, d', dir), Named(key), p)
    ensures var x := DirEntry(SlotAt(ChainBytes(g, d, dir), p), key, f);
            && FoundAt(ChainBytes(g, d', dir), key, p, x) && IsDir(x) && FirstCluster(x) == f
            && RemoveVerdict(g, d', x) == 0
  {
    hide ClusterBytes, ClusterSector, ChainBytes, DirSector, DirEntry, Judge, Touches, SameReserved, LooksEmpty, IsDir,
         FirstCluster, StaysIn;
    var b := ChainBytes(g, d, dir);
    var x := DirEntry(SlotAt(b, p), key, f);
    DirEntryGet(SlotAt(b, p), key, f);
    NewEntryHits(b, key, p, x);
    NewChain(TableOf(g, d), TableOf(g, d'), f, dir);
    OtherEntries(TableOf(g, d), TableOf(g, d'), f, dir);
    NewStaysIn(TableOf(g, d), TableOf(g, d'), f);
    NewLooksEmpty(f, parent);
  }

  // A cluster is free, the name is new and there is a slot for it.
  ghost predicate CanMake(b: seq<byte>, t: Table, key: seq<byte>) {
    FreeClusters(t) != {} && !Exists(b, key) && !NoHit(b, Unused)
  }

  // Making a directory under a new name and removing it restores every table
  // entry, and the parent but for one unused slot, which is marked deleted.
  method MkdirThenRmdir(vol: Volume, name: Name, ghost dir: seq<nat>) returns (made: int, removed: int, ghost p: nat)
    requires vol.Valid() && IsChain(vol.Table(), dir) && dir[0] == vol.cwd < TWO32
    requires HasClusters(vol.g, vol.disk[..], dir)
    requires Name83(name)[0] != DELETED
    modifies vol.disk
    ensures vol.Valid()
    ensures made == 0 <==> CanMake(ChainBytes(vol.g, old(vol.disk[..]), dir), old(vol.Table()), Name83(name))
    ensures made == 0 ==> removed == 0
    ensures vol.Table() == old(vol.Table()) && SameReserved(vol.g, old(vol.disk[..]), vol.disk[..])
    ensures made == 0 ==> HasClusters(vol.g, vol.disk[..], dir)
    ensures made == 0 ==> RowAfter(ChainBytes(vol.g, old(vol.disk[..]), dir), ChainBytes(vol.g, vol.disk[..], dir), p)
    ensures made != 0 ==> vol.disk[..] == old(vol.disk[..])
  {
    hide IsChain, HasClusters, ChainBytes, TableOf, HasSlot, Judge, NoHit, FirstHit, SameReserved, DirMade,
         DirRemoved, RowAfter, Exists, FreeClusters, RemoveVerdict, FirstCluster, Name83, FoundAt;
    ghost var g, d, key := vol.g, vol.disk[..], Name83(name);
    ghost var f;
    SameSelf(g, d);
    made, p, f := Mkdir(vol, name, dir);
    removed := 0;
    if made == 0 {
      ghost var d1 := vol.disk[..];
      KeyNotZero(name);
      ReadyToRemove(g, d, d1, dir, key, p, f, vol.cwd);
      OneHitOnly(ChainBytes(g, d1, dir), Named(key), p);
      HitNotNone(ChainBytes(g, d1, dir), Named(key), p);
      ghost var q;
      FoundSlot(ChainBytes(g, d1, dir), key, p, DirEntry(SlotAt(ChainBytes(g, d, dir), p), key, f));
      removed, q := Rmdir(vol, name, dir);
      Undone(g, d, d1, vol.disk[..], dir, key, p, q, f, vol.cwd);
    }
  }

  lemma OneHitOnly(b: seq<byte>, t: Test, p: nat)
    requires FirstHit(b, t, p)
    ensures HasSlot(b, p) && forall q: nat :: FirstHit(b, t, q) ==> q == p
  {
    forall q: nat | FirstHit(b, t, q) ensures q == p { FirstHitUnique(b, t, p, q); }
  }

  lemma HitNotNone(b: seq<byte>, t: Test, p: nat)
    requires FirstHit(b, t, p)
    ensures !NoHit(b, t)
  {
  }

  lemma FoundSlot(b: seq<byte>, key: seq<byte>, p: nat, slot: Slot)
    requires FoundAt(b, key, p, slot)
    ensures HasSlot(b, p) && SlotAt(b, p) == slot
  {
  }

  // The parent's row afterwards: slot p, unused before, is now marked deleted.
  ghost predicate RowAfter(b: seq<byte>, b': seq<byte>, p: nat) {
    && FirstHit(b, Unused, p)
    && exists x: Slot :: x[0] == DELETED && b' == PutSlot(b, p, x)
  }

  lemma Undone(g: Geo, d: Disk, d1: Disk, d2: Disk, dir: seq<nat>, key: seq<byte>, p: nat, q: nat, f: nat, parent: nat)
    requires DirMade(g, d, d1, dir, key, p, f, parent) && DirRemoved(g, d1, d2, dir, key, q)
    requires FirstHit(ChainBytes(g, d1, dir), Named(key), p)
    requires FirstCluster(SlotAt(ChainBytes(g, d1, dir), p)) == f
    ensures TableOf(g, d2) == TableOf(g, d) && SameReserved(g, d, d2) && HasClusters(g, d2, dir)
    ensures RowAfter(ChainBytes(g, d, dir), ChainBytes(g, d2, dir), p)
  {
    hide ClusterBytes, ClusterSector, ChainBytes, DirSector, DirEntry, Judge, Touches, SameReserved, FirstCluster,
         TableOf, FreedFrom;
    FirstHitUnique(ChainBytes(g, d1, dir), Named(key), p, q);
    FreeNew(TableOf(g, d), TableOf(g, d1), TableOf(g, d2), f);
    SameReservedTrans(g, d, d1, d2);
    var b := ChainBytes(g, d, dir);
    var x := SlotAt(ChainBytes(g, d1, dir), p);
    var y: Slot := x[0 := DELETED];
    PutSlotTwice(b, p, DirEntry(SlotAt(b, p), key, f), y);
  }

  // ---- which names can be seen ----

  predicate InUse(s: Slot) { s[0] != 0 && s[0] != DELETED && Attr(s) != ATTR_LFN }

  // No slot before q ends the directory.
  ghost predicate Open(b: seq<byte>, q: nat) {
    forall j: nat | j < q && HasSlot(b, j) :: SlotAt(b, j)[0] != 0
  }

  // Slot q is in use and find_entry can get to it.
  ghost predicate Visible(b: seq<byte>, q: nat) {
    HasSlot(b, q) && InUse(SlotAt(b, q)) && Open(b, q)
  }

  // A slot in use behind slot p that only slot p keeps out of sight.
  ghost predicate StaleBehind(b: seq<byte>, p: nat, q: nat)
    requires HasSlot(b, p)
  {
    && p < q && HasSlot(b, q) && SlotAt(b, p)[0] == 0 && InUse(SlotAt(b, q))
    && forall j: nat | j < q && j != p && HasSlot(b, j) :: SlotAt(b, j)[0] != 0
  }

  // Marking an unused slot deleted changes nothing that can be seen, unless it
  // was the end mark with stale entries behind it.
  lemma SameView(b: seq<byte>, b': seq<byte>, p: nat, q: nat)
    requires RowAfter(b, b', p) && HasSlot(b, p)
    ensures Visible(b', q) <==> Visible(b, q) || StaleBehind(b, p, q)
    ensures Visible(b', q) ==> SlotAt(b', q) == SlotAt(b, q)
  {
    var x: Slot :| x[0] == DELETED && b' == PutSlot(b, p, x);
    forall j: nat | HasSlot(b, j)
      ensures SlotAt(b', j) == if j == p then x else SlotAt(b, j)
    {
      PutSlotGet(b, p, x, j);
    }
    if Open(b', q) && !Open(b, q) && HasSlot(b, q) {
      var j: nat :| j < q && HasSlot(b, j) && SlotAt(b, j)[0] == 0;
      assert j == p;
    }
  }

  // The view is the same exactly when no stale entry comes to light.
  lemma ViewRestoredIff(b: seq<byte>, b': seq<byte>, p: nat)
    requires RowAfter(b, b', p) && HasSlot(b, p)
    ensures (forall q: nat :: Visible(b', q) <==> Visible(b, q)) <==> (forall q: nat :: !StaleBehind(b, p, q))
  {
    forall q: nat ensures Visible(b', q) <==> Visible(b, q) || StaleBehind(b, p, q) { SameView(b, b', p, q); }
    forall q: nat ensures StaleBehind(b, p, q) ==> !Visible(b, q) { }
  }

  // A volume of two clusters of two sectors. The first holds a directory whose
  // first sector was cleared when it was made and has filled up but for its last
  // slot; the second sector still begins with an entry y of an earlier life.
  const SMALL := Geo(1, 2, 2, 6, 2)

  function StaleDisk(front: seq<byte>, y: Slot): Disk
    requires |front| == 480
  {
    [Zeros(512), Splice(Zeros(512), 8, Put32(EOC)), front + Zeros(32), y + Zeros(480), Zeros(512), Zeros(512)]
  }

  lemma StaleVolume(front: seq<byte>, y: Slot)
    requires |front| == 480
    ensures var d := StaleDisk(front, y);
            && DiskOk(SMALL, d) && HasClusters(SMALL, d, [2])
            && ChainBytes(SMALL, d, [2]) == (front + Zeros(32)) + (y + Zeros(480))
    ensures var t := TableOf(SMALL, StaleDisk(front, y));
            |t| == 4 && t[2] == EOC && t[3] == 0 && IsChain(t, [2]) && FreeClusters(t) == {3}
  {
    hide Put32, ChainBytes, Field32, StaleDisk, Entry;
    StaleTable(front, y);
    StaleRow(front, y);
    SmallTable(TableOf(SMALL, StaleDisk(front, y)));
  }

  lemma SmallTable(t: Table)
    requires |t| == 4 && t[2] == EOC && t[3] == 0
    ensures IsChain(t, [2]) && FreeClusters(t) == {3}
  {
  }

  lemma StaleTable(front: seq<byte>, y: Slot)
    requires |front| == 480
    ensures DiskOk(SMALL, StaleDisk(front, y))
    ensures Entry(SMALL, StaleDisk(front, y), 2) == EOC && Entry(SMALL, StaleDisk(front, y), 3) == 0
  {
    hide Put32;
    var f := Splice(Zeros(512), 8, Put32(EOC));
    assert StaleDisk(front, y)[1] == f;
    SpliceInside(Zeros(512), 8, Put32(EOC));
    assert f[12..16] == [0, 0, 0, 0];
  }

  lemma StaleRow(front: seq<byte>, y: Slot)
    requires |front| == 480
    ensures DiskOk(SMALL, StaleDisk(front, y)) && HasClusters(SMALL, StaleDisk(front, y), [2])
    ensures ChainBytes(SMALL, StaleDisk(front, y), [2]) == (front + Zeros(32)) + (y + Zeros(480))
  {
    hide StaleDisk, ChainBytes;
    StaleSectors(front, y);
    SmallRow(StaleDisk(front, y), front + Zeros(32), y + Zeros(480));
  }

  lemma SmallRow(d: Disk, x: seq<byte>, y: seq<byte>)
    requires DiskOk(SMALL, d) && |d| == 6 && d[2] == x && d[3] == y
    ensures HasClusters(SMALL, d, [2]) && ChainBytes(SMALL, d, [2]) == x + y
  {
    TwoSectors(SMALL, d, 2);
    TwoFlat(d[2], d[3]);
  }

  lemma StaleSectors(front: seq<byte>, y: Slot)
    requires |front| == 480
    ensures var d := StaleDisk(front, y);
            DiskOk(SMALL, d) && |d| == 6 && d[2] == front + Zeros(32) && d[3] == y + Zeros(480)
  {
  }

  lemma TwoSectors(g: Geo, d: Disk, c: nat)
    requires DiskOk(g, d) && IsCluster(g, c) && g.perCluster == 2
    ensures var s := ClusterSector(g, c);
            s + 2 <= |d| && HasClusters(g, d, [c]) && ChainBytes(g, d, [c]) == Flatten([d[s], d[s + 1]])
  {
    ClusterInside(g, c);
    var s := ClusterSector(g, c);
    hide ClusterSector;
    assert [c][..0] == [];
    assert d[s..s + 2] == [d[s], d[s + 1]];
  }

  lemma TwoFlat(x: Sector, y: Sector)
    ensures var u: seq<byte> := x; Flatten([x, y]) == u + y
  {
  }

  // On it a directory of any new name can be made, and removing it brings the
  // entry y back to light.
  lemma StaleEntryReturns(front: seq<byte>, y: Slot, z: Slot, key: seq<byte>)
    requires |front| == 480 && (forall j: nat | j < 15 :: front[32 * j] != 0 && front[32 * j] != DELETED)
    requires InUse(y) && z[0] == DELETED
    ensures var d := StaleDisk(front, y); var t := TableOf(SMALL, d);
            DiskOk(SMALL, d) && HasClusters(SMALL, d, [2]) && IsChain(t, [2])
    ensures var d := StaleDisk(front, y); var b := ChainBytes(SMALL, d, [2]);
            && (!Exists(b, key) ==> CanMake(b, TableOf(SMALL, d), key))
            && HasSlot(b, 15) && RowAfter(b, PutSlot(b, 15, z), 15) && !Visible(b, 16) && Visible(PutSlot(b, 15, z), 16)
  {
    hide Zeros, ChainBytes, TableOf, StaleDisk, Exists, RowAfter, Visible, NoHit, SlotAt, PutSlot, DiskOk, HasClusters,
         IsChain, FreeClusters, InUse;
    StaleVolume(front, y);
    var b := (front + Zeros(32)) + (y + Zeros(480));
    StaleSlots(b, front, y);
    EndMarkUsed(b, 15, z);
  }

  // Slot p is the first unused one and the end mark, and the next one is in use.
  lemma EndMarkUsed(b: seq<byte>, p: nat, z: Slot)
    requires HasSlot(b, p + 1) && SlotAt(b, p)[0] == 0 && InUse(SlotAt(b, p + 1)) && z[0] == DELETED
    requires forall j: nat | j < p :: SlotAt(b, j)[0] != 0 && SlotAt(b, j)[0] != DELETED
    ensures HasSlot(b, p) && !NoHit(b, Unused) && RowAfter(b, PutSlot(b, p, z), p)
    ensures !Visible(b, p + 1) && Visible(PutSlot(b, p, z), p + 1)
  {
    hide SlotAt, PutSlot;
    assert FirstHit(b, Unused, p);
    PutSlotGet(b, p, z, p);
    PutSlotGet(b, p, z, p + 1);
    forall j: nat | j < p + 1 ensures SlotAt(PutSlot(b, p, z), j)[0] != 0 { PutSlotGet(b, p, z, j); }
  }

  lemma StaleSlots(b: seq<byte>, front: seq<byte>, y: Slot)
    requires |front| == 480 && b == (front + Zeros(32)) + (y + Zeros(480))
    ensures |b| == 1024 && SlotAt(b, 15)[0] == 0 && SlotAt(b, 16) == y
    ensures forall j: nat | j < 15 :: SlotAt(b, j)[0] == front[32 * j]
  {
  }

  // ---- mkdir, then cd in and out ----

  // The two slots of a new directory.
  lemma NewRow(g: Geo, d: Disk, f: nat, parent: nat)
    requires DiskOk(g, d) && IsCluster(g, f) && f < TWO32 && parent < TWO32
    requires ClusterSector(g, f) < |d| && d[ClusterSector(g, f)] == DirSector(f, parent)
    ensures HasClusters(g, d, [f])
    ensures var b := ChainBytes(g, d, [f]);
            && HasSlot(b, 0) && SlotAt(b, 0) == DotSlot([DOT], f)
            && HasSlot(b, 1) && SlotAt(b, 1) == DotSlot([DOT, DOT], parent)
  {
    hide DotSlot, ClusterSector, Name83;
    ClusterInside(g, f);
    var b := ChainBytes(g, d, [f]);
    assert [f][..0] == [];
    assert ChainBytes(g, d, [f][..0]) == [];
    assert b == [] + ClusterBytes(g, d, f);
    SectorOfCluster(g, d, f, 0);
    DirSlots(f, parent);
    assert b[0..512] == DirSector(f, parent);
    SliceOfSlice(b, 0, 512, 0, 32);
    SliceOfSlice(b, 0, 512, 32, 64);
  }

  // In a new directory, ".." is found in slot 1.
  lemma ParentFound(g: Geo, d: Disk, f: nat, parent: nat)
    requires DiskOk(g, d) && IsCluster(g, f) && f < TWO32 && parent < TWO32
    requires ClusterSector(g, f) < |d| && d[ClusterSector(g, f)] == DirSector(f, parent)
    ensures HasClusters(g, d, [f])
    ensures FoundAt(ChainBytes(g, d, [f]), Name83([DOT, DOT]), 1, DotSlot([DOT, DOT], parent))
  {
    hide DotSlot, ClusterSector, Name83, ChainBytes;
    NewRow(g, d, f, parent);
    DotSlotGet([DOT], f);
    DotSlotGet([DOT, DOT], parent);
    SameName([DOT], [DOT, DOT]);
  }

  // And "." in slot 0, which leads to the directory itself.
  lemma SelfFound(g: Geo, d: Disk, f: nat, parent: nat)
    requires DiskOk(g, d) && IsCluster(g, f) && f < TWO32 && parent < TWO32
    requires ClusterSector(g, f) < |d| && d[ClusterSector(g, f)] == DirSector(f, parent)
    ensures HasClusters(g, d, [f])
    ensures var b := ChainBytes(g, d, [f]);
            && HasSlot(b, 0) && SlotAt(b, 0) == DotSlot([DOT], f) && FirstHit(b, Named(Name83([DOT])), 0)
    ensures FirstCluster(DotSlot([DOT], f)) == f && RemoveVerdict(g, d, DotSlot([DOT], f)) == 0
  {
    hide DotSlot, ClusterSector, Name83, ChainBytes;
    NewRow(g, d, f, parent);
    DotSlotGet([DOT], f);
    DirAttr(DotSlot([DOT], f));
    NewLooksEmpty(f, parent);
  }

  lemma DirSlots(f: nat, parent: nat)
    requires f < TWO32 && parent < TWO32
    ensures DirSector(f, parent)[0..32] == DotSlot([DOT], f)
    ensures DirSector(f, parent)[32..64] == DotSlot([DOT, DOT], parent)
  {
    hide DotSlot;
  }

  // A directory just made can be entered, and ".." leads back.
  method EnterAndLeave(vol: Volume, name: Name, ghost dir: seq<nat>) returns (made: int, entered: int, left: int)
    requires vol.Valid() && IsChain(vol.Table(), dir) && dir[0] == vol.cwd < TWO32
    requires HasClusters(vol.g, vol.disk[..], dir)
    requires Name83(name)[0] != DELETED && name != [] && name[0] != 0x2F
    modifies vol.disk, vol`cwd
    ensures vol.Valid()
    ensures made == 0 <==> CanMake(ChainBytes(vol.g, old(vol.disk[..]), dir), old(vol.Table()), Name83(name))
    ensures made == 0 ==> entered == 0 && left == 0
    ensures vol.cwd == old(vol.cwd)
  {
    hide IsChain, HasClusters, ChainBytes, TableOf, HasSlot, Judge, NoHit, FirstHit, DirMade, Exists,
         FreeClusters, RemoveVerdict, FirstCluster, Name83, FoundAt, DotSlot, DirSector, IsDir;
    ghost var g, d, key, home := vol.g, vol.disk[..], Name83(name), vol.cwd;
    ghost var p, f;
    made, p, f := Mkdir(vol, name, dir);
    entered, left := 0, 0;
    if made == 0 {
      ghost var d1 := vol.disk[..];
      KeyNotZero(name);
      ReadyToRemove(g, d, d1, dir, key, p, f, home);
      entered := ChangeDir(vol, name, dir);
      NewChainThere(g, d, d1, dir, key, p, f, home);
      ParentFound(g, d1, f, home);
      DotSlotGet([DOT, DOT], home);
      DirAttr(DotSlot([DOT, DOT], home));
      HeadNotZero(TableOf(g, d), dir);
      left := ChangeDir(vol, [DOT, DOT], [f]);
    }
  }

  lemma HeadNotZero(t: Table, ch: seq<nat>)
    requires IsChain(t, ch)
    ensures ch[0] != 0
  {
    assert Inside(t, ch[0]);
  }

  lemma DirAttr(s: Slot)
    requires Attr(s) == ATTR_DIR
    ensures IsDir(s)
  {
  }

  lemma NewChainThere(g: Geo, d: Disk, d': Disk, dir: seq<nat>, key: seq<byte>, p: nat, f: nat, parent: nat)
    requires DirMade(g, d, d', dir, key, p, f, parent)
    ensures IsChain(TableOf(g, d'), [f]) && IsCluster(g, f) && f < TWO32 && parent < TWO32 && f != 0
    ensures ClusterSector(g, f) < |d'| && d'[ClusterSector(g, f)] == DirSector(f, parent)
  {
    hide ClusterBytes, ChainBytes, DirSector, DirEntry, Touches, SameReserved;
  }

  // ---- removing the current directory ----

  // mkdir, cd into it, rmdir ".": all succeed, and the current directory is a free
  // cluster that belongs to no chain.
  method RemoveSelf(vol: Volume, name: Name, ghost dir: seq<nat>) returns (made: int, entered: int, removed: int)
    requires vol.Valid() && IsChain(vol.Table(), dir) && dir[0] == vol.cwd < TWO32
    requires HasClusters(vol.g, vol.disk[..], dir)
    requires Name83(name)[0] != DELETED && name != [] && name[0] != 0x2F
    modifies vol.disk, vol`cwd
    ensures vol.Valid()
    ensures made == 0 <==> CanMake(ChainBytes(vol.g, old(vol.disk[..]), dir), old(vol.Table()), Name83(name))
    ensures made == 0 ==> entered == 0 && removed == 0 && vol.cwd in FreeClusters(vol.Table())
    ensures made == 0 ==> forall ch: seq<nat> :: IsChain(vol.Table(), ch) ==> vol.cwd !in ch
  {
    hide IsChain, HasClusters, ChainBytes, TableOf, HasSlot, Judge, NoHit, FirstHit, DirMade, Exists,
         FreeClusters, RemoveVerdict, FirstCluster, Name83, FoundAt, DotSlot, DirSector, IsDir, DirRemoved;
    ghost var g, d, key, home := vol.g, vol.disk[..], Name83(name), vol.cwd;
    ghost var p, f, q;
    made, p, f := Mkdir(vol, name, dir);
    entered, removed := 0, 0;
    if made == 0 {
      ghost var d1 := vol.disk[..];
      KeyNotZero(name);
      ReadyToRemove(g, d, d1, dir, key, p, f, home);
      entered := ChangeDir(vol, name, dir);
      NewChainThere(g, d, d1, dir, key, p, f, home);
      SelfFound(g, d1, f, home);
      OneHitOnly(ChainBytes(g, d1, [f]), Named(Name83([DOT])), 0);
      HitNotNone(ChainBytes(g, d1, [f]), Named(Name83([DOT])), 0);
      removed, q := Rmdir(vol, [DOT], [f]);
      OwnGone(g, d1, vol.disk[..], f, Name83([DOT]), q);
    }
  }

  lemma OwnGone(g: Geo, d: Disk, d': Disk, f: nat, key: seq<byte>, q: nat)
    requires DirRemoved(g, d, d', [f], key, q) && IsChain(TableOf(g, d), [f])
    requires FirstCluster(SlotAt(ChainBytes(g, d, [f]), q)) == f
    ensures f in FreeClusters(TableOf(g, d'))
    ensures forall ch: seq<nat> :: IsChain(TableOf(g, d'), ch) ==> f !in ch
  {
    hide ChainBytes, TableOf, FirstCluster, Touches, SameReserved;
    assert Inside(TableOf(g, d), [f][0]);
    ReachesSelf(TableOf(g, d), f);
    forall ch: seq<nat> | IsChain(TableOf(g, d'), ch) ensures f !in ch {
      if f in ch { ChainNotFree(TableOf(g, d'), ch, f); }
    }
  }
}
