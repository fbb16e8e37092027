/** A few calls one after the other, and what comes of them. */
module FatSessions {
  import opened Widths
  import opened Bytes
  import opened Fat
  import opened FatTable
  import opened FatDriver
  import opened FatNames
  import opened FatSlots
  import opened FatScan
  import opened FatFiles
  import opened FatFree
  import opened FatDirs
  import opened FatMkdir
  import opened FatRmdir
  import opened FatRoundTrips
  import opened FatLayout

  // ---- a file just created ----

  // It is found in the slot it was given.
  lemma NewFileFound(b: seq<byte>, key: seq<byte>, p: nat, x: Slot)
    requires FirstHit(b, Unused, p) && !Exists(b, key)
    requires SlotName(x) == key && Attr(x) == ATTR_FILE && x[0] != 0 && x[0] != DELETED
    ensures FoundAt(PutSlot(b, p, x), key, p, x) && Exists(PutSlot(b, p, x), key)
  {
    var b' := PutSlot(b, p, x);
    PutSlotGet(b, p, x, p);
    forall q: nat | q < p && HasSlot(b, q) ensures Judge(Find(key), SlotAt(b', q)) == Skip {
      PutSlotGet(b, p, x, q);
      InUseNotNamed(b, key, p, q);
    }
    assert FoundAt(b', key, p, SlotAt(b', p));
  }

  // The file has no cluster and no bytes.
  lemma CreatedFile(g: Geo, d: Disk, d': Disk, dir: seq<nat>, key: seq<byte>, p: nat)
    requires DiskOk(g, d) && HasClusters(g, d, dir) && |key| == 11 && key[0] != 0 && key[0] != DELETED
    requires IsChain(TableOf(g, d), dir) && !Exists(ChainBytes(g, d, dir), key)
    requires FirstHit(ChainBytes(g, d, dir), Unused, p)
    requires SlotStored(g, d, d', dir, p, Fresh(SlotAt(ChainBytes(g, d, dir), p), key, ATTR_FILE))
    ensures DiskOk(g, d') && HasClusters(g, d', dir) && IsChain(TableOf(g, d'), dir) && TableOf(g, d') == TableOf(g, d)
    ensures Exists(ChainBytes(g, d', dir), key) && Names(g, d', dir, key, []) && Reads(g, d', dir, key, [])
    ensures FoundAt(ChainBytes(g, d', dir), key, p, Fresh(SlotAt(ChainBytes(g, d, dir), p), key, ATTR_FILE))
  {
    hide ChainBytes, TableOf, Fresh, FirstHit, Exists, HasClusters, IsChain, FileSize, FirstCluster, Touches,
         SameReserved;
    var b, b' := ChainBytes(g, d, dir), ChainBytes(g, d', dir);
    var x := Fresh(SlotAt(b, p), key, ATTR_FILE);
    FreshGet(SlotAt(b, p), key, ATTR_FILE);
    assert x[0] == SlotName(x)[0];
    NewFileFound(b, key, p, x);
    OneFound(b', key, p, x);
  }

  lemma FreshFile(s: Slot, key: seq<byte>)
    requires |key| == 11
    ensures !IsDir(Fresh(s, key, ATTR_FILE))
  {
    FreshGet(s, key, ATTR_FILE);
  }

  // A name that is new and not in use can be created exactly if a slot is unused; the
  // file can be read at once, has no bytes, and is no directory to change into.
  method CreateThenEnter(vol: Volume, name: Name, out: array<byte>, size: nat, ghost dir: seq<nat>)
    returns (made: int, r: int, entered: int)
    requires vol.Valid() && IsChain(vol.Table(), dir) && dir[0] == vol.cwd && HasClusters(vol.g, vol.disk[..], dir)
    requires Name83(name)[0] != DELETED && name != [] && name[0] != 0x2F && size <= out.Length && size < TWO32
    requires !Exists(ChainBytes(vol.g, vol.disk[..], dir), Name83(name))
    modifies vol.disk, vol`cwd, out
    ensures vol.Valid() && vol.cwd == old(vol.cwd) && out[..] == old(out[..])
    ensures made == 0 <==> !NoHit(ChainBytes(vol.g, old(vol.disk[..]), dir), Unused)
    ensures if made == 0 then r == 0 && entered == -5 else made == -4 && r == -1 && entered == -1
  {
    hide IsChain, HasClusters, ChainBytes, FoundAt, Exists, TableOf, Names, Reads, Fresh, SlotStored, FirstHit, NoHit,
         FileSize, FirstCluster, IsDir, Number, Enough;
    ghost var g, d, key := vol.g, vol.disk[..], Name83(name);
    ghost var p;
    made, p := CreateFile(vol, name, dir);
    KeyNotZero(name);
    if made == 0 {
      HitHas(ChainBytes(g, d, dir), Unused, p);
      CreatedFile(g, d, vol.disk[..], dir, key, p);
      FreshFile(SlotAt(ChainBytes(g, d, dir), p), key);
    } else {
      NoReads(g, d, dir, key);
    }
    ChainSearchable(vol.g, vol.disk[..], dir);
    r := ReadFile(vol, name, out, size, dir, []);
    entered := ChangeDir(vol, name, dir);
  }

  lemma NoReads(g: Geo, d: Disk, dir: seq<nat>, key: seq<byte>)
    requires DiskOk(g, d) && HasClusters(g, d, dir) && !Exists(ChainBytes(g, d, dir), key)
    ensures Reads(g, d, dir, key, []) && Names(g, d, dir, key, [])
  {
    hide ChainBytes, TableOf;
    NotFound(ChainBytes(g, d, dir), key);
  }

  // Create, write, read: what was written comes back, exactly if a slot is unused
  // and the bytes fit the free clusters and an int.
  method CreateWriteRead(vol: Volume, name: Name, buffer: seq<byte>, out: array<byte>, size: nat, ghost dir: seq<nat>)
    returns (made: int, w: int, r: int)
    requires vol.Valid() && IsChain(vol.Table(), dir) && dir[0] == vol.cwd && HasClusters(vol.g, vol.disk[..], dir)
    requires Name83(name)[0] != DELETED && !Exists(ChainBytes(vol.g, vol.disk[..], dir), Name83(name))
    requires |buffer| < TWO32 && size <= out.Length && size < TWO32
    modifies vol.disk, out
    ensures made == 0 <==> !NoHit(ChainBytes(vol.g, old(vol.disk[..]), dir), Unused)
    ensures w >= 0 <==> made == 0 && FileFits(vol.g, old(vol.Table()), [], |buffer|) && |buffer| < 0x8000_0000
    ensures w >= 0 ==> w == |buffer| && r == Least(size, |buffer|)
    ensures w >= 0 ==> out[..] == buffer[..Least(size, |buffer|)] + old(out[..])[Least(size, |buffer|)..]
  {
    hide IsChain, HasClusters, ChainBytes, FoundAt, Exists, TableOf, Names, Reads, Fresh, SlotStored, FirstHit, NoHit,
         FileFits;
    ghost var g, d, key := vol.g, vol.disk[..], Name83(name);
    ghost var p;
    made, p := CreateFile(vol, name, dir);
    KeyNotZero(name);
    if made == 0 { CreatedFile(g, d, vol.disk[..], dir, key, p); } else { NoReads(g, d, dir, key); }
    w, r := WriteThenRead(vol, name, buffer, out, size, dir, []);
  }

  // ---- calls that are refused ----

  // Making a directory of a name that is there, and removing, renaming or entering
  // one that is not in use: each its own number, and the volume as it was.
  method Refusals(vol: Volume, name: Name, missing: Name, other: Name, ghost dir: seq<nat>)
    returns (made: int, removed: int, renamed: int, entered: int)
    requires vol.Valid() && IsChain(vol.Table(), dir) && dir[0] == vol.cwd < TWO32
    requires HasClusters(vol.g, vol.disk[..], dir) && missing != [] && missing[0] != 0x2F
    requires Exists(ChainBytes(vol.g, vol.disk[..], dir), Name83(name))
    requires NoHit(ChainBytes(vol.g, vol.disk[..], dir), Named(Name83(missing)))
    modifies vol.disk, vol`cwd
    ensures vol.Valid() && vol.cwd == old(vol.cwd) && vol.disk[..] == old(vol.disk[..])
    ensures made == if FreeClusters(old(vol.Table())) == {} then -4 else -2
    ensures removed == -1 && renamed == -1 && entered == -1
  {
    hide IsChain, HasClusters, ChainBytes, Exists, TableOf, NoHit, FirstHit, FreeClusters, StaysIn, DirRemoved, DirMade,
         FirstCluster, Refusal, RemoveVerdict;
    ghost var b, key := ChainBytes(vol.g, vol.disk[..], dir), Name83(missing);
    ghost var p, f;
    made, p, f := Mkdir(vol, name, dir);
    NoneHit(b, Named(key));
    removed, p := Rmdir(vol, missing, dir);
    renamed, p := Rename(vol, missing, other, dir);
    NotNamedNotFound(b, key);
    entered := ChangeDir(vol, missing, dir);
  }

  lemma NoneHit(b: seq<byte>, t: Test)
    requires NoHit(b, t)
    ensures forall q: nat :: !FirstHit(b, t, q)
  {
  }

  // A name that no slot in use bears is not found.
  lemma NotNamedNotFound(b: seq<byte>, key: seq<byte>)
    requires |key| == 11 && NoHit(b, Named(key))
    ensures !Exists(b, key)
  {
    hide SlotName;
    forall p: nat ensures HasSlot(b, p) ==> Judge(Find(key), SlotAt(b, p)) != Take {
      if HasSlot(b, p) { NamedIs(b, p, key); }
    }
  }

  // ---- a directory that is not empty ----

  // In a new directory slot 2 is the first unused one.
  lemma ThirdSlot(g: Geo, d: Disk, f: nat, parent: nat)
    requires DiskOk(g, d) && IsCluster(g, f) && f < TWO32 && parent < TWO32
    requires ClusterSector(g, f) < |d| && d[ClusterSector(g, f)] == DirSector(f, parent)
    ensures HasClusters(g, d, [f]) && FirstHit(ChainBytes(g, d, [f]), Unused, 2)
    ensures SlotAt(ChainBytes(g, d, [f]), 2) == Zeros(32)
  {
    hide DotSlot, ClusterSector, Name83, ChainBytes;
    NewRow(g, d, f, parent);
    var b := ChainBytes(g, d, [f]);
    RowByte(g, d, f, 64);
    DotSlotGet([DOT], f);
    DotSlotGet([DOT, DOT], parent);
    forall j | 0 <= j < 32 ensures HasSlot(b, 2) && SlotAt(b, 2)[j] == 0 { RowByte(g, d, f, 64 + j); }
    assert SlotAt(b, 2) == Zeros(32);
  }

  // Byte i of the first sector of a chain of one cluster.
  lemma RowByte(g: Geo, d: Disk, f: nat, i: nat)
    requires DiskOk(g, d) && IsCluster(g, f) && i < 512
    ensures HasClusters(g, d, [f]) && ClusterSector(g, f) < |d| && 512 <= |ChainBytes(g, d, [f])|
    ensures ChainBytes(g, d, [f])[i] == d[ClusterSector(g, f)][i]
  {
    hide ChainBytes;
    ClusterInside(g, f);
    ChainByte(g, d, [f], 0, 0, i);
    ChainByte(g, d, [f], 0, 0, 511);
  }

  // With a file in slot 2, ".." is found as before.
  lemma FileInside(g: Geo, d: Disk, d': Disk, f: nat, parent: nat, key: seq<byte>)
    requires DiskOk(g, d) && IsCluster(g, f) && f < TWO32 && parent < TWO32 && |key| == 11
    requires ClusterSector(g, f) < |d| && d[ClusterSector(g, f)] == DirSector(f, parent)
    requires HasClusters(g, d, [f]) && HasSlot(ChainBytes(g, d, [f]), 2)
    requires SlotStored(g, d, d', [f], 2, Fresh(SlotAt(ChainBytes(g, d, [f]), 2), key, ATTR_FILE))
    ensures HasClusters(g, d', [f])
    ensures FoundAt(ChainBytes(g, d', [f]), Name83([DOT, DOT]), 1, DotSlot([DOT, DOT], parent))
  {
    hide ChainBytes, DotSlot, Name83, Fresh, PutSlot, TableOf, Touches, SameReserved, ClusterSector, GeoOk, FoundAt,
         DirSector;
    var b := ChainBytes(g, d, [f]);
    ParentFound(g, d, f, parent);
    FoundBefore(b, ChainBytes(g, d', [f]), Name83([DOT, DOT]), 1, DotSlot([DOT, DOT], parent), 2,
                Fresh(SlotAt(b, 2), key, ATTR_FILE));
  }

  // And of the bytes that fat32_rmdir looks at only the file's name can tell.
  lemma FileTells(g: Geo, d: Disk, d': Disk, f: nat, parent: nat, key: seq<byte>, j: nat)
    requires DiskOk(g, d) && IsCluster(g, f) && f < TWO32 && parent < TWO32 && |key| == 11 && 2 <= j < 16
    requires ClusterSector(g, f) < |d| && d[ClusterSector(g, f)] == DirSector(f, parent)
    requires HasClusters(g, d, [f]) && HasSlot(ChainBytes(g, d, [f]), 2)
    requires SlotStored(g, d, d', [f], 2, Fresh(SlotAt(ChainBytes(g, d, [f]), 2), key, ATTR_FILE))
    ensures ClusterSector(g, f) < |d'|
    ensures d'[ClusterSector(g, f)][32 * j] == if j == 2 then key[0] else 0
  {
    hide ChainBytes, Fresh, PutSlot, TableOf, Touches, SameReserved, ClusterSector, GeoOk, DirSector, HasClusters,
         Number;
    var b, b' := ChainBytes(g, d, [f]), ChainBytes(g, d', [f]);
    var x := Fresh(SlotAt(b, 2), key, ATTR_FILE);
    FreshBytes(SlotAt(b, 2), key, ATTR_FILE);
    RowByte(g, d, f, 32 * j);
    RowByte(g, d', f, 32 * j);
    PutSlotGet(b, 2, x, j);
    DirSectorBytes(f, parent);
    assert SlotAt(b', j)[0] == b'[32 * j] && SlotAt(b, j)[0] == b[32 * j];
  }

  // A slot stored behind the one that is found.
  lemma FoundBefore(b: seq<byte>, b': seq<byte>, key: seq<byte>, p: nat, slot: Slot, q: nat, x: Slot)
    requires FoundAt(b, key, p, slot) && HasSlot(b, q) && p < q && b' == PutSlot(b, q, x)
    ensures FoundAt(b', key, p, slot)
  {
    hide PutSlot;
    forall j: nat | j <= p ensures HasSlot(b', j) && SlotAt(b', j) == SlotAt(b, j) { PutSlotGet(b, q, x, j); }
  }

  // mkdir, cd into it, create a file, cd "..", rmdir: the directory stays, and all of
  // the disk, exactly if the file's name does not begin with the deleted mark.
  method RemoveFull(vol: Volume, name: Name, inner: Name, ghost dir: seq<nat>)
    returns (made: int, created: int, left: int, removed: int)
    requires vol.Valid() && IsChain(vol.Table(), dir) && dir[0] == vol.cwd < TWO32
    requires HasClusters(vol.g, vol.disk[..], dir)
    requires Name83(name)[0] != DELETED && name != [] && name[0] != 0x2F
    modifies vol.disk, vol`cwd
    ensures vol.Valid() && vol.cwd == old(vol.cwd)
    ensures made == 0 <==> CanMake(ChainBytes(vol.g, old(vol.disk[..]), dir), old(vol.Table()), Name83(name))
    ensures made == 0 ==> created == 0 && left == 0 && removed == if Name83(inner)[0] == 0xE5 then 0 else -6
  {
    hide IsChain, HasClusters, ChainBytes, TableOf, HasSlot, Judge, NoHit, FirstHit, DirMade, Exists,
         FreeClusters, RemoveVerdict, FirstCluster, Name83, FoundAt, DotSlot, DirSector, IsDir, Fresh, SlotStored,
         Refusal, StaysIn, DirRemoved;
    ghost var g, d, key, home := vol.g, vol.disk[..], Name83(name), vol.cwd;
    ghost var p, f, q;
    made, p, f := Mkdir(vol, name, dir);
    created, left, removed := 0, 0, 0;
    if made == 0 {
      ghost var d1 := vol.disk[..];
      KeyNotZero(name);
      ReadyToRemove(g, d, d1, dir, key, p, f, home);
      var entered := ChangeDir(vol, name, dir);
      NewChainThere(g, d, d1, dir, key, p, f, home);
      ThirdSlot(g, d1, f, home);
      HitNotNone(ChainBytes(g, d1, [f]), Unused, 2);
      OneHitOnly(ChainBytes(g, d1, [f]), Unused, 2);
      created, q := CreateFile(vol, inner, [f]);
      ghost var d2 := vol.disk[..];
      KeyNotZero(inner);
      FileInside(g, d1, d2, f, home, Name83(inner));
      forall j | 2 <= j < 16
        ensures ClusterSector(g, f) < |d2| && d2[ClusterSector(g, f)][32 * j] == if j == 2 then Name83(inner)[0] else 0
      {
        FileTells(g, d1, d2, f, home, Name83(inner), j);
      }
      DirEntryGet(SlotAt(ChainBytes(g, d, dir), p), key, f);
      DotSlotGet([DOT, DOT], home);
      DirAttr(DotSlot([DOT, DOT], home));
      HeadNotZero(TableOf(g, d), dir);
      Unmoved(g, d, d1, d2, dir, key, p, f, home, Name83(inner));
      left := ChangeDir(vol, [DOT, DOT], [f]);
      OneHitOnly(ChainBytes(g, d2, dir), Named(key), p);
      HitNotNone(ChainBytes(g, d2, dir), Named(key), p);
      removed, q := Rmdir(vol, name, dir);
      Refused(g, d2, ChainBytes(g, d2, dir), p, DirEntry(SlotAt(ChainBytes(g, d, dir), p), key, f), f, removed,
              Name83(inner));
    }
  }

  // What is done inside the new directory does not reach the one it is in.
  lemma Unmoved(g: Geo, d: Disk, d1: Disk, d2: Disk, dir: seq<nat>, key: seq<byte>, p: nat, f: nat, parent: nat,
                inner: seq<byte>)
    requires DirMade(g, d, d1, dir, key, p, f, parent) && IsChain(TableOf(g, d), dir) && |inner| == 11
    requires !Exists(ChainBytes(g, d, dir), key) && key[0] != 0 && key[0] != DELETED
    requires HasClusters(g, d1, [f]) && HasSlot(ChainBytes(g, d1, [f]), 2)
    requires SlotStored(g, d1, d2, [f], 2, Fresh(SlotAt(ChainBytes(g, d1, [f]), 2), inner, ATTR_FILE))
    ensures IsChain(TableOf(g, d2), dir) && HasClusters(g, d2, dir) && IsChain(TableOf(g, d2), [f])
    ensures Inside(TableOf(g, d2), f) && StaysIn(TableOf(g, d2), f)
    ensures FirstHit(ChainBytes(g, d2, dir), Named(key), p) && HasSlot(ChainBytes(g, d, dir), p)
    ensures HasSlot(ChainBytes(g, d2, dir), p)
    ensures SlotAt(ChainBytes(g, d2, dir), p) == DirEntry(SlotAt(ChainBytes(g, d, dir), p), key, f)
    ensures FirstCluster(SlotAt(ChainBytes(g, d2, dir), p)) == f
  {
    hide ChainBytes, TableOf, Fresh, DirEntry, DirSector, Exists, Judge, FirstCluster, IsDir, StaysIn, RemoveVerdict,
         SameReserved;
    ReadyToRemove(g, d, d1, dir, key, p, f, parent);
    NewChain(TableOf(g, d), TableOf(g, d1), f, dir);
    FoundSlot(ChainBytes(g, d1, dir), key, p, DirEntry(SlotAt(ChainBytes(g, d, dir), p), key, f));
    SlotKeeps(g, d1, d2, [f], 2, Fresh(SlotAt(ChainBytes(g, d1, [f]), 2), inner, ATTR_FILE), dir);
  }

  lemma Refused(g: Geo, d: Disk, b: seq<byte>, p: nat, x: Slot, f: nat, r: int, inner: seq<byte>)
    requires DiskOk(g, d) && IsCluster(g, f) && ClusterSector(g, f) < |d| && HasSlot(b, p) && SlotAt(b, p) == x
    requires Attr(x) == ATTR_DIR && FirstCluster(x) == f && Refusal(g, d, b, p, r) && |inner| == 11 && inner[0] != 0
    requires forall j | 2 <= j < 16 :: d[ClusterSector(g, f)][32 * j] == if j == 2 then inner[0] else 0
    ensures r == if inner[0] == 0xE5 then 0 else -6
  {
    hide FirstCluster, GeoOk, ClusterCount;
    SlotFields(x);
    assert b[32 * p + 11] == x[11] && b[32 * p + 20] == x[20] && b[32 * p + 21] == x[21];
    assert b[32 * p + 26] == x[26] && b[32 * p + 27] == x[27];
    var sector, two := g.firstData + (f - 2) * g.perCluster, 2;
    var first := d[sector];
    assert sector == ClusterSector(g, f);
    assert first[32 * two] == inner[0];
  }
}
