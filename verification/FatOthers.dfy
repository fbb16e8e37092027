/** A file keeps its name and contents in a call under another name or in another directory. */
module FatOthers {
  import opened Widths
  import opened Bytes
  import opened Fat
  import opened FatTable
  import opened FatDriver
  import opened FatNames
  import opened FatSlots
  import opened FatScan
  import opened FatFiles
  import opened FatFree
  import opened FatDirs
  import opened FatMkdir
  import opened FatRmdir
  import opened FatRoundTrips

  // The key stands for the same slot and the same file on both disks.
  ghost predicate SameFile(g: Geo, d: Disk, d': Disk, dir: seq<nat>, key: seq<byte>, p: nat, slot: Slot, file: seq<nat>)
  {
    && DirThere(g, d, dir) && DirThere(g, d', dir)
    && FoundAt(ChainBytes(g, d, dir), key, p, slot) && FoundAt(ChainBytes(g, d', dir), key, p, slot)
    && FileChain(TableOf(g, d), dir, slot, file) && FileChain(TableOf(g, d'), dir, slot, file)
    && FileKept(g, d, d', file)
  }

  ghost predicate DirThere(g: Geo, d: Disk, dir: seq<nat>) {
    DiskOk(g, d) && IsChain(TableOf(g, d), dir) && HasClusters(g, d, dir)
  }

  ghost predicate FileKept(g: Geo, d: Disk, d': Disk, file: seq<nat>) {
    file != [] ==> Kept(g, d, d', file)
  }

  // Reading it gives the same.
  lemma SameRead(g: Geo, d: Disk, d': Disk, dir: seq<nat>, key: seq<byte>, p: nat, slot: Slot, file: seq<nat>,
                 size: nat, r: int, before: seq<byte>, after: seq<byte>)
    requires SameFile(g, d, d', dir, key, p, slot, file) && size <= |before| && size < TWO32
    ensures HasClusters(g, d', dir) && Names(g, d', dir, key, file)
    ensures ReadResult(g, d', file, FileSize(slot), size, r, before, after)
            <==> ReadResult(g, d, file, FileSize(slot), size, r, before, after)
  {
    hide ChainBytes, FoundAt, FileChain, FileSize;
    OneFound(ChainBytes(g, d', dir), key, p, slot);
  }

  lemma SameThen(g: Geo, d: Disk, d1: Disk, d2: Disk, dir: seq<nat>, key: seq<byte>, p: nat, slot: Slot, file: seq<nat>)
    requires SameFile(g, d, d1, dir, key, p, slot, file) && SameFile(g, d1, d2, dir, key, p, slot, file)
    ensures SameFile(g, d, d2, dir, key, p, slot, file)
  {
    hide ChainBytes, FoundAt, FileChain;
  }

  lemma SameStart(g: Geo, d: Disk, dir: seq<nat>, key: seq<byte>, p: nat, slot: Slot, file: seq<nat>)
    requires DirThere(g, d, dir) && FoundAt(ChainBytes(g, d, dir), key, p, slot)
    requires FileChain(TableOf(g, d), dir, slot, file)
    ensures SameFile(g, d, d, dir, key, p, slot, file)
  {
    hide ChainBytes, FoundAt;
    if file != [] { KeptSelf(g, d, file); }
  }

  // ---- one slot of the directory changes ----

  // A search for the key goes past a slot like x.
  ghost predicate Passes(key: seq<byte>, x: Slot) {
    x[0] != 0 && (x[0] == DELETED || SlotName(x) != key)
  }

  lemma OtherFound(b: seq<byte>, p: nat, x: Slot, key: seq<byte>, q: nat, slot: Slot)
    requires HasSlot(b, p) && FoundAt(b, key, q, slot) && p != q && Passes(key, x)
    ensures FoundAt(PutSlot(b, p, x), key, q, slot)
  {
    PutSlotGet(b, p, x, q);
    forall j: nat | j < q && HasSlot(b, j) ensures Judge(Find(key), SlotAt(PutSlot(b, p, x), j)) == Skip {
      PutSlotGet(b, p, x, j);
    }
  }

  // The row of the directory is the same but for slot p, and the file is untouched.
  lemma SameByRow(g: Geo, d: Disk, d': Disk, dir: seq<nat>, key: seq<byte>, q: nat, slot: Slot, file: seq<nat>, p: nat,
                  x: Slot)
    requires DirThere(g, d, dir) && DirThere(g, d', dir)
    requires FoundAt(ChainBytes(g, d, dir), key, q, slot) && FileChain(TableOf(g, d), dir, slot, file)
    requires FileKept(g, d, d', file)
    requires HasSlot(ChainBytes(g, d, dir), p) && ChainBytes(g, d', dir) == PutSlot(ChainBytes(g, d, dir), p, x)
    requires p != q && Passes(key, x)
    ensures SameFile(g, d, d', dir, key, q, slot, file)
  {
    hide ChainBytes, FoundAt, PutSlot, Passes;
    OtherFound(ChainBytes(g, d, dir), p, x, key, q, slot);
  }

  // The row is the same altogether.
  lemma SameBySelf(g: Geo, d: Disk, d': Disk, dir: seq<nat>, key: seq<byte>, q: nat, slot: Slot, file: seq<nat>)
    requires DirThere(g, d, dir) && FoundAt(ChainBytes(g, d, dir), key, q, slot)
    requires FileChain(TableOf(g, d), dir, slot, file)
    requires Kept(g, d, d', dir) && FileKept(g, d, d', file)
    ensures SameFile(g, d, d', dir, key, q, slot, file)
  {
    hide ChainBytes, FoundAt;
  }

  // An unused slot, and one with another name, is not the file's own.
  lemma NotOwn(b: seq<byte>, t: Test, p: nat, key: seq<byte>, q: nat, slot: Slot)
    requires FirstHit(b, t, p) && FoundAt(b, key, q, slot)
    requires t == Unused || (t.Named? && t.name != key) || (t.Find? && t.name != key && Judge(t, SlotAt(b, p)) == Take)
    ensures p != q
  {
  }

  // ---- the calls, under another name ----

  lemma StoreKeepsFile(g: Geo, d: Disk, d': Disk, dir: seq<nat>, key: seq<byte>, q: nat, slot: Slot, file: seq<nat>,
                       p: nat, x: Slot)
    requires DirThere(g, d, dir) && FoundAt(ChainBytes(g, d, dir), key, q, slot)
    requires FileChain(TableOf(g, d), dir, slot, file)
    requires SlotStored(g, d, d', dir, p, x) && p != q && Passes(key, x)
    ensures SameFile(g, d, d', dir, key, q, slot, file)
  {
    hide ChainBytes, FoundAt, PutSlot, Passes, Touches, SameReserved, TableOf, IsChain, Disjoint;
    if file != [] {
      DisjointSym(dir, file);
      SlotKeeps(g, d, d', dir, p, x, file);
    }
    SameByRow(g, d, d', dir, key, q, slot, file, p, x);
  }

  // create: the new slot bears another name.
  lemma CreateOther(g: Geo, d: Disk, d': Disk, dir: seq<nat>, key: seq<byte>, q: nat, slot: Slot, file: seq<nat>,
                    p: nat, name: Name, attr: byte)
    requires DirThere(g, d, dir) && FoundAt(ChainBytes(g, d, dir), key, q, slot)
    requires FileChain(TableOf(g, d), dir, slot, file)
    requires FirstHit(ChainBytes(g, d, dir), Unused, p) && Name83(name) != key
    requires SlotStored(g, d, d', dir, p, Fresh(SlotAt(ChainBytes(g, d, dir), p), Name83(name), attr))
    ensures SameFile(g, d, d', dir, key, q, slot, file)
  {
    hide ChainBytes, SlotStored, Fresh, Name83, FileChain;
    KeyNotZero(name);
    FreshGet(SlotAt(ChainBytes(g, d, dir), p), Name83(name), attr);
    var x := Fresh(SlotAt(ChainBytes(g, d, dir), p), Name83(name), attr);
    assert x[0] == SlotName(x)[0];
    NotOwn(ChainBytes(g, d, dir), Unused, p, key, q, slot);
    StoreKeepsFile(g, d, d', dir, key, q, slot, file, p, x);
  }

  // delete: the slot found under another name is marked.
  lemma DeleteOther(g: Geo, d: Disk, d': Disk, dir: seq<nat>, key: seq<byte>, q: nat, slot: Slot, file: seq<nat>,
                    p: nat, gone: seq<byte>, was: Slot)
    requires DirThere(g, d, dir) && FoundAt(ChainBytes(g, d, dir), key, q, slot)
    requires FileChain(TableOf(g, d), dir, slot, file)
    requires FoundAt(ChainBytes(g, d, dir), gone, p, was) && gone != key
    requires SlotStored(g, d, d', dir, p, was[0 := DELETED])
    ensures SameFile(g, d, d', dir, key, q, slot, file)
  {
    hide ChainBytes, SlotStored, FileChain;
    NotOwn(ChainBytes(g, d, dir), Find(gone), p, key, q, slot);
    StoreKeepsFile(g, d, d', dir, key, q, slot, file, p, was[0 := DELETED]);
  }

  // rename: neither the old nor the new name is the file's.
  lemma RenameOther(g: Geo, d: Disk, d': Disk, dir: seq<nat>, key: seq<byte>, q: nat, slot: Slot, file: seq<nat>,
                    p: nat, from: seq<byte>, to: Name)
    requires DirThere(g, d, dir) && FoundAt(ChainBytes(g, d, dir), key, q, slot)
    requires FileChain(TableOf(g, d), dir, slot, file)
    requires FirstHit(ChainBytes(g, d, dir), Named(from), p) && from != key && Name83(to) != key
    requires SlotStored(g, d, d', dir, p, WithName(SlotAt(ChainBytes(g, d, dir), p), Name83(to)))
    ensures SameFile(g, d, d', dir, key, q, slot, file)
  {
    hide ChainBytes, SlotStored, FileChain, Name83;
    KeyNotZero(to);
    var x := WithName(SlotAt(ChainBytes(g, d, dir), p), Name83(to));
    assert SlotName(x) == Name83(to) && x[0] == SlotName(x)[0];
    NotOwn(ChainBytes(g, d, dir), Named(from), p, key, q, slot);
    StoreKeepsFile(g, d, d', dir, key, q, slot, file, p, x);
  }

  // write: the file written shares no cluster with this one.
  lemma WriteOther(g: Geo, d: Disk, d': Disk, dir: seq<nat>, key: seq<byte>, q: nat, slot: Slot, file: seq<nat>,
                   p: nat, name: seq<byte>, wslot: Slot, wfile: seq<nat>, wfile': seq<nat>,
                   buffer: seq<byte>, done: bool)
    requires DirThere(g, d, dir) && FoundAt(ChainBytes(g, d, dir), key, q, slot)
    requires FileChain(TableOf(g, d), dir, slot, file)
    requires FoundAt(ChainBytes(g, d, dir), name, p, wslot) && name != key && Disjoint(file, wfile) && |buffer| < TWO32
    requires WriteResult(g, d, d', dir, p, wslot, wfile, wfile', buffer, done)
    requires forall o: seq<nat> :: IsChain(TableOf(g, d), o) && Disjoint(o, dir) && Disjoint(o, wfile) ==>
      Kept(g, d, d', o)
    ensures SameFile(g, d, d', dir, key, q, slot, file)
  {
    hide ChainBytes, TableOf, IsChain, Disjoint, Filled, FreeClusters, AllFree, Capacity, PutSlot, Judge, Kept;
    NotOwn(ChainBytes(g, d, dir), Find(name), p, key, q, slot);
    if file != [] { DisjointSym(dir, file); }
    if done {
      var x := if ToInt(|buffer|) < 0 then wslot else Filled(wslot, wfile'[0], |buffer|);
      WrittenSlot(ChainBytes(g, d, dir), name, p, wslot, x, key, if ToInt(|buffer|) < 0 then 0 else wfile'[0],
                  |buffer|);
      SameByRow(g, d, d', dir, key, q, slot, file, p, x);
    } else {
      SameBySelf(g, d, d', dir, key, q, slot, file);
    }
  }

  lemma WrittenSlot(b: seq<byte>, name: seq<byte>, p: nat, wslot: Slot, x: Slot, key: seq<byte>, c: nat, n: nat)
    requires FoundAt(b, name, p, wslot) && name != key && c < TWO32 && n < TWO32
    requires x == wslot || x == Filled(wslot, c, n)
    ensures Passes(key, x)
  {
    FilledGet(wslot, c, n);
    assert x[0] == SlotName(x)[0] && wslot[0] == SlotName(wslot)[0];
  }

  lemma MkdirOther(g: Geo, d: Disk, d': Disk, dir: seq<nat>, key: seq<byte>, q: nat, slot: Slot, file: seq<nat>,
                   p: nat, name: Name, f: nat, parent: nat)
    requires DirThere(g, d, dir) && FoundAt(ChainBytes(g, d, dir), key, q, slot)
    requires FileChain(TableOf(g, d), dir, slot, file)
    requires DirMade(g, d, d', dir, Name83(name), p, f, parent) && Name83(name) != key
    ensures SameFile(g, d, d', dir, key, q, slot, file)
  {
    hide ChainBytes, TableOf, IsChain, Disjoint, Touches, SameReserved, DirEntry, DirSector, Judge, PutSlot, Name83,
         FoundAt, Kept;
    var b := ChainBytes(g, d, dir);
    KeyNotZero(name);
    HitHas(b, Unused, p);
    DirEntryGet(SlotAt(b, p), Name83(name), f);
    NotOwn(b, Unused, p, key, q, slot);
    DirStaysChain(g, d, d', dir, Name83(name), p, f, parent);
    if file != [] {
      DisjointSym(dir, file);
      MkdirKeeps(g, d, d', dir, Name83(name), p, f, parent, file);
    }
    SameByRow(g, d, d', dir, key, q, slot, file, p, DirEntry(SlotAt(b, p), Name83(name), f));
  }

  lemma DirStaysChain(g: Geo, d: Disk, d': Disk, dir: seq<nat>, key: seq<byte>, p: nat, f: nat, parent: nat)
    requires DirMade(g, d, d', dir, key, p, f, parent) && IsChain(TableOf(g, d), dir)
    ensures IsChain(TableOf(g, d'), dir)
  {
    hide ChainBytes, TableOf, Touches, SameReserved, DirEntry, DirSector;
    NewChain(TableOf(g, d), TableOf(g, d'), f, dir);
    OtherEntries(TableOf(g, d), TableOf(g, d'), f, dir);
  }

  // rmdir: the directory removed leads neither to the file nor to its directory.
  lemma RmdirOther(g: Geo, d: Disk, d': Disk, dir: seq<nat>, key: seq<byte>, q: nat, slot: Slot, file: seq<nat>,
                   p: nat, name: seq<byte>)
    requires DirThere(g, d, dir) && FoundAt(ChainBytes(g, d, dir), key, q, slot)
    requires FileChain(TableOf(g, d), dir, slot, file)
    requires DirRemoved(g, d, d', dir, name, p) && name != key
    requires forall x | x in dir + file :: !Reaches(TableOf(g, d), FirstCluster(SlotAt(ChainBytes(g, d, dir), p)), x)
    ensures SameFile(g, d, d', dir, key, q, slot, file)
  {
    hide ChainBytes, TableOf, Touches, SameReserved, Reaches, FirstCluster, PutSlot, FoundAt, Kept, HasClusters;
    var c := FirstCluster(SlotAt(ChainBytes(g, d, dir), p));
    NotOwn(ChainBytes(g, d, dir), Named(name), p, key, q, slot);
    assert forall x | x in dir :: x in dir + file;
    assert forall x | x in file :: x in dir + file;
    Unreached(TableOf(g, d), TableOf(g, d'), c, dir);
    if file != [] {
      DisjointSym(dir, file);
      RmdirKeeps(g, d, d', dir, name, p, file);
    }
    SameByRow(g, d, d', dir, key, q, slot, file, p, SlotAt(ChainBytes(g, d, dir), p)[0 := DELETED]);
  }

  lemma Unreached(t: Table, t': Table, c: nat, o: seq<nat>)
    requires FreedFrom(t, t', c) && IsChain(t, o) && forall x | x in o :: !Reaches(t, c, x)
    ensures IsChain(t', o)
  {
    hide Reaches;
    forall i | 0 <= i < |o| ensures t'[o[i]] == t[o[i]] { assert o[i] in o; }
  }

  // ---- the calls, in another directory ----

  // One slot of directory e changes.
  lemma StoreElsewhere(g: Geo, d: Disk, d': Disk, dir: seq<nat>, key: seq<byte>, q: nat, slot: Slot, file: seq<nat>,
                       e: seq<nat>, p: nat, x: Slot)
    requires DirThere(g, d, dir) && FoundAt(ChainBytes(g, d, dir), key, q, slot)
    requires FileChain(TableOf(g, d), dir, slot, file) && Disjoint(dir, e) && Disjoint(file, e)
    requires SlotStored(g, d, d', e, p, x)
    ensures SameFile(g, d, d', dir, key, q, slot, file)
  {
    hide ChainBytes, FoundAt, PutSlot, Touches, SameReserved, TableOf, IsChain, Disjoint, Kept;
    SlotKeeps(g, d, d', e, p, x, dir);
    if file != [] { SlotKeeps(g, d, d', e, p, x, file); }
    SameBySelf(g, d, d', dir, key, q, slot, file);
  }

  // A file of directory e is written that shares no cluster with this one.
  lemma WriteElsewhere(g: Geo, d: Disk, d': Disk, dir: seq<nat>, key: seq<byte>, q: nat, slot: Slot, file: seq<nat>,
                       e: seq<nat>, wfile: seq<nat>)
    requires DirThere(g, d, dir) && FoundAt(ChainBytes(g, d, dir), key, q, slot)
    requires FileChain(TableOf(g, d), dir, slot, file) && Disjoint(dir, e) && Disjoint(file, e)
    requires Disjoint(dir, wfile) && Disjoint(file, wfile)
    requires forall o: seq<nat> :: IsChain(TableOf(g, d), o) && Disjoint(o, e) && Disjoint(o, wfile) ==>
      Kept(g, d, d', o)
    ensures SameFile(g, d, d', dir, key, q, slot, file)
  {
    hide ChainBytes, FoundAt, TableOf, IsChain, Disjoint, Kept;
    SameBySelf(g, d, d', dir, key, q, slot, file);
  }

  lemma MkdirElsewhere(g: Geo, d: Disk, d': Disk, dir: seq<nat>, key: seq<byte>, q: nat, slot: Slot, file: seq<nat>,
                       e: seq<nat>, name: seq<byte>, p: nat, f: nat, parent: nat)
    requires DirThere(g, d, dir) && FoundAt(ChainBytes(g, d, dir), key, q, slot)
    requires FileChain(TableOf(g, d), dir, slot, file) && Disjoint(dir, e) && Disjoint(file, e)
    requires DirMade(g, d, d', e, name, p, f, parent)
    ensures SameFile(g, d, d', dir, key, q, slot, file)
  {
    hide ChainBytes, FoundAt, TableOf, IsChain, Disjoint, Kept, DirMade;
    MkdirKeeps(g, d, d', e, name, p, f, parent, dir);
    if file != [] { MkdirKeeps(g, d, d', e, name, p, f, parent, file); }
    SameBySelf(g, d, d', dir, key, q, slot, file);
  }

  // The directory removed leads neither to the file nor to its directory.
  lemma RmdirElsewhere(g: Geo, d: Disk, d': Disk, dir: seq<nat>, key: seq<byte>, q: nat, slot: Slot, file: seq<nat>,
                       e: seq<nat>, name: seq<byte>, p: nat)
    requires DirThere(g, d, dir) && FoundAt(ChainBytes(g, d, dir), key, q, slot)
    requires FileChain(TableOf(g, d), dir, slot, file) && Disjoint(dir, e) && Disjoint(file, e)
    requires DirRemoved(g, d, d', e, name, p)
    requires forall x | x in dir + file :: !Reaches(TableOf(g, d), FirstCluster(SlotAt(ChainBytes(g, d, e), p)), x)
    ensures SameFile(g, d, d', dir, key, q, slot, file)
  {
    hide ChainBytes, FoundAt, TableOf, IsChain, Disjoint, Kept, Reaches, FirstCluster, Touches, FreedFrom;
    assert forall x | x in dir :: x in dir + file;
    assert forall x | x in file :: x in dir + file;
    RmdirKeeps(g, d, d', e, name, p, dir);
    if file != [] { RmdirKeeps(g, d, d', e, name, p, file); }
    SameBySelf(g, d, d', dir, key, q, slot, file);
  }

  // ---- writing one file, then reading another ----

  // Whatever the write does, the other file reads as it did before.
  method WriteThenReadOther(vol: Volume, name: Name, other: Name, buffer: seq<byte>, out: array<byte>, size: nat,
                            ghost dir: seq<nat>, ghost file: seq<nat>, ghost file2: seq<nat>)
    returns (r: int)
    requires vol.Valid() && IsChain(vol.Table(), dir) && dir[0] == vol.cwd && HasClusters(vol.g, vol.disk[..], dir)
    requires Names(vol.g, vol.disk[..], dir, Name83(name), file)
    requires Names(vol.g, vol.disk[..], dir, Name83(other), file2)
    requires Name83(other) != Name83(name) && Disjoint(file2, file) && |buffer| < TWO32
    requires Exists(ChainBytes(vol.g, vol.disk[..], dir), Name83(other)) && size <= out.Length && size < TWO32
    modifies vol.disk, out
    ensures forall p: nat, slot :: FoundAt(ChainBytes(vol.g, old(vol.disk[..]), dir), Name83(other), p, slot) ==>
      ReadResult(vol.g, old(vol.disk[..]), file2, FileSize(slot), size, r, old(out[..]), out[..])
  {
    hide IsChain, HasClusters, ChainBytes, FoundAt, Exists, TableOf, Kept, SameReserved, Disjoint, WriteResult,
         ReadResult, FileChain, FileFits, FileSpends, FileSize, Name83;
    ghost var g, d, b := vol.g, vol.disk[..], ChainBytes(vol.g, vol.disk[..], dir);
    ghost var q := SomeFound(b, Name83(other));
    ghost var slot := SlotAt(b, q);
    OneFound(b, Name83(other), q, slot);
    var w;
    ghost var file', done;
    w, file', done := WriteFile(vol, name, buffer, dir, file);
    ghost var d' := vol.disk[..];
    if Exists(b, Name83(name)) {
      ghost var p := SomeFound(b, Name83(name));
      WriteOther(g, d, d', dir, Name83(other), q, slot, file2, p, Name83(name), SlotAt(b, p), file, file', buffer,
                 done);
    } else {
      SameStart(g, d, dir, Name83(other), q, slot, file2);
    }
    ghost var before := out[..];
    assert SameFile(g, d, d', dir, Name83(other), q, slot, file2);
    SameRead(g, d, d', dir, Name83(other), q, slot, file2, size, 0, before, before);
    NamesReads(g, d', dir, Name83(other), file2);
    ChainSearchable(vol.g, vol.disk[..], dir);
    r := ReadFile(vol, other, out, size, dir, file2);
    SameRead(g, d, d', dir, Name83(other), q, slot, file2, size, r, before, out[..]);
  }
}
