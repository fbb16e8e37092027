/** Files: finding, reading and writing them in the current directory. */
module FatFiles {
  import opened Widths
  import opened Bytes
  import opened Counting
  import opened Fat
  import opened FatTable
  import opened FatDriver
  import opened FatNames
  import opened FatSlots
  import opened FatScan

  const ERR_NOTFOUND: int := -1
  const ERR_NOSPACE: int := -4

  // ---- one changed slot ----

  // From d to d' the only change is that slot p of the directory is now x.
  ghost predicate SlotStored(g: Geo, d: Disk, d': Disk, dir: seq<nat>, p: nat, x: Slot) {
    && DiskOk(g, d) && DiskOk(g, d') && TableOf(g, d') == TableOf(g, d) && SameReserved(g, d, d')
    && Touches(g, d, d', dir) && HasClusters(g, d, dir) && HasClusters(g, d', dir)
    && HasSlot(ChainBytes(g, d, dir), p)
    && ChainBytes(g, d', dir) == PutSlot(ChainBytes(g, d, dir), p, x)
  }

  // Write sector buf back with slot i changed to x.
  method PutBack(vol: Volume, lba: nat, i: nat, buf: Sector, x: Slot, ghost dir: seq<nat>, ghost p: nat)
    requires vol.Valid() && IsRow(vol.g, dir) && PlacedAt(vol.g, dir, lba, i, p)
    requires i < 16 && lba < vol.disk.Length && buf == vol.disk[lba]
    modifies vol.disk
    ensures vol.Valid() && SlotStored(vol.g, old(vol.disk[..]), vol.disk[..], dir, p, x)
  {
    hide IsRow, PlacedAt, HasClusters, ChainBytes, Touches, SameReserved, TableOf, Splice;
    WriteSlot(vol.g, vol.disk[..], dir, lba, i, p, x);
    var ok := vol.WriteSector(lba, Splice(buf, SLOT_SIZE * i, x));
  }

  method Key83(name: Name) returns (key: seq<byte>)
    ensures key == Name83(name)
  {
    var out := new byte[11];
    NameTo83(name, out);
    key := out[..];
  }

  // ---- chains that a change leaves alone ----

  ghost predicate Kept(g: Geo, d: Disk, d': Disk, o: seq<nat>) {
    && DiskOk(g, d) && DiskOk(g, d') && IsChain(TableOf(g, d), o) && IsChain(TableOf(g, d'), o)
    && HasClusters(g, d, o) && HasClusters(g, d', o) && ChainBytes(g, d', o) == ChainBytes(g, d, o)
  }

  lemma KeptTrans(g: Geo, d: Disk, d1: Disk, d2: Disk, o: seq<nat>)
    requires Kept(g, d, d1, o) && Kept(g, d1, d2, o)
    ensures Kept(g, d, d2, o)
  {
  }

  lemma KeptSelf(g: Geo, d: Disk, o: seq<nat>)
    requires DiskOk(g, d) && IsChain(TableOf(g, d), o)
    ensures Kept(g, d, d, o)
  {
    ChainHas(g, d, o);
  }

  // A free cluster's entry changes.
  lemma EntryKeeps(g: Geo, d: Disk, d': Disk, f: nat, v: nat, o: seq<nat>)
    requires DiskOk(g, d) && DiskOk(g, d') && SameData(g, d, d') && IsChain(TableOf(g, d), o)
    requires IsFree(TableOf(g, d), f) && TableOf(g, d') == TableOf(g, d)[f := v]
    ensures f !in o && Kept(g, d, d', o)
  {
    hide ClusterBytes, ClusterSector;
    ChainHas(g, d, o);
    if f in o { ChainNotFree(TableOf(g, d), o, f); }
    forall j | 0 <= j < |o| ensures ClusterBytes(g, d', o[j]) == ClusterBytes(g, d, o[j]) && o[j] in o {
      SameDataCluster(g, d, d', o[j]);
    }
    ChainHas(g, d', o);
    ChainSame(g, d, d', o);
  }

  lemma TouchKeeps(g: Geo, d: Disk, d': Disk, ch: seq<nat>, o: seq<nat>)
    requires DiskOk(g, d) && DiskOk(g, d') && Touches(g, d, d', ch) && Disjoint(o, ch)
    requires IsChain(TableOf(g, d), o) && IsChain(TableOf(g, d'), o)
    ensures Kept(g, d, d', o)
  {
    hide ClusterBytes, ClusterSector, Touches;
    ChainHas(g, d, o);
    ChainHas(g, d', o);
    forall j | 0 <= j < |o| ensures ClusterBytes(g, d', o[j]) == ClusterBytes(g, d, o[j]) {
      assert o[j] in o;
      TouchesNot(g, d, d', ch, o[j]);
    }
    ChainSame(g, d, d', o);
  }

  // Another chain grows and is written.
  lemma GrowKeeps(g: Geo, d: Disk, d': Disk, ch: seq<nat>, ch': seq<nat>, o: seq<nat>)
    requires DiskOk(g, d) && DiskOk(g, d') && Touches(g, d, d', ch') && Grown(TableOf(g, d), TableOf(g, d'), ch, ch')
    requires IsChain(TableOf(g, d), o) && Disjoint(o, ch)
    ensures Kept(g, d, d', o) && Disjoint(o, ch')
  {
    OtherChain(TableOf(g, d), TableOf(g, d'), ch, ch', o);
    TouchKeeps(g, d, d', ch', o);
  }

  lemma SlotKeeps(g: Geo, d: Disk, d': Disk, dir: seq<nat>, p: nat, x: Slot, o: seq<nat>)
    requires SlotStored(g, d, d', dir, p, x) && IsChain(TableOf(g, d), o) && Disjoint(o, dir)
    ensures Kept(g, d, d', o)
  {
    TouchKeeps(g, d, d', dir, o);
  }

  // ---- finding ----

  // find_entry: the slot of the first match before the end of the directory.
  method FindEntry(vol: Volume, name: Name, ghost dir: seq<nat>) returns (found: bool, slot: Slot, ghost p: nat)
    requires vol.Valid() && Searchable(vol.g, vol.disk[..], vol.cwd, dir, Find(Name83(name)))
    ensures HasClusters(vol.g, vol.disk[..], dir)
    ensures found <==> Exists(ChainBytes(vol.g, vol.disk[..], dir), Name83(name))
    ensures found ==> FoundAt(ChainBytes(vol.g, vol.disk[..], dir), Name83(name), p, slot)
  {
    hide Searchable, HasClusters, ChainBytes, FirstHit, NoHit, PlacedAt;
    var key := Key83(name);
    var v, lba, i, buf;
    v, lba, i, buf, p := Scan(vol, vol.cwd, Find(key), dir);
    slot := seq(32, _ => 0);
    found := v == Take;
    ghost var b := ChainBytes(vol.g, vol.disk[..], dir);
    if found {
      ReadSlot(vol.g, vol.disk[..], dir, lba, i, p);
      slot := buf[SLOT_SIZE * i..SLOT_SIZE * i + SLOT_SIZE];
      HitHas(b, Find(key), p);
    } else if v == Stop {
      OneHit(b, key, p);
    } else {
      NoneThere(b, key);
    }
  }

  ghost predicate FoundAt(b: seq<byte>, key: seq<byte>, p: nat, slot: Slot) {
    FirstHit(b, Find(key), p) && SlotAt(b, p) == slot && Judge(Find(key), slot) == Take
  }

  // Some slot with this name is in use.
  ghost predicate Exists(b: seq<byte>, key: seq<byte>) {
    exists p: nat :: HasSlot(b, p) && FoundAt(b, key, p, SlotAt(b, p))
  }

  lemma HitHas(b: seq<byte>, t: Test, p: nat)
    requires FirstHit(b, t, p)
    ensures HasSlot(b, p)
  {
  }

  lemma OneHit(b: seq<byte>, key: seq<byte>, p: nat)
    requires FirstHit(b, Find(key), p) && Judge(Find(key), SlotAt(b, p)) != Take
    ensures !Exists(b, key)
  {
    forall q: nat | FirstHit(b, Find(key), q) ensures q == p { FirstHitUnique(b, Find(key), p, q); }
  }

  lemma NoneThere(b: seq<byte>, key: seq<byte>)
    requires NoHit(b, Find(key))
    ensures !Exists(b, key)
  {
  }

  // ---- reading ----

  // The chain of the file in this slot: none if it has no first cluster.
  ghost predicate FileChain(t: Table, dir: seq<nat>, slot: Slot, file: seq<nat>) {
    && (FirstCluster(slot) == 0 ==> file == [])
    && (FirstCluster(slot) != 0 ==> IsChain(t, file) && file[0] == FirstCluster(slot))
    && Disjoint(dir, file)
  }

  // `file` is the chain of the file that the name stands for, if it stands for one.
  ghost predicate Names(g: Geo, d: Disk, dir: seq<nat>, key: seq<byte>, file: seq<nat>)
    requires DiskOk(g, d) && HasClusters(g, d, dir)
  {
    forall p: nat, slot :: FoundAt(ChainBytes(g, d, dir), key, p, slot) ==> FileChain(TableOf(g, d), dir, slot, file)
  }

  // The clusters that read_chain meets when it reads the file that the name
  // stands for, if it stands for one: as far as they go or are needed. The chain
  // may end anyhow, run in a circle, or share clusters.
  ghost predicate Reads(g: Geo, d: Disk, dir: seq<nat>, key: seq<byte>, file: seq<nat>)
    requires DiskOk(g, d) && HasClusters(g, d, dir)
  {
    forall p: nat, slot :: FoundAt(ChainBytes(g, d, dir), key, p, slot) ==>
      Enough(g, TableOf(g, d), FirstCluster(slot), file, FileSize(slot))
  }

  lemma NamesReads(g: Geo, d: Disk, dir: seq<nat>, key: seq<byte>, file: seq<nat>)
    requires DiskOk(g, d) && HasClusters(g, d, dir) && Names(g, d, dir, key, file)
    ensures Reads(g, d, dir, key, file)
  {
    hide FoundAt, ChainBytes, TableOf;
    forall p: nat, slot | FoundAt(ChainBytes(g, d, dir), key, p, slot)
      ensures Enough(g, TableOf(g, d), FirstCluster(slot), file, FileSize(slot))
    {
      if file != [] { ChainTrail(TableOf(g, d), file); }
    }
  }

  function Least(a: nat, b: nat): nat { if a < b then a else b }

  // fat32_read_file
  method ReadFile(vol: Volume, name: Name, out: array<byte>, size: nat, ghost dir: seq<nat>, ghost file: seq<nat>)
    returns (r: int)
    requires vol.Valid() && Searchable(vol.g, vol.disk[..], vol.cwd, dir, Find(Name83(name)))
    requires HasClusters(vol.g, vol.disk[..], dir)
    requires Reads(vol.g, vol.disk[..], dir, Name83(name), file)
    requires size <= out.Length && size < TWO32
    modifies out
    ensures !Exists(ChainBytes(vol.g, vol.disk[..], dir), Name83(name)) ==> r == -1 && out[..] == old(out[..])
    ensures forall p: nat, slot :: FoundAt(ChainBytes(vol.g, vol.disk[..], dir), Name83(name), p, slot) ==>
      ReadResult(vol.g, vol.disk[..], file, FileSize(slot), size, r, old(out[..]), out[..])
    // The size is the number in the last four bytes of the slot.
    ensures forall p: nat, slot: Slot :: FoundAt(ChainBytes(vol.g, vol.disk[..], dir), Name83(name), p, slot) ==>
      ReadResult(vol.g, vol.disk[..], file, Number(slot[28], slot[29], slot[30], slot[31]), size, r, old(out[..]),
                 out[..])
  {
    hide Searchable, HasClusters, ChainBytes, FoundAt, Exists, Enough, TableOf, FirstCluster, FileSize;
    ghost var g, d, key := vol.g, vol.disk[..], Name83(name);
    ghost var p;
    var found, slot;
    found, slot, p := FindEntry(vol, name, dir);
    if !found {
      NotFound(ChainBytes(g, d, dir), key);
      return -1;
    }
    OneFound(ChainBytes(g, d, dir), key, p, slot);
    SlotFields(slot);
    var cluster := FirstCluster(slot);
    ReadFacts(g, d, slot, file, size);
    if cluster == 0 { return 0; }
    var n := if size < FileSize(slot) then size else FileSize(slot);
    r := vol.ReadChain(cluster, out, n, file);
  }

  lemma ReadFacts(g: Geo, d: Disk, slot: Slot, file: seq<nat>, size: nat)
    requires DiskOk(g, d) && Enough(g, TableOf(g, d), FirstCluster(slot), file, FileSize(slot))
    ensures FirstCluster(slot) == 0 ==> file == []
    ensures FileSize(slot) < TWO32 && HasClusters(g, d, file) && (file == [] ==> ChainBytes(g, d, file) == [])
    ensures Enough(g, TableOf(g, d), FirstCluster(slot), file, Least(size, FileSize(slot)))
  {
    ChainHas(g, d, file);
  }

  // What fat32_read_file(.., size) makes of a file of n bytes: 0 bytes without a
  // cluster, otherwise as much as the request, the size and the chain allow.
  ghost predicate ReadResult(g: Geo, d: Disk, file: seq<nat>, n: nat, size: nat, r: int, before: seq<byte>,
                             after: seq<byte>)
    requires size <= |before| && size < TWO32
  {
    if file == [] then r == 0 && after == before
    else HasClusters(g, d, file) && var m := Least(Least(size, n), |ChainBytes(g, d, file)|);
         r == ToInt(m) && after == ChainBytes(g, d, file)[..m] + before[m..]
  }

  lemma NotFound(b: seq<byte>, key: seq<byte>)
    requires !Exists(b, key)
    ensures forall p: nat, slot :: !FoundAt(b, key, p, slot)
  {
    forall p: nat, slot ensures !FoundAt(b, key, p, slot) {
      assert HasSlot(b, p) ==> !FoundAt(b, key, p, SlotAt(b, p));
    }
  }

  lemma OneFound(b: seq<byte>, key: seq<byte>, p: nat, slot: Slot)
    requires FoundAt(b, key, p, slot)
    ensures Exists(b, key)
    ensures forall q: nat, s :: FoundAt(b, key, q, s) ==> q == p && s == slot
  {
    assert HasSlot(b, p) && FoundAt(b, key, p, SlotAt(b, p));
    forall q: nat, s | FoundAt(b, key, q, s) ensures q == p && s == slot {
      FirstHitUnique(b, Find(key), p, q);
    }
  }

  lemma FileChainFacts(g: Geo, d: Disk, dir: seq<nat>, slot: Slot, file: seq<nat>)
    requires DiskOk(g, d) && FileChain(TableOf(g, d), dir, slot, file)
    ensures Disjoint(dir, file)
    ensures if FirstCluster(slot) == 0 then file == []
            else file != [] && IsChain(TableOf(g, d), file) && file[0] == FirstCluster(slot) && HasClusters(g, d, file)
    ensures FirstCluster(slot) < TWO32 && FileSize(slot) < TWO32
  {
    if FirstCluster(slot) != 0 { ChainHas(g, d, file); }
  }

  // ---- writing ----

  // The second scan of fat32_write_file meets the slot that find_entry met.
  lemma UpdateHitsSame(b: seq<byte>, key: seq<byte>, p: nat, slot: Slot)
    requires FoundAt(b, key, p, slot)
    ensures FirstHit(b, Update(key), p) && Judge(Update(key), slot) == Take
  {
    forall q: nat | q < p && HasSlot(b, q) ensures Judge(Update(key), SlotAt(b, q)) == Skip {
      assert Judge(Find(key), SlotAt(b, q)) == Skip;
    }
  }

  // A slot rewritten under its own name is found again.
  lemma FoundAgain(b: seq<byte>, key: seq<byte>, p: nat, slot: Slot, x: Slot)
    requires FoundAt(b, key, p, slot) && SlotName(x) == SlotName(slot) && Attr(x) == Attr(slot)
    ensures HasSlot(b, p) && FoundAt(PutSlot(b, p, x), key, p, x)
  {
    var b' := PutSlot(b, p, x);
    PutSlotGet(b, p, x, p);
    assert x[0] == SlotName(x)[0] && slot[0] == SlotName(slot)[0];
    forall q: nat | q < p && HasSlot(b', q) ensures Judge(Find(key), SlotAt(b', q)) == Skip {
      PutSlotGet(b, p, x, q);
    }
  }

  // The slot of a file whose chain begins at c and whose size is n.
  function Filled(slot: Slot, c: nat, n: nat): Slot
    requires c < TWO32 && n < TWO32
  {
    WithCluster(WithSize(slot, n), c)
  }

  lemma FilledGet(slot: Slot, c: nat, n: nat)
    requires c < TWO32 && n < TWO32
    ensures FirstCluster(Filled(slot, c, n)) == c && FileSize(Filled(slot, c, n)) == n
    ensures SlotName(Filled(slot, c, n)) == SlotName(slot) && Attr(Filled(slot, c, n)) == Attr(slot)
  {
    WithSizeGet(slot, n);
    WithClusterGet(WithSize(slot, n), c);
  }

  // The second scan of fat32_write_file: store first cluster and size.
  method UpdateEntry(vol: Volume, key: seq<byte>, c: nat, n: nat, ghost dir: seq<nat>, ghost p: nat, ghost slot: Slot)
    returns (ok: bool)
    requires vol.Valid() && IsChain(vol.Table(), dir) && dir[0] == vol.cwd && HasClusters(vol.g, vol.disk[..], dir)
    requires FoundAt(ChainBytes(vol.g, vol.disk[..], dir), key, p, slot) && c < TWO32 && n < TWO32
    modifies vol.disk
    ensures ok && vol.Valid() && SlotStored(vol.g, old(vol.disk[..]), vol.disk[..], dir, p, Filled(slot, c, n))
  {
    hide IsChain, HasClusters, ChainBytes, PlacedAt, SlotStored, Filled, FirstHit, Judge, TableOf, HasSlot;
    ghost var b := ChainBytes(vol.g, vol.disk[..], dir);
    ChainSearchable(vol.g, vol.disk[..], dir);
    UpdateHitsSame(b, key, p, slot);
    var v, lba, i, buf;
    ghost var q;
    v, lba, i, buf, q := Scan(vol, vol.cwd, Update(key), dir);
    HitIs(b, Update(key), p, slot, v, q);
    ReadSlot(vol.g, vol.disk[..], dir, lba, i, p);
    ChainIn(vol.g, vol.disk[..], dir);
    PutBack(vol, lba, i, buf, Filled(buf[SLOT_SIZE * i..SLOT_SIZE * i + SLOT_SIZE], c, n), dir, p);
    ok := true;
  }

  // A scan whose first hit is known finds it.
  lemma HitIs(b: seq<byte>, t: Test, p: nat, slot: Slot, v: Verdict, q: nat)
    requires FirstHit(b, t, p) && SlotAt(b, p) == slot
    requires v == Skip ==> NoHit(b, t)
    requires v != Skip ==> FirstHit(b, t, q)
    ensures v != Skip && q == p
  {
    if v != Skip { FirstHitUnique(b, t, p, q); }
  }

  // The chain that write_chain begins with: the file's own, or one new cluster.
  method FirstOrNew(vol: Volume, slot: Slot, ghost dir: seq<nat>, ghost file: seq<nat>)
    returns (c: nat, ghost head: seq<nat>)
    requires vol.Valid() && FileChain(vol.Table(), dir, slot, file) && IsChain(vol.Table(), dir)
    modifies vol.disk
    ensures vol.Valid() && SameReserved(vol.g, old(vol.disk[..]), vol.disk[..])
    ensures c == 0 <==> file == [] && FreeClusters(old(vol.Table())) == {}
    ensures c == 0 ==> vol.disk[..] == old(vol.disk[..])
    ensures c != 0 ==> IsChain(vol.Table(), head) && head[0] == c && c < TWO32 && Disjoint(dir, head)
    ensures c != 0 ==> HeadFor(old(vol.Table()), file, head)
    ensures c != 0 ==> SameData(vol.g, old(vol.disk[..]), vol.disk[..])
    ensures c != 0 ==> vol.Table() == if file != [] then old(vol.Table()) else old(vol.Table())[head[0] := EOC]
  {
    hide FileChain, SameData, SameReserved, Disjoint, FirstCluster, FileSize, TableOf, IsChain;
    ghost var g, d, t := vol.g, vol.disk[..], vol.Table();
    FileChainFacts(g, d, dir, slot, file);
    SameSelf(g, d);
    c := FirstCluster(slot);
    head := file;
    if c == 0 {
      c := vol.FindFree();
      if c == 0 { return; }
      assert c in FreeClusters(t);
      var ok := vol.WriteEntry(c, EOC);
      head := [c];
      NewChain(t, vol.Table(), c, dir);
    } else {
      SomeFree(t, file);
    }
  }

  ghost predicate HeadFor(t: Table, file: seq<nat>, head: seq<nat>) {
    if file != [] then head == file else |head| == 1 && LeastFree(t, head[0])
  }

  lemma SomeFree(t: Table, file: seq<nat>)
    requires file != []
    ensures HeadFor(t, file, file)
  {
  }

  lemma NewChain(t: Table, t': Table, f: nat, o: seq<nat>)
    requires IsFree(t, f) && t' == t[f := EOC % TWO28] && IsChain(t, o)
    ensures IsChain(t', [f]) && t' == t[f := EOC] && Disjoint(o, [f])
  {
    if f in o { ChainNotFree(t, o, f); }
  }

  // fat32_write_file. The file's chain `file` becomes file'; `done` tells that all
  // of the buffer is on the disk.
  method WriteFile(vol: Volume, name: Name, buffer: seq<byte>, ghost dir: seq<nat>, ghost file: seq<nat>)
    returns (r: int, ghost file': seq<nat>, ghost done: bool)
    requires vol.Valid() && IsChain(vol.Table(), dir) && dir[0] == vol.cwd && HasClusters(vol.g, vol.disk[..], dir)
    requires Names(vol.g, vol.disk[..], dir, Name83(name), file) && |buffer| < TWO32
    modifies vol.disk
    ensures vol.Valid()
    ensures !Exists(ChainBytes(vol.g, old(vol.disk[..]), dir), Name83(name)) ==>
      r == -1 && !done && vol.disk[..] == old(vol.disk[..])
    ensures Exists(ChainBytes(vol.g, old(vol.disk[..]), dir), Name83(name)) ==>
      if done then r == ToInt(|buffer|) else r == -1 && FreeClusters(vol.Table()) == {}
    ensures Exists(ChainBytes(vol.g, old(vol.disk[..]), dir), Name83(name)) ==>
      FileSpends(vol.g, old(vol.Table()), vol.Table(), file, |buffer|, done)
    ensures forall p: nat, slot :: FoundAt(ChainBytes(vol.g, old(vol.disk[..]), dir), Name83(name), p, slot) ==>
      WriteResult(vol.g, old(vol.disk[..]), vol.disk[..], dir, p, slot, file, file', buffer, done)
    // The bytes of the slot afterwards.
    ensures done && |buffer| < 0x8000_0000 ==>
      forall p: nat, slot: Slot :: FoundAt(ChainBytes(vol.g, old(vol.disk[..]), dir), Name83(name), p, slot) ==>
        SlotTells(vol.g, vol.disk[..], dir, p, slot, file', |buffer|)
    ensures SameReserved(vol.g, old(vol.disk[..]), vol.disk[..])
    ensures forall o: seq<nat> :: IsChain(old(vol.Table()), o) && Disjoint(o, dir) && Disjoint(o, file) ==>
      Kept(vol.g, old(vol.disk[..]), vol.disk[..], o)
  {
    hide IsChain, HasClusters, ChainBytes, FoundAt, Exists, FileChain, TableOf, FirstCluster, FileSize, Kept,
         SameReserved, SameData, Disjoint, FreeClusters, WriteResult, Grown, Touches, Finished, HeadFor, SlotStored,
         FileSpends, SlotTells;
    ghost var g, d, b := vol.g, vol.disk[..], ChainBytes(vol.g, vol.disk[..], dir);
    var key := Key83(name);
    ghost var p;
    var found, slot;
    file', done := file, false;
    SameSelf(g, d);
    ChainSearchable(vol.g, vol.disk[..], dir);
    found, slot, p := FindEntry(vol, name, dir);
    if !found {
      NotFound(b, key);
      AllKept(g, d, dir, file);
      return -1, file, false;
    }
    OneFound(b, key, p, slot);
    r, file', done := WriteFound(vol, key, buffer, dir, file, p, slot);
    if done && |buffer| < 0x8000_0000 {
      ResultTells(g, d, vol.disk[..], dir, p, slot, file, file', buffer);
    }
  }

  // Slot p of the directory begins the chain `file` and says n bytes; its name, its
  // attribute and its times are those of `slot`.
  ghost predicate SlotTells(g: Geo, d: Disk, dir: seq<nat>, p: nat, slot: Slot, file: seq<nat>, n: nat) {
    && HasClusters(g, d, dir) && 32 * p + 32 <= |ChainBytes(g, d, dir)| && file != []
    && var s := ChainBytes(g, d, dir)[32 * p..32 * p + 32];
       && Number(s[26], s[27], s[20], s[21]) == file[0] && Number(s[28], s[29], s[30], s[31]) == n
       && forall i | 0 <= i < 20 || 22 <= i < 26 :: s[i] == slot[i]
  }

  lemma ResultTells(g: Geo, d: Disk, d': Disk, dir: seq<nat>, p: nat, slot: Slot, file: seq<nat>, file': seq<nat>,
                    buffer: seq<byte>)
    requires DiskOk(g, d) && |buffer| < 0x8000_0000 && WriteResult(g, d, d', dir, p, slot, file, file', buffer, true)
    ensures SlotTells(g, d', dir, p, slot, file', |buffer|)
  {
    hide IsChain, HasClusters, ChainBytes, TableOf, FreeClusters, Disjoint, AllFree, Filled, Number, Capacity, PutSlot;
    var b, x := ChainBytes(g, d, dir), Filled(slot, file'[0], |buffer|);
    FilledBytes(slot, file'[0], |buffer|);
    PutSlotGet(b, p, x, p);
    assert ChainBytes(g, d', dir)[32 * p..32 * p + 32] == SlotAt(PutSlot(b, p, x), p) == x;
  }

  // fat32_write_file: first cluster and size, and nothing else.
  lemma FilledBytes(s: Slot, c: nat, n: nat)
    requires c < TWO32 && n < TWO32
    ensures var x := Filled(s, c, n);
            && Number(x[26], x[27], x[20], x[21]) == c && Number(x[28], x[29], x[30], x[31]) == n
            && forall i | 0 <= i < 20 || 22 <= i < 26 :: x[i] == s[i]
  {
    hide Number;
    WithSizeBytes(s, n);
    WithClusterBytes(WithSize(s, n), c);
  }

  // The clusters a file has once its first one is there.
  function HeadLength(file: seq<nat>): nat { if file == [] then 1 else |file| }

  // What a write leaves: the chain grown as far as needed and no further, its new
  // clusters taken from the free ones, the buffer at its front, and the slot
  // updated if the length is a positive int. A full disk leaves the directory.
  ghost predicate WriteResult(g: Geo, d: Disk, d': Disk, dir: seq<nat>, p: nat, slot: Slot,
                              file: seq<nat>, file': seq<nat>, buffer: seq<byte>, done: bool)
    requires DiskOk(g, d) && |buffer| < TWO32
  {
    && DiskOk(g, d') && file <= file'
    && FreeClusters(TableOf(g, d')) == FreeClusters(TableOf(g, d)) - Elements(file'[|file|..])
    && AllFree(TableOf(g, d), file'[|file|..])
    && (file' != [] ==> IsChain(TableOf(g, d'), file') && Disjoint(dir, file') && HasClusters(g, d', file'))
    && (if done then
          && HeadLength(file) <= |file'| && file'[0] < TWO32
          && (|file'| > HeadLength(file) ==> Capacity(g, |file'| - 1) < |buffer|)
          && |buffer| <= |ChainBytes(g, d', file')| && ChainBytes(g, d', file')[..|buffer|] == buffer
          && DirAfter(g, d, d', dir, p, if ToInt(|buffer|) < 0 then slot else Filled(slot, file'[0], |buffer|))
        else
          Kept(g, d, d', dir))
  }

  ghost predicate AllFree(t: Table, l: seq<nat>) {
    forall x | x in l :: IsFree(t, x)
  }

  // The directory afterwards: slot p is x.
  ghost predicate DirAfter(g: Geo, d: Disk, d': Disk, dir: seq<nat>, p: nat, x: Slot)
    requires DiskOk(g, d) && DiskOk(g, d')
  {
    && IsChain(TableOf(g, d'), dir) && HasClusters(g, d, dir) && HasClusters(g, d', dir)
    && HasSlot(ChainBytes(g, d, dir), p)
    && ChainBytes(g, d', dir) == PutSlot(ChainBytes(g, d, dir), p, x)
  }

  lemma AllKept(g: Geo, d: Disk, dir: seq<nat>, file: seq<nat>)
    requires DiskOk(g, d)
    ensures forall o: seq<nat> :: IsChain(TableOf(g, d), o) && Disjoint(o, dir) && Disjoint(o, file) ==>
      Kept(g, d, d, o)
  {
    forall o: seq<nat> | IsChain(TableOf(g, d), o) ensures Kept(g, d, d, o) { KeptSelf(g, d, o); }
  }

  // fat32_write_file once the entry is found.
  method WriteFound(vol: Volume, key: seq<byte>, buffer: seq<byte>, ghost dir: seq<nat>, ghost file: seq<nat>,
                    ghost p: nat, slot: Slot)
    returns (r: int, ghost file': seq<nat>, ghost done: bool)
    requires vol.Valid() && IsChain(vol.Table(), dir) && dir[0] == vol.cwd && HasClusters(vol.g, vol.disk[..], dir)
    requires FoundAt(ChainBytes(vol.g, vol.disk[..], dir), key, p, slot) && FileChain(vol.Table(), dir, slot, file)
    requires |buffer| < TWO32
    modifies vol.disk
    ensures vol.Valid() && SameReserved(vol.g, old(vol.disk[..]), vol.disk[..])
    ensures if done then r == ToInt(|buffer|) else r == -1 && FreeClusters(vol.Table()) == {}
    ensures FileSpends(vol.g, old(vol.Table()), vol.Table(), file, |buffer|, done)
    ensures WriteResult(vol.g, old(vol.disk[..]), vol.disk[..], dir, p, slot, file, file', buffer, done)
    ensures forall o: seq<nat> :: IsChain(old(vol.Table()), o) && Disjoint(o, dir) && Disjoint(o, file) ==>
      Kept(vol.g, old(vol.disk[..]), vol.disk[..], o)
  {
    hide IsChain, HasClusters, ChainBytes, FoundAt, FileChain, TableOf, FirstCluster, FileSize, Kept, SameReserved,
         SameData, Disjoint, FreeClusters, WriteResult, Grown, Touches, Finished, HeadFor, SlotStored, Filled, Spends,
         FileSpends;
    ghost var g, d, t := vol.g, vol.disk[..], vol.Table();
    file', done := file, false;
    var c;
    ghost var head;
    c, head := FirstOrNew(vol, slot, dir, file);
    ghost var d1 := vol.disk[..];
    if c == 0 {
      NothingSpent(g, t, file, |buffer|);
      NothingWritten(g, d, dir, p, slot, file, buffer);
      AllKept(g, d, dir, file);
      return -1, file, false;
    }
    FileDisjoint(g, d, dir, slot, file);
    WholeSame(vol.Table(), head);
    r, file', done := vol.WriteChain(c, buffer, head);
    PlainChain(g, d1, vol.disk[..], head, file', buffer, done);
    ghost var d2 := vol.disk[..];
    SameReservedTrans(g, d, d1, d2);
    assert Written(g, d, d1, d2, dir, file, head, file', buffer, done);
    WrittenSpends(g, d, d1, d2, dir, file, head, file', buffer, done);
    StepsKeep(g, d, d1, d2, dir, file, head, file', buffer, done, dir);
    KeptBytes(g, d, d2, dir);
    if r < 0 {
      WriteStops(g, d, d1, d2, dir, p, slot, file, head, file', buffer, done, key);
      return;
    }
    var ok := UpdateEntry(vol, key, c, |buffer|, dir, p, slot);
    WriteEnds(g, d, d1, d2, vol.disk[..], dir, p, slot, file, head, file', buffer, done);
    StoredReserved(g, d2, vol.disk[..], dir, p, Filled(slot, c, |buffer|));
    SameReservedTrans(g, d, d2, vol.disk[..]);
  }

  // A write of so many bytes finds the clusters that it needs.
  ghost predicate FileFits(g: Geo, t: Table, file: seq<nat>, bytes: nat) {
    (file == [] ==> FreeClusters(t) != {}) && bytes <= Capacity(g, |file| + |FreeClusters(t)|)
  }

  // It is complete exactly if it does, and takes exactly the missing ones; a file
  // without a chain gets one cluster even for no bytes.
  ghost predicate FileSpends(g: Geo, t: Table, t': Table, file: seq<nat>, bytes: nat, done: bool)
    requires g.perCluster > 0
  {
    && (done <==> FileFits(g, t, file, bytes))
    && |FreeClusters(t)| - |FreeClusters(t')| ==
         (if !done then |FreeClusters(t)| else Most(Needed(g, bytes), HeadLength(file)) - |file|)
  }

  function Most(a: nat, b: nat): nat { if a > b then a else b }

  lemma NothingSpent(g: Geo, t: Table, file: seq<nat>, bytes: nat)
    requires g.perCluster > 0 && file == [] && FreeClusters(t) == {}
    ensures FileSpends(g, t, t, file, bytes, false)
  {
  }

  lemma WrittenSpends(g: Geo, d: Disk, d1: Disk, d2: Disk, dir: seq<nat>, file: seq<nat>, head: seq<nat>,
                      file': seq<nat>, buffer: seq<byte>, done: bool)
    requires Written(g, d, d1, d2, dir, file, head, file', buffer, done)
    requires Spends(g, TableOf(g, d1), TableOf(g, d2), head, |buffer|, done)
    ensures FileSpends(g, TableOf(g, d), TableOf(g, d2), file, |buffer|, done)
  {
    hide Spends, FileSpends, TableOf, SameData, Grown, Touches, Finished;
    HeadNotEmpty(TableOf(g, d1), head);
    HeadSpends(g, TableOf(g, d), TableOf(g, d1), TableOf(g, d2), file, head, |buffer|, done);
  }

  lemma HeadSpends(g: Geo, t: Table, t1: Table, t2: Table, file: seq<nat>, head: seq<nat>, bytes: nat, done: bool)
    requires g.perCluster > 0 && HeadFor(t, file, head) && Spends(g, t1, t2, head, bytes, done)
    requires head != [] && t1 == (if file != [] then t else if head[0] < |t| then t[head[0] := EOC] else t)
    ensures FileSpends(g, t, t2, file, bytes, done)
  {
    hide Capacity, Needed;
    if file == [] {
      FreeWithout(t, t1, head[0]);
      assert head[0] in FreeClusters(t);
    }
  }

  // d1 is d with the head of the chain there, d2 is d1 with the buffer written.
  ghost predicate Written(g: Geo, d: Disk, d1: Disk, d2: Disk, dir: seq<nat>, file: seq<nat>, head: seq<nat>,
                          file': seq<nat>, buffer: seq<byte>, done: bool)
  {
    && DiskOk(g, d) && DiskOk(g, d1) && DiskOk(g, d2) && SameData(g, d, d1)
    && IsChain(TableOf(g, d), dir) && Disjoint(dir, file) && (file != [] ==> IsChain(TableOf(g, d), file))
    && IsChain(TableOf(g, d1), head) && Disjoint(dir, head) && HeadFor(TableOf(g, d), file, head) && head[0] < TWO32
    && TableOf(g, d1) == (if file != [] then TableOf(g, d) else TableOf(g, d)[head[0] := EOC])
    && Grown(TableOf(g, d1), TableOf(g, d2), head, file') && Touches(g, d1, d2, file')
    && (done ==> Finished(g, d1, d2, head, file', buffer))
  }

  lemma FileDisjoint(g: Geo, d: Disk, dir: seq<nat>, slot: Slot, file: seq<nat>)
    requires DiskOk(g, d) && FileChain(TableOf(g, d), dir, slot, file)
    ensures Disjoint(dir, file) && (file != [] ==> IsChain(TableOf(g, d), file))
  {
  }

  lemma OneApart(o: seq<nat>, head: seq<nat>)
    requires |head| == 1 && head[0] !in o
    ensures Disjoint(o, head)
  {
  }

  lemma HeadKeeps(g: Geo, d: Disk, d1: Disk, file: seq<nat>, head: seq<nat>, o: seq<nat>)
    requires DiskOk(g, d) && DiskOk(g, d1) && SameData(g, d, d1) && IsChain(TableOf(g, d), o)
    requires head != [] && HeadFor(TableOf(g, d), file, head)
    requires TableOf(g, d1) == (if file != [] then TableOf(g, d) else TableOf(g, d)[head[0] := EOC])
    ensures Kept(g, d, d1, o) && (Disjoint(o, file) ==> Disjoint(o, head))
  {
    hide IsChain, TableOf, Kept, SameData, Disjoint;
    if file == [] {
      EntryKeeps(g, d, d1, head[0], EOC, o);
      OneApart(o, head);
    } else {
      DataKeeps(g, d, d1, o);
    }
  }

  lemma DataKeeps(g: Geo, d: Disk, d': Disk, o: seq<nat>)
    requires DiskOk(g, d) && DiskOk(g, d') && SameData(g, d, d') && IsChain(TableOf(g, d), o)
    requires TableOf(g, d') == TableOf(g, d)
    ensures Kept(g, d, d', o)
  {
    hide ClusterBytes, ClusterSector;
    ChainHas(g, d, o);
    ChainHas(g, d', o);
    forall j | 0 <= j < |o| ensures ClusterBytes(g, d', o[j]) == ClusterBytes(g, d, o[j]) {
      SameDataCluster(g, d, d', o[j]);
    }
    ChainSame(g, d, d', o);
  }

  lemma StepsKeep(g: Geo, d: Disk, d1: Disk, d2: Disk, dir: seq<nat>, file: seq<nat>, head: seq<nat>, file': seq<nat>,
                  buffer: seq<byte>, done: bool, o: seq<nat>)
    requires Written(g, d, d1, d2, dir, file, head, file', buffer, done)
    requires IsChain(TableOf(g, d), o) && Disjoint(o, file)
    ensures Kept(g, d, d2, o) && Disjoint(o, file')
  {
    hide IsChain, HasClusters, ChainBytes, TableOf, SameData, Disjoint, Grown, Touches, Finished, HeadFor;
    HeadNotEmpty(TableOf(g, d1), head);
    HeadKeeps(g, d, d1, file, head, o);
    GrowKeeps(g, d1, d2, head, file', o);
    KeptTrans(g, d, d1, d2, o);
  }

  lemma HeadNotEmpty(t: Table, head: seq<nat>)
    requires IsChain(t, head)
    ensures head != []
  {
  }

  lemma KeptBytes(g: Geo, d: Disk, d': Disk, o: seq<nat>)
    requires Kept(g, d, d', o)
    ensures HasClusters(g, d, o) && HasClusters(g, d', o) && ChainBytes(g, d', o) == ChainBytes(g, d, o)
    ensures DiskOk(g, d) && DiskOk(g, d') && IsChain(TableOf(g, d'), o)
  {
  }

  // The chain afterwards: its clusters, its contents and the free ones.
  lemma ChainAfter(g: Geo, d: Disk, d1: Disk, d2: Disk, dir: seq<nat>, file: seq<nat>, head: seq<nat>, file': seq<nat>,
                   buffer: seq<byte>, done: bool)
    requires Written(g, d, d1, d2, dir, file, head, file', buffer, done)
    ensures file <= file' && file' != [] && file'[0] == head[0] && IsChain(TableOf(g, d2), file')
    ensures FreeClusters(TableOf(g, d2)) == FreeClusters(TableOf(g, d)) - Elements(file'[|file|..])
    ensures AllFree(TableOf(g, d), file'[|file|..])
    ensures HasClusters(g, d2, file') && |head| == HeadLength(file) <= |file'|
    ensures done ==> |buffer| <= |ChainBytes(g, d2, file')| && ChainBytes(g, d2, file')[..|buffer|] == buffer
    ensures done ==> |file'| > HeadLength(file) ==> Capacity(g, |file'| - 1) < |buffer|
  {
    hide ChainBytes, SameData, Touches, TableOf, FreeClusters, IsChain, HasClusters, Grown, HeadFor, Finished,
         Elements, AllFree;
    GrownParts(TableOf(g, d1), TableOf(g, d2), head, file');
    AddedFree(TableOf(g, d), TableOf(g, d1), TableOf(g, d2), file, head, file');
    ChainIn(g, d2, file');
    GrownFree(TableOf(g, d1), TableOf(g, d2), head, file');
    FreeAfterHead(TableOf(g, d), TableOf(g, d1), TableOf(g, d2), file, head, file');
    if done { FinishedParts(g, d1, d2, head, file', buffer); }
  }

  lemma GrownParts(t: Table, t': Table, ch: seq<nat>, ch': seq<nat>)
    requires Grown(t, t', ch, ch')
    ensures ch != [] && ch <= ch' && ch'[0] == ch[0] && IsChain(t', ch')
  {
  }

  lemma FinishedParts(g: Geo, d: Disk, d': Disk, head: seq<nat>, ch: seq<nat>, t: seq<byte>)
    requires Finished(g, d, d', head, ch, t)
    ensures HasClusters(g, d', ch) && |t| <= |ChainBytes(g, d', ch)| && ChainBytes(g, d', ch)[..|t|] == t
    ensures |ch| > |head| ==> Capacity(g, |ch| - 1) < |t|
  {
    hide ChainBytes;
  }

  lemma FreeAfterHead(t: Table, t1: Table, t2: Table, file: seq<nat>, head: seq<nat>, ch: seq<nat>)
    requires HeadFor(t, file, head) && head != [] && head <= ch
    requires t1 == (if file != [] then t else if head[0] < |t| then t[head[0] := EOC] else t)
    requires FreeClusters(t2) == FreeClusters(t1) - Elements(ch[|head|..])
    ensures file <= ch && |head| == HeadLength(file) && FreeClusters(t2) == FreeClusters(t) - Elements(ch[|file|..])
  {
    if file == [] {
      FreeWithout(t, t1, head[0]);
      assert ch == [head[0]] + ch[1..];
      assert Elements(ch) == {head[0]} + Elements(ch[1..]);
      assert ch[0..] == ch;
    }
  }

  lemma AddedFree(t: Table, t1: Table, t2: Table, file: seq<nat>, head: seq<nat>, ch: seq<nat>)
    requires HeadFor(t, file, head) && head != [] && Grown(t1, t2, head, ch)
    requires t1 == (if file != [] then t else if head[0] < |t| then t[head[0] := EOC] else t)
    ensures |file| <= |ch| && AllFree(t, ch[|file|..])
  {
    forall x | x in ch[|file|..] ensures IsFree(t, x) {
      var i :| |file| <= i < |ch| && ch[i] == x;
      if i >= |head| { assert IsFree(t1, ch[i]); } else { assert ch[i] == ch[..|head|][i]; }
    }
  }

  lemma FreeWithout(t: Table, t': Table, f: nat)
    requires IsFree(t, f) && t' == t[f := EOC]
    ensures FreeClusters(t') == FreeClusters(t) - {f}
  {
  }

  lemma SlotSelf(b: seq<byte>, p: nat, slot: Slot)
    requires HasSlot(b, p) && SlotAt(b, p) == slot
    ensures PutSlot(b, p, slot) == b
  {
  }

  // A write that stops before the second scan: the disk is full, or the length
  // is no positive int.
  lemma WriteStops(g: Geo, d: Disk, d1: Disk, d2: Disk, dir: seq<nat>, p: nat, slot: Slot, file: seq<nat>,
                   head: seq<nat>, file': seq<nat>, buffer: seq<byte>, done: bool, key: seq<byte>)
    requires Written(g, d, d1, d2, dir, file, head, file', buffer, done) && |buffer| < TWO32
    requires HasClusters(g, d, dir) && FoundAt(ChainBytes(g, d, dir), key, p, slot)
    requires done ==> ToInt(|buffer|) < 0
    ensures WriteResult(g, d, d2, dir, p, slot, file, file', buffer, done)
    ensures forall o: seq<nat> :: IsChain(TableOf(g, d), o) && Disjoint(o, dir) && Disjoint(o, file) ==>
      Kept(g, d, d2, o)
  {
    hide IsChain, ChainBytes, HasClusters, TableOf, SameData, Grown, Touches, Finished, HeadFor, FreeClusters, Kept,
         Capacity, Judge, Filled, AllFree;
    ChainAfter(g, d, d1, d2, dir, file, head, file', buffer, done);
    StepsKeep(g, d, d1, d2, dir, file, head, file', buffer, done, dir);
    KeptBytes(g, d, d2, dir);
    SlotSelf(ChainBytes(g, d, dir), p, slot);
    forall o: seq<nat> | IsChain(TableOf(g, d), o) && Disjoint(o, file) ensures Kept(g, d, d2, o) {
      StepsKeep(g, d, d1, d2, dir, file, head, file', buffer, done, o);
    }
  }

  lemma WriteEnds(g: Geo, d: Disk, d1: Disk, d2: Disk, d3: Disk, dir: seq<nat>, p: nat, slot: Slot, file: seq<nat>,
                  head: seq<nat>, file': seq<nat>, buffer: seq<byte>, done: bool)
    requires Written(g, d, d1, d2, dir, file, head, file', buffer, done) && |buffer| < TWO32 && done
    requires ToInt(|buffer|) >= 0
    requires SlotStored(g, d2, d3, dir, p, Filled(slot, head[0], |buffer|))
    ensures WriteResult(g, d, d3, dir, p, slot, file, file', buffer, done)
    ensures forall o: seq<nat> :: IsChain(TableOf(g, d), o) && Disjoint(o, dir) && Disjoint(o, file) ==>
      Kept(g, d, d3, o)
  {
    hide IsChain, ChainBytes, HasClusters, TableOf, SameData, Grown, Touches, Finished, HeadFor, FreeClusters, Kept,
         Capacity, Filled, Disjoint, AllFree;
    HeadNotEmpty(TableOf(g, d1), head);
    var x := Filled(slot, head[0], |buffer|);
    ChainAfter(g, d, d1, d2, dir, file, head, file', buffer, done);
    StepsKeep(g, d, d1, d2, dir, file, head, file', buffer, done, dir);
    KeptBytes(g, d, d2, dir);
    DisjointSym(dir, file');
    SlotKeeps(g, d2, d3, dir, p, x, file');
    KeptBytes(g, d2, d3, file');
    forall o: seq<nat> | IsChain(TableOf(g, d), o) && Disjoint(o, dir) && Disjoint(o, file) ensures Kept(g, d, d3, o) {
      StepsKeep(g, d, d1, d2, dir, file, head, file', buffer, done, o);
      KeptBytes(g, d, d2, o);
      SlotKeeps(g, d2, d3, dir, p, x, o);
      KeptTrans(g, d, d2, d3, o);
    }
  }

  lemma DisjointSym(a: seq<nat>, b: seq<nat>)
    requires Disjoint(a, b)
    ensures Disjoint(b, a)
  {
  }

  lemma NothingWritten(g: Geo, d: Disk, dir: seq<nat>, p: nat, slot: Slot, file: seq<nat>, buffer: seq<byte>)
    requires DiskOk(g, d) && IsChain(TableOf(g, d), dir) && file == [] && |buffer| < TWO32
    ensures WriteResult(g, d, d, dir, p, slot, file, file, buffer, false)
  {
    KeptSelf(g, d, dir);
  }

  lemma StoredReserved(g: Geo, d: Disk, d': Disk, dir: seq<nat>, p: nat, x: Slot)
    requires SlotStored(g, d, d', dir, p, x)
    ensures SameReserved(g, d, d') && TableOf(g, d') == TableOf(g, d)
  {
  }

  // ---- writing, then reading ----

  // After a write that returned its length, the name stands for the new chain.
  lemma NamesAfter(g: Geo, d: Disk, d': Disk, dir: seq<nat>, key: seq<byte>, p: nat, slot: Slot,
                   file: seq<nat>, file': seq<nat>, buffer: seq<byte>)
    requires DiskOk(g, d) && |buffer| < TWO32 && ToInt(|buffer|) >= 0
    requires WriteResult(g, d, d', dir, p, slot, file, file', buffer, true)
    requires FoundAt(ChainBytes(g, d, dir), key, p, slot)
    ensures DiskOk(g, d') && IsChain(TableOf(g, d'), dir) && HasClusters(g, d', dir) && file' != [] && file'[0] < TWO32
    ensures FoundAt(ChainBytes(g, d', dir), key, p, Filled(slot, file'[0], |buffer|))
    ensures Names(g, d', dir, key, file')
    ensures HasClusters(g, d', file') && |buffer| <= |ChainBytes(g, d', file')|
    ensures ChainBytes(g, d', file')[..|buffer|] == buffer
  {
    hide ChainBytes, Kept, FreeClusters, TableOf, Filled, Judge;
    var x := Filled(slot, file'[0], |buffer|);
    FilledGet(slot, file'[0], |buffer|);
    FoundAgain(ChainBytes(g, d, dir), key, p, slot, x);
    OneFound(ChainBytes(g, d', dir), key, p, x);
    ChainNotFree(TableOf(g, d'), file', file'[0]);
  }

  // The first `size` bytes that were written come back, or all of them.
  method WriteThenRead(vol: Volume, name: Name, buffer: seq<byte>, out: array<byte>, size: nat, ghost dir: seq<nat>,
                       ghost file: seq<nat>)
    returns (w: int, r: int)
    requires vol.Valid() && IsChain(vol.Table(), dir) && dir[0] == vol.cwd && HasClusters(vol.g, vol.disk[..], dir)
    requires Names(vol.g, vol.disk[..], dir, Name83(name), file) && |buffer| < TWO32
    requires size <= out.Length && size < TWO32
    modifies vol.disk, out
    ensures w >= 0 <==> Exists(ChainBytes(vol.g, old(vol.disk[..]), dir), Name83(name))
                        && FileFits(vol.g, old(vol.Table()), file, |buffer|) && |buffer| < 0x8000_0000
    ensures w >= 0 ==> w == |buffer| && r == Least(size, |buffer|)
    ensures w >= 0 ==> out[..] == buffer[..Least(size, |buffer|)] + old(out[..])[Least(size, |buffer|)..]
  {
    hide IsChain, HasClusters, ChainBytes, FoundAt, Exists, TableOf, Kept, SameReserved, Disjoint, WriteResult, Names,
         ReadResult, FileFits;
    ghost var g, d := vol.g, vol.disk[..];
    ghost var file', done;
    w, file', done := WriteFile(vol, name, buffer, dir, file);
    r := 0;
    if w >= 0 {
      ghost var p := SomeFound(ChainBytes(g, d, dir), Name83(name));
      ghost var slot := SlotAt(ChainBytes(g, d, dir), p);
      NamesAfter(g, d, vol.disk[..], dir, Name83(name), p, slot, file, file', buffer);
      FilledGet(slot, file'[0], |buffer|);
      ghost var before := out[..];
      NamesReads(g, vol.disk[..], dir, Name83(name), file');
      ChainSearchable(vol.g, vol.disk[..], dir);
      r := ReadFile(vol, name, out, size, dir, file');
      ReadBack(g, vol.disk[..], file', buffer, size, r, before, out[..]);
    }
  }

  lemma SomeFound(b: seq<byte>, key: seq<byte>) returns (p: nat)
    requires Exists(b, key)
    ensures HasSlot(b, p) && FoundAt(b, key, p, SlotAt(b, p))
  {
    p :| HasSlot(b, p) && FoundAt(b, key, p, SlotAt(b, p));
  }

  lemma ReadBack(g: Geo, d: Disk, file: seq<nat>, buffer: seq<byte>, size: nat, r: int, before: seq<byte>,
                 after: seq<byte>)
    requires file != [] && |buffer| < TWO32 && ToInt(|buffer|) >= 0 && size <= |before| && size < TWO32
    requires HasClusters(g, d, file) && |buffer| <= |ChainBytes(g, d, file)|
    requires ChainBytes(g, d, file)[..|buffer|] == buffer
    requires ReadResult(g, d, file, |buffer|, size, r, before, after)
    ensures r == Least(size, |buffer|) && after == buffer[..Least(size, |buffer|)] + before[Least(size, |buffer|)..]
  {
    hide ChainBytes;
    var m := Least(size, |buffer|);
    assert ChainBytes(g, d, file)[..m] == buffer[..m];
  }

  // A write of 2^31 bytes that fits is complete and looks failed: the bytes are on
  // the disk, and the directory does not know of them.
  method HugeWrite(vol: Volume, name: Name, buffer: seq<byte>, ghost dir: seq<nat>, ghost file: seq<nat>)
    returns (r: int, ghost file': seq<nat>)
    requires vol.Valid() && IsChain(vol.Table(), dir) && dir[0] == vol.cwd && HasClusters(vol.g, vol.disk[..], dir)
    requires Names(vol.g, vol.disk[..], dir, Name83(name), file) && |buffer| == 0x8000_0000
    requires Exists(ChainBytes(vol.g, vol.disk[..], dir), Name83(name)) && FileFits(vol.g, vol.Table(), file, |buffer|)
    modifies vol.disk
    ensures vol.Valid() && r == -0x8000_0000
    ensures HasClusters(vol.g, vol.disk[..], file') && buffer <= ChainBytes(vol.g, vol.disk[..], file')
    ensures HasClusters(vol.g, vol.disk[..], dir)
    ensures ChainBytes(vol.g, vol.disk[..], dir) == ChainBytes(vol.g, old(vol.disk[..]), dir)
  {
    hide IsChain, HasClusters, ChainBytes, FoundAt, Exists, TableOf, Kept, SameReserved, Disjoint, WriteResult, Names,
         FileFits, Filled;
    ghost var g, d, b := vol.g, vol.disk[..], ChainBytes(vol.g, vol.disk[..], dir);
    ghost var done;
    r, file', done := WriteFile(vol, name, buffer, dir, file);
    ghost var p := SomeFound(b, Name83(name));
    HugeResult(g, d, vol.disk[..], dir, p, SlotAt(b, p), file, file', buffer, Name83(name));
  }

  lemma HugeResult(g: Geo, d: Disk, d': Disk, dir: seq<nat>, p: nat, slot: Slot, file: seq<nat>, file': seq<nat>,
                   buffer: seq<byte>, key: seq<byte>)
    requires DiskOk(g, d) && |buffer| == 0x8000_0000 && WriteResult(g, d, d', dir, p, slot, file, file', buffer, true)
    requires HasClusters(g, d, dir) && FoundAt(ChainBytes(g, d, dir), key, p, slot)
    ensures HasClusters(g, d', file') && buffer <= ChainBytes(g, d', file')
    ensures HasClusters(g, d', dir) && ChainBytes(g, d', dir) == ChainBytes(g, d, dir)
  {
    hide ChainBytes, TableOf, FreeClusters, AllFree, IsChain, Capacity, Judge, PutSlot, Filled;
    SlotSelf(ChainBytes(g, d, dir), p, slot);
  }
}
