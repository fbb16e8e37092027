/** Directory entries: create, delete and rename, and changing the current directory. */
module FatDirs {
  import opened Widths
  import opened Bytes
  import opened Fat
  import opened FatTable
  import opened FatDriver
  import opened FatNames
  import opened FatSlots
  import opened FatScan
  import opened FatFiles

  const ERR_EXISTS: int := -2
  const ERR_NOTDIR: int := -5
  const ERR_NOTEMPTY: int := -6

  // What create_entry_at makes of an unused slot; time fields stay.
  function Fresh(s: Slot, key: seq<byte>, attr: byte): Slot
    requires |key| == 11
  {
    WithCluster(WithSize(Splice(WithName(s, key), 11, [attr]), 0), 0)
  }

  lemma FreshGet(s: Slot, key: seq<byte>, attr: byte)
    requires |key| == 11
    ensures var x := Fresh(s, key, attr);
            SlotName(x) == key && Attr(x) == attr && FileSize(x) == 0 && FirstCluster(x) == 0
  {
    var y := Splice(WithName(s, key), 11, [attr]);
    WithSizeGet(y, 0);
    WithClusterGet(WithSize(y, 0), 0);
  }

  // create_entry_at: the first unused slot, the deleted ones included.
  method CreateEntry(vol: Volume, name: Name, attr: byte, ghost dir: seq<nat>) returns (r: int, ghost p: nat)
    requires vol.Valid() && IsChain(vol.Table(), dir) && dir[0] == vol.cwd && HasClusters(vol.g, vol.disk[..], dir)
    modifies vol.disk
    ensures vol.Valid() && (r == 0 || r == ERR_NOSPACE)
    ensures r == ERR_NOSPACE <==> NoHit(ChainBytes(vol.g, old(vol.disk[..]), dir), Unused)
    ensures r == ERR_NOSPACE ==> vol.disk[..] == old(vol.disk[..])
    ensures r == 0 ==> FirstHit(ChainBytes(vol.g, old(vol.disk[..]), dir), Unused, p)
    ensures r == 0 ==> SlotStored(vol.g, old(vol.disk[..]), vol.disk[..], dir, p,
                                  Fresh(SlotAt(ChainBytes(vol.g, old(vol.disk[..]), dir), p), Name83(name), attr))
  {
    hide IsChain, HasClusters, ChainBytes, PlacedAt, SlotStored, Fresh, FirstHit, TableOf, HasSlot;
    var key := Key83(name);
    var v, lba, i, buf;
    ChainSearchable(vol.g, vol.disk[..], dir);
    v, lba, i, buf, p := Scan(vol, vol.cwd, Unused, dir);
    HitOrNot(ChainBytes(vol.g, vol.disk[..], dir), Unused, v, p);
    if v == Take {
      ReadSlot(vol.g, vol.disk[..], dir, lba, i, p);
      ChainIn(vol.g, vol.disk[..], dir);
      PutBack(vol, lba, i, buf, Fresh(buf[SLOT_SIZE * i..SLOT_SIZE * i + SLOT_SIZE], key, attr), dir, p);
      r := 0;
    } else {
      r := ERR_NOSPACE;
    }
  }

  lemma HitOrNot(b: seq<byte>, t: Test, v: Verdict, p: nat)
    requires v == Skip ==> NoHit(b, t)
    requires v != Skip ==> FirstHit(b, t, p) && v == Judge(t, SlotAt(b, p))
    ensures v == Skip <==> NoHit(b, t)
    ensures v != Skip ==> HasSlot(b, p)
    ensures t.Unused? ==> v != Stop
    ensures t.Named? || t.NewDir? || t.Update? ==> v != Stop
  {
  }

  // fat32_create_file
  method CreateFile(vol: Volume, name: Name, ghost dir: seq<nat>) returns (r: int, ghost p: nat)
    requires vol.Valid() && IsChain(vol.Table(), dir) && dir[0] == vol.cwd && HasClusters(vol.g, vol.disk[..], dir)
    modifies vol.disk
    ensures vol.Valid() && (r == 0 || r == ERR_NOSPACE)
    ensures r == ERR_NOSPACE <==> NoHit(ChainBytes(vol.g, old(vol.disk[..]), dir), Unused)
    ensures r == ERR_NOSPACE ==> vol.disk[..] == old(vol.disk[..])
    ensures r == 0 ==> FirstHit(ChainBytes(vol.g, old(vol.disk[..]), dir), Unused, p)
    ensures r == 0 ==> SlotStored(vol.g, old(vol.disk[..]), vol.disk[..], dir, p,
                                  Fresh(SlotAt(ChainBytes(vol.g, old(vol.disk[..]), dir), p), Name83(name), ATTR_FILE))
  {
    r, p := CreateEntry(vol, name, ATTR_FILE, dir);
  }

  // delete_entry_at: the entry goes, its chain stays allocated.
  method DeleteFile(vol: Volume, name: Name, ghost dir: seq<nat>) returns (r: int, ghost p: nat, ghost slot: Slot)
    requires vol.Valid() && IsChain(vol.Table(), dir) && dir[0] == vol.cwd && HasClusters(vol.g, vol.disk[..], dir)
    modifies vol.disk
    ensures vol.Valid()
    ensures r == if Exists(ChainBytes(vol.g, old(vol.disk[..]), dir), Name83(name)) then 0 else -1
    ensures r != 0 ==> vol.disk[..] == old(vol.disk[..])
    ensures r == 0 ==> FoundAt(ChainBytes(vol.g, old(vol.disk[..]), dir), Name83(name), p, slot)
    ensures r == 0 ==> SlotStored(vol.g, old(vol.disk[..]), vol.disk[..], dir, p, slot[0 := DELETED])
  {
    hide IsChain, HasClusters, ChainBytes, PlacedAt, SlotStored, FirstHit, TableOf, HasSlot, Judge, NoHit, Exists;
    var key := Key83(name);
    var v, lba, i, buf;
    ChainSearchable(vol.g, vol.disk[..], dir);
    v, lba, i, buf, p := Scan(vol, vol.cwd, Find(key), dir);
    FindTells(ChainBytes(vol.g, vol.disk[..], dir), key, v, p);
    slot := seq(32, _ => 0);
    if v == Take {
      ReadSlot(vol.g, vol.disk[..], dir, lba, i, p);
      ChainIn(vol.g, vol.disk[..], dir);
      var s: Slot := buf[SLOT_SIZE * i..SLOT_SIZE * i + SLOT_SIZE];
      slot := s;
      PutBack(vol, lba, i, buf, s[0 := DELETED], dir, p);
      r := 0;
    } else {
      r := -1;
    }
  }

  lemma FindTells(b: seq<byte>, key: seq<byte>, v: Verdict, p: nat)
    requires v == Skip ==> NoHit(b, Find(key))
    requires v != Skip ==> FirstHit(b, Find(key), p) && v == Judge(Find(key), SlotAt(b, p))
    ensures v == Take <==> Exists(b, key)
    ensures v == Take ==> HasSlot(b, p) && FoundAt(b, key, p, SlotAt(b, p))
  {
    if v == Stop { OneHit(b, key, p); }
    if v == Skip { NoneThere(b, key); }
  }

  // fat32_rename: the first slot in use with the old name, wherever it is.
  method Rename(vol: Volume, name: Name, newName: Name, ghost dir: seq<nat>) returns (r: int, ghost p: nat)
    requires vol.Valid() && IsChain(vol.Table(), dir) && dir[0] == vol.cwd && HasClusters(vol.g, vol.disk[..], dir)
    modifies vol.disk
    ensures vol.Valid() && (r == 0 || r == ERR_NOTFOUND)
    ensures r == ERR_NOTFOUND <==> NoHit(ChainBytes(vol.g, old(vol.disk[..]), dir), Named(Name83(name)))
    ensures r == ERR_NOTFOUND ==> vol.disk[..] == old(vol.disk[..])
    ensures r == 0 ==> FirstHit(ChainBytes(vol.g, old(vol.disk[..]), dir), Named(Name83(name)), p)
    ensures r == 0 ==> SlotStored(vol.g, old(vol.disk[..]), vol.disk[..], dir, p,
                                  WithName(SlotAt(ChainBytes(vol.g, old(vol.disk[..]), dir), p), Name83(newName)))
  {
    hide IsChain, HasClusters, ChainBytes, PlacedAt, SlotStored, FirstHit, TableOf, HasSlot, WithName;
    var key := Key83(name);
    var newKey := Key83(newName);
    var v, lba, i, buf;
    ChainSearchable(vol.g, vol.disk[..], dir);
    v, lba, i, buf, p := Scan(vol, vol.cwd, Named(key), dir);
    HitOrNot(ChainBytes(vol.g, vol.disk[..], dir), Named(key), v, p);
    if v == Take {
      ReadSlot(vol.g, vol.disk[..], dir, lba, i, p);
      ChainIn(vol.g, vol.disk[..], dir);
      PutBack(vol, lba, i, buf, WithName(buf[SLOT_SIZE * i..SLOT_SIZE * i + SLOT_SIZE], newKey), dir, p);
      r := 0;
    } else {
      r := ERR_NOTFOUND;
    }
  }

  // ---- directories ----

  function Zeros(n: nat): (r: seq<byte>)
    ensures |r| == n && forall i | 0 <= i < n :: r[i] == 0
  {
    seq(n, _ => 0)
  }

  // The "." or ".." slot of a new directory.
  function DotSlot(dots: seq<byte>, c: nat): Slot
    requires IsDots(dots) && c < TWO32
  {
    WithCluster(Splice(WithName(Zeros(32), Name83(dots)), 11, [ATTR_DIR]), c)
  }

  // The first sector of a new directory.
  function DirSector(self: nat, parent: nat): Sector
    requires self < TWO32 && parent < TWO32
  {
    DotSlot([DOT], self) + DotSlot([DOT, DOT], parent) + Zeros(448)
  }

  lemma DotSlotGet(dots: seq<byte>, c: nat)
    requires IsDots(dots) && c < TWO32
    ensures SlotName(DotSlot(dots, c)) == Name83(dots) && Attr(DotSlot(dots, c)) == ATTR_DIR
    ensures FirstCluster(DotSlot(dots, c)) == c && DotSlot(dots, c)[0] == DOT
  {
    var y := Splice(WithName(Zeros(32), Name83(dots)), 11, [ATTR_DIR]);
    WithClusterGet(y, c);
    assert SlotName(y) == Name83(dots);
    assert DotSlot(dots, c)[0] == SlotName(DotSlot(dots, c))[0];
  }

  // fat32_change_dir. `dir` is the directory the name is looked up in.
  method ChangeDir(vol: Volume, name: Name, ghost dir: seq<nat>) returns (r: int)
    requires vol.Valid() && IsChain(vol.Table(), dir) && HasClusters(vol.g, vol.disk[..], dir)
    requires dir[0] == if name != [] && name[0] == 0x2F then vol.g.root else vol.cwd
    modifies vol`cwd
    ensures name == [] || name == [0x2F] ==> r == 0 && vol.cwd == vol.g.root
    ensures name != [] && name != [0x2F] ==>
      DirChanged(vol.g, ChainBytes(vol.g, vol.disk[..], dir), Name83(if name[0] == 0x2F then name[1..] else name),
                 dir[0], r, vol.cwd)
  {
    hide IsChain, HasClusters, ChainBytes, FirstCluster;
    if name == [] || name == [0x2F] {
      vol.cwd := vol.g.root;
      return 0;
    }
    var rest := name;
    if name[0] == 0x2F {
      vol.cwd := vol.g.root;
      rest := name[1..];
      if rest == [] { return 0; }
    }
    var found, slot;
    ghost var p;
    ChainSearchable(vol.g, vol.disk[..], dir);
    found, slot, p := FindEntry(vol, rest, dir);
    if !found {
      NotFound(ChainBytes(vol.g, vol.disk[..], dir), Name83(rest));
      return ERR_NOTFOUND;
    }
    OneFound(ChainBytes(vol.g, vol.disk[..], dir), Name83(rest), p, slot);
    if !IsDir(slot) { return ERR_NOTDIR; }
    var c := FirstCluster(slot);
    if c == 0 { c := vol.g.root; }
    vol.cwd := c;
    r := 0;
  }

  // The outcome of looking a name up and entering what it stands for.
  ghost predicate DirChanged(g: Geo, b: seq<byte>, key: seq<byte>, from: nat, r: int, cwd: nat) {
    && (!Exists(b, key) ==> r == ERR_NOTFOUND && cwd == from)
    && forall p: nat, slot :: FoundAt(b, key, p, slot) ==>
         if IsDir(slot) then r == 0 && cwd == (if FirstCluster(slot) == 0 then g.root else FirstCluster(slot))
         else r == ERR_NOTDIR && cwd == from
  }
}
