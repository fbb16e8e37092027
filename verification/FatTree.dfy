/**
  The volume as a tree of directories and files: what every call makes of it,
  over every run of calls, and that a file is not touched by calls under other
  names or in other directories. What one call asks for follows from the tree.
 */
module FatTree {
  import opened Widths
  import opened Bytes
  import opened Fat
  import opened FatTable
  import opened FatDriver
  import opened FatNames
  import opened FatSlots
  import opened FatScan
  import opened FatFiles
  import opened FatFree
  import opened FatDirs
  import opened FatMkdir
  import opened FatRmdir
  import opened FatRoundTrips
  import opened FatVolume
  import opened FatOthers
  import opened FatLinks

  // The directories' links are what their slots say, and make a tree of the chains.
  ghost predicate Tied(g: Geo, d: Disk, cs: Chains, e: Links) {
    && Sound(g, d, cs) && Tree(cs.Keys, g.root, e)
    && forall h <- e :: RowIs(g, d, cs, h, e[h])
  }

  ghost predicate RowIs(g: Geo, d: Disk, cs: Chains, h: nat, row: map<nat, Link>) {
    h in cs && HasClusters(g, d, cs[h]) && Targets(ChainBytes(g, d, cs[h])) == row
  }

  lemma TiedParts(g: Geo, d: Disk, cs: Chains, e: Links, h: nat)
    requires Tied(g, d, cs, e) && h in e
    ensures Sound(g, d, cs) && Tree(cs.Keys, g.root, e) && h in cs && RowIs(g, d, cs, h, e[h])
    ensures DirThere(g, d, cs[h]) && cs[h][0] == h && 2 <= h < |TableOf(g, d)|
    ensures Targets(ChainBytes(g, d, cs[h])) == e[h] && e.Keys <= cs.Keys
  {
    hide Sound, IsChain, ChainBytes, HasClusters, Targets;
    Member(g, d, cs, h);
  }

  // A volume with a root directory and nothing in it.
  lemma EmptyTied(g: Geo, d: Disk, root: seq<nat>)
    requires DiskOk(g, d) && IsChain(TableOf(g, d), root) && root[0] == g.root && HasClusters(g, d, root)
    requires forall q: nat :: !Visible(ChainBytes(g, d, root), q)
    ensures Tied(g, d, map[g.root := root], map[g.root := map[]])
  {
    hide ChainBytes, HasClusters, IsChain, TableOf, SlotLeads, InUse;
  }

  // ---- what a call asks for ----

  // The chain of the file that a slot stands for: none without a first cluster.
  ghost function FileOf(cs: Chains, slot: Slot): seq<nat> {
    if FirstCluster(slot) in cs then cs[FirstCluster(slot)] else []
  }

  lemma FoundVisible(b: seq<byte>, key: seq<byte>, p: nat, slot: Slot)
    requires FoundAt(b, key, p, slot)
    ensures HasSlot(b, p) && SlotAt(b, p) == slot && Open(b, p) && InUse(slot) && SlotName(slot) == key
    ensures FirstHit(b, Named(key), p)
  {
    forall j: nat | j < p && HasSlot(b, j)
      ensures SlotAt(b, j)[0] != 0 && Judge(Named(key), SlotAt(b, j)) == Skip
    {
      assert Judge(Find(key), SlotAt(b, j)) == Skip;
    }
  }

  // A name other than the dots that is found leads to its link.
  lemma FoundLink(g: Geo, d: Disk, cs: Chains, e: Links, h: nat, key: seq<byte>, p: nat, slot: Slot)
    requires Tied(g, d, cs, e) && h in e && HasClusters(g, d, cs[h])
    requires FoundAt(ChainBytes(g, d, cs[h]), key, p, slot) && !IsDotsKey(key)
    ensures FirstCluster(slot) != 0 ==> p in e[h] && e[h][p] == LinkOf(slot)
    ensures FirstCluster(slot) == 0 ==> p !in e[h]
  {
    hide Sound, Tree, ChainBytes, FoundAt, InUse, FirstCluster, Targets;
    TiedParts(g, d, cs, e, h);
    FoundVisible(ChainBytes(g, d, cs[h]), key, p, slot);
    InTargets(ChainBytes(g, d, cs[h]), p);
  }

  // fat32_read_file and fat32_write_file may be called for every such name.
  lemma FoundFile(g: Geo, d: Disk, cs: Chains, e: Links, h: nat, key: seq<byte>, p: nat, slot: Slot)
    requires Tied(g, d, cs, e) && h in e && HasClusters(g, d, cs[h])
    requires FoundAt(ChainBytes(g, d, cs[h]), key, p, slot) && !IsDotsKey(key)
    ensures FileChain(TableOf(g, d), cs[h], slot, FileOf(cs, slot))
    ensures Names(g, d, cs[h], key, FileOf(cs, slot))
    ensures FileOf(cs, slot) != [] ==> FirstCluster(slot) in cs && FileOf(cs, slot)[0] == FirstCluster(slot) != h
    ensures FileOf(cs, slot) != [] ==> FileOf(cs, slot) == cs[FirstCluster(slot)]
    ensures FirstCluster(slot) == 0 <==> FileOf(cs, slot) == []
  {
    hide Sound, Tree, ChainBytes, FoundAt, FirstCluster, IsChain, TableOf, Disjoint, HasClusters;
    TiedParts(g, d, cs, e, h);
    FoundLink(g, d, cs, e, h, key, p, slot);
    var c := FirstCluster(slot);
    if c != 0 {
      LinkIs(cs.Keys, g.root, e, h, p);
      Member(g, d, cs, c);
      MembersApart(g, d, cs, h, c);
    } else if 0 in cs {
      Member(g, d, cs, 0);
    } else {
      DisjointNone(cs[h], []);
    }
    OneFound(ChainBytes(g, d, cs[h]), key, p, slot);
  }

  // And fat32_rmdir.
  lemma FoundDir(g: Geo, d: Disk, cs: Chains, e: Links, h: nat, key: seq<byte>, p: nat, slot: Slot)
    requires Tied(g, d, cs, e) && h in e && HasClusters(g, d, cs[h])
    requires FoundAt(ChainBytes(g, d, cs[h]), key, p, slot) && !IsDotsKey(key)
    ensures forall q: nat :: FirstHit(ChainBytes(g, d, cs[h]), Named(key), q) ==>
      var c := FirstCluster(SlotAt(ChainBytes(g, d, cs[h]), q));
      c == 0 || (Inside(TableOf(g, d), c) && StaysIn(TableOf(g, d), c))
  {
    hide Sound, Tree, ChainBytes, FoundAt, FirstCluster, IsChain, TableOf, Disjoint, HasClusters, FileChain, StaysIn;
    var b := ChainBytes(g, d, cs[h]);
    FoundVisible(b, key, p, slot);
    FoundFile(g, d, cs, e, h, key, p, slot);
    OneHitOnly(b, Named(key), p);
    var c := FirstCluster(slot);
    if c != 0 {
      Member(g, d, cs, c);
      ChainStaysIn(TableOf(g, d), cs[c]);
    }
  }

  // Two names of files share no cluster, in one directory or in two.
  lemma FilesApart(g: Geo, d: Disk, cs: Chains, e: Links, h: nat, key: seq<byte>, p: nat, slot: Slot,
                   k: nat, key2: seq<byte>, q: nat, slot2: Slot)
    requires Tied(g, d, cs, e) && h in e && k in e && (h != k || p != q)
    requires HasClusters(g, d, cs[h]) && FoundAt(ChainBytes(g, d, cs[h]), key, p, slot) && !IsDotsKey(key)
    requires HasClusters(g, d, cs[k]) && FoundAt(ChainBytes(g, d, cs[k]), key2, q, slot2) && !IsDotsKey(key2)
    ensures Disjoint(FileOf(cs, slot), FileOf(cs, slot2))
  {
    hide Sound, Tree, ChainBytes, FoundAt, FirstCluster, IsChain, TableOf, Disjoint, HasClusters, FileChain;
    TiedParts(g, d, cs, e, h);
    FoundFile(g, d, cs, e, h, key, p, slot);
    FoundFile(g, d, cs, e, k, key2, q, slot2);
    FoundLink(g, d, cs, e, h, key, p, slot);
    FoundLink(g, d, cs, e, k, key2, q, slot2);
    if FileOf(cs, slot) != [] && FileOf(cs, slot2) != [] {
      LinksDiffer(cs.Keys, g.root, e, h, p, k, q);
      MembersApart(g, d, cs, FirstCluster(slot), FirstCluster(slot2));
    } else {
      OneEmpty(FileOf(cs, slot), FileOf(cs, slot2));
    }
  }

  lemma OneEmpty(a: seq<nat>, b: seq<nat>)
    requires a == [] || b == []
    ensures Disjoint(a, b)
  {
  }

  // ---- calls ----

  // A successful call.
  datatype Call =
    | Create(name: Name, attr: byte)
    | Delete(name: Name)
    | Renaming(name: Name, to: Name)
    | Write(name: Name, file: seq<nat>, file': seq<nat>, buffer: seq<byte>, done: bool)
    | MakeDir(name: Name, f: nat, parent: nat)
    | RemoveDir(name: Name)

  // What the call did to the disk, in directory `dir` through its slot p.
  ghost predicate Called(g: Geo, d: Disk, d': Disk, dir: seq<nat>, c: Call, p: nat) {
    DiskOk(g, d) && HasClusters(g, d, dir) && HasSlot(ChainBytes(g, d, dir), p) && var b := ChainBytes(g, d, dir);
    match c
    case Create(name, attr) =>
      FirstHit(b, Unused, p) && SlotStored(g, d, d', dir, p, Fresh(SlotAt(b, p), Name83(name), attr))
    case Delete(name) =>
      && FoundAt(b, Name83(name), p, SlotAt(b, p))
      && SlotStored(g, d, d', dir, p, SlotAt(b, p)[0 := DELETED])
    case Renaming(name, to) =>
      FirstHit(b, Named(Name83(name)), p) && SlotStored(g, d, d', dir, p, WithName(SlotAt(b, p), Name83(to)))
    case Write(name, file, file', buffer, done) =>
      && |buffer| < TWO32 && FoundAt(b, Name83(name), p, SlotAt(b, p))
      && WriteResult(g, d, d', dir, p, SlotAt(b, p), file, file', buffer, done)
      && forall o: seq<nat> :: IsChain(TableOf(g, d), o) && Disjoint(o, dir) && Disjoint(o, file) ==> Kept(g, d, d', o)
    case MakeDir(name, f, parent) => DirMade(g, d, d', dir, Name83(name), p, f, parent)
    case RemoveDir(name) => DirRemoved(g, d, d', dir, Name83(name), p)
  }

  // What is asked of a call: the dots entries are left as they are, no directory
  // is written to as a file, the directory to be removed is found before the end,
  // and no entry of an earlier life comes to light. The file of a write is the slot's.
  ghost predicate Fit(g: Geo, d: Disk, cs: Chains, dir: seq<nat>, c: Call, p: nat)
    requires HasClusters(g, d, dir) && HasSlot(ChainBytes(g, d, dir), p)
  {
    var b := ChainBytes(g, d, dir);
    match c
    case Create(name, attr) => Quiet(b, p)
    case Delete(name) => true
    case Renaming(name, to) => !IsDotsKey(Name83(name))
    case Write(name, file, file', buffer, done) =>
      !IsDotsKey(Name83(name)) && !IsDir(SlotAt(b, p)) && file == FileOf(cs, SlotAt(b, p))
    case MakeDir(name, f, parent) => Quiet(b, p)
    case RemoveDir(name) => !IsDotsKey(Name83(name)) && FoundAt(b, Name83(name), p, SlotAt(b, p))
  }

  // The chains and the links afterwards.
  function ChainsAfter(cs: Chains, c: Call, slot: Slot): Chains {
    match c
    case Write(name, file, file', buffer, done) => Rewritten(cs, file')
    case MakeDir(name, f, parent) => cs[f := [f]]
    case RemoveDir(name) => cs - {FirstCluster(slot)}
    case _ => cs
  }

  // The directory's own links are `row`; a new directory has none.
  ghost function LinksAfter(e: Links, h: nat, row: map<nat, Link>, c: Call, slot: Slot): Links {
    var e1: Links := e[h := row];
    match c
    case MakeDir(name, f, parent) => e1[f := map[]]
    case RemoveDir(name) => e1 - {FirstCluster(slot)}
    case _ => e1
  }

  // ---- one call ----

  // Directories whose chains are kept keep their links.
  lemma RowKept(g: Geo, d: Disk, d': Disk, cs: Chains, cs': Chains, k: nat, row: map<nat, Link>)
    requires RowIs(g, d, cs, k, row) && k in cs' && cs'[k] == cs[k] && Kept(g, d, d', cs[k])
    ensures RowIs(g, d', cs', k, row)
  {
    hide ChainBytes, HasClusters, Targets;
  }

  // The calls so far as this directory goes: slot p becomes x.
  ghost predicate RowPut(g: Geo, d: Disk, d': Disk, dir: seq<nat>, p: nat, x: Slot) {
    && HasClusters(g, d, dir) && HasClusters(g, d', dir) && HasSlot(ChainBytes(g, d, dir), p)
    && ChainBytes(g, d', dir) == PutSlot(ChainBytes(g, d, dir), p, x)
  }

  // From rows to the volume: all directories but h and k are kept.
  lemma TiedAfter(g: Geo, d: Disk, d': Disk, cs: Chains, cs': Chains, e: Links, e': Links, h: nat, k: nat)
    requires Tied(g, d, cs, e) && Sound(g, d', cs') && Tree(cs'.Keys, g.root, e') && OthersKept(g, d, d', cs, h, k)
    requires forall j <- e' | j != h && j != k :: j in e && e'[j] == e[j] && j in cs' && cs'[j] == cs[j]
    requires h in e' ==> RowIs(g, d', cs', h, e'[h])
    requires k in e' ==> RowIs(g, d', cs', k, e'[k])
    ensures Tied(g, d', cs', e')
  {
    hide Sound, Tree, ChainBytes, HasClusters, Targets, OthersKept, Kept;
    forall j | j in e' ensures RowIs(g, d', cs', j, e'[j]) {
      if j != h && j != k {
        TiedParts(g, d, cs, e, j);
        MemberKept(g, d, d', cs, h, k, j);
        RowKept(g, d, d', cs, cs', j, e[j]);
      }
    }
  }

  lemma PutRow(g: Geo, d: Disk, d': Disk, cs: Chains, cs': Chains, h: nat, row: map<nat, Link>, p: nat, x: Slot)
    requires RowIs(g, d, cs, h, row) && h in cs' && cs'[h] == cs[h] && RowPut(g, d, d', cs[h], p, x)
    requires x[0] != 0 && Quiet(ChainBytes(g, d, cs[h]), p)
    ensures RowIs(g, d', cs', h, PutLink(ChainBytes(g, d, cs[h]), p, x))
  {
    hide ChainBytes, HasClusters, Targets, Quiet, PutSlot, PutLink;
    PutTargetsIff(ChainBytes(g, d, cs[h]), p, x);
  }

  // A slot that was not the end of the directory hides nothing.
  lemma UsedQuiet(b: seq<byte>, p: nat)
    requires HasSlot(b, p) && SlotAt(b, p)[0] != 0
    ensures Quiet(b, p)
  {
  }

  lemma StoredRow(g: Geo, d: Disk, d': Disk, dir: seq<nat>, p: nat, x: Slot)
    requires SlotStored(g, d, d', dir, p, x)
    ensures RowPut(g, d, d', dir, p, x)
    ensures HasClusters(g, d, dir) && HasSlot(ChainBytes(g, d, dir), p)
  {
    hide ChainBytes, HasClusters;
  }

  // create, delete and rename.
  lemma StoreTied(g: Geo, d: Disk, d': Disk, cs: Chains, e: Links, h: nat, p: nat, x: Slot)
    requires Tied(g, d, cs, e) && h in e && h in cs && SlotStored(g, d, d', cs[h], p, x)
    requires x[0] != 0 && HasClusters(g, d, cs[h]) && HasSlot(ChainBytes(g, d, cs[h]), p)
    requires Quiet(ChainBytes(g, d, cs[h]), p)
    requires Tree(cs.Keys, g.root, e[h := PutLink(ChainBytes(g, d, cs[h]), p, x)])
    ensures Tied(g, d', cs, e[h := PutLink(ChainBytes(g, d, cs[h]), p, x)])
  {
    hide Tied, Sound, Tree, ChainBytes, HasClusters, OthersKept, Quiet, PutLink, RowIs, SlotStored, RowPut, HasSlot,
         IsChain, FirstHit;
    TiedParts(g, d, cs, e, h);
    StoreSound(g, d, d', cs, h, p, x);
    StoredRow(g, d, d', cs[h], p, x);
    PutRow(g, d, d', cs, cs, h, e[h], p, x);
    TiedAfter(g, d, d', cs, cs, e, e[h := PutLink(ChainBytes(g, d, cs[h]), p, x)], h, h);
  }

  // A slot that leads nowhere.
  lemma LessLinks(g: Geo, d: Disk, cs: Chains, e: Links, h: nat, p: nat, x: Slot)
    requires Tied(g, d, cs, e) && h in e && h in cs && HasClusters(g, d, cs[h]) && HasSlot(ChainBytes(g, d, cs[h]), p)
    requires !SlotLeads(x)
    ensures PutLink(ChainBytes(g, d, cs[h]), p, x) == e[h] - {p}
    ensures Tree(cs.Keys, g.root, e[h := e[h] - {p}])
  {
    hide Sound, Tree, ChainBytes, HasClusters, Targets;
    TiedParts(g, d, cs, e, h);
    TreeLess(cs.Keys, g.root, e, h, p);
  }

  // A slot that leads where it led.
  lemma SameLinks(g: Geo, d: Disk, cs: Chains, e: Links, h: nat, p: nat, x: Slot)
    requires Tied(g, d, cs, e) && h in e && h in cs && HasClusters(g, d, cs[h]) && HasSlot(ChainBytes(g, d, cs[h]), p)
    requires var b := ChainBytes(g, d, cs[h]);
             SlotLeads(SlotAt(b, p)) && (SlotLeads(x) ==> LinkOf(x) == LinkOf(SlotAt(b, p)))
    ensures var row := PutLink(ChainBytes(g, d, cs[h]), p, x); row == e[h] || row == e[h] - {p}
    ensures Open(ChainBytes(g, d, cs[h]), p) && SlotLeads(x) ==> PutLink(ChainBytes(g, d, cs[h]), p, x) == e[h]
    ensures Tree(cs.Keys, g.root, e[h := PutLink(ChainBytes(g, d, cs[h]), p, x)])
  {
    hide Sound, Tree, ChainBytes, HasClusters, Targets, SlotLeads, LinkOf;
    TiedParts(g, d, cs, e, h);
    InTargets(ChainBytes(g, d, cs[h]), p);
    TreeLess(cs.Keys, g.root, e, h, p);
    assert e[h := e[h]] == e;
  }

  lemma CreateTied(g: Geo, d: Disk, d': Disk, cs: Chains, e: Links, h: nat, p: nat, x: Slot)
    requires Tied(g, d, cs, e) && h in e && h in cs && SlotStored(g, d, d', cs[h], p, x)
    requires x[0] != 0 && HasClusters(g, d, cs[h]) && HasSlot(ChainBytes(g, d, cs[h]), p)
    requires Quiet(ChainBytes(g, d, cs[h]), p) && !SlotLeads(x)
    ensures Tied(g, d', cs, e[h := e[h] - {p}])
  {
    hide Tied, Sound, Tree, ChainBytes, HasClusters, Quiet, PutLink, SlotStored, HasSlot, SlotLeads;
    LessLinks(g, d, cs, e, h, p, x);
    StoreTied(g, d, d', cs, e, h, p, x);
  }

  lemma RenameTied(g: Geo, d: Disk, d': Disk, cs: Chains, e: Links, h: nat, p: nat, from: seq<byte>, to: Name)
    requires Tied(g, d, cs, e) && h in e && h in cs && HasClusters(g, d, cs[h]) && HasSlot(ChainBytes(g, d, cs[h]), p)
    requires FirstHit(ChainBytes(g, d, cs[h]), Named(from), p) && !IsDotsKey(from)
    requires SlotStored(g, d, d', cs[h], p, WithName(SlotAt(ChainBytes(g, d, cs[h]), p), Name83(to)))
    ensures var b := ChainBytes(g, d, cs[h]);
            Tied(g, d', cs, e[h := PutLink(b, p, WithName(SlotAt(b, p), Name83(to)))])
  {
    hide Tied, Sound, Tree, ChainBytes, HasClusters, Quiet, PutLink, SlotStored, HasSlot, Name83, IsDotsKey,
         FirstCluster, IsDir;
    var b := ChainBytes(g, d, cs[h]);
    var s, x := SlotAt(b, p), WithName(SlotAt(b, p), Name83(to));
    KeyNotZero(to);
    Renamed(s, Name83(to));
    UsedQuiet(b, p);
    if SlotLeads(s) {
      SameLinks(g, d, cs, e, h, p, x);
    } else {
      LessLinks(g, d, cs, e, h, p, x);
    }
    StoreTied(g, d, d', cs, e, h, p, x);
  }

  lemma Renamed(s: Slot, key: seq<byte>)
    requires |key| == 11
    ensures var x := WithName(s, key);
            x[0] == key[0] && FirstCluster(x) == FirstCluster(s) && IsDir(x) == IsDir(s) && Attr(x) == Attr(s)
  {
    SpliceOutside(s, 0, key, 20, 22);
    SpliceOutside(s, 0, key, 26, 28);
  }

  // What write leaves of slot p.
  function WrittenAs(slot: Slot, file': seq<nat>, bytes: nat, done: bool): Slot
    requires bytes < TWO32 && (done ==> file' != [] && file'[0] < TWO32)
  {
    if done && ToInt(bytes) >= 0 then Filled(slot, file'[0], bytes) else slot
  }

  lemma WrittenRow(g: Geo, d: Disk, d': Disk, dir: seq<nat>, p: nat, slot: Slot, file: seq<nat>, file': seq<nat>,
                   buffer: seq<byte>, done: bool)
    requires DiskOk(g, d) && |buffer| < TWO32 && WriteResult(g, d, d', dir, p, slot, file, file', buffer, done)
    requires HasClusters(g, d, dir) && HasSlot(ChainBytes(g, d, dir), p) && SlotAt(ChainBytes(g, d, dir), p) == slot
    ensures (done ==> file' != [] && file'[0] < TWO32)
    ensures RowPut(g, d, d', dir, p, WrittenAs(slot, file', |buffer|, done))
  {
    hide ChainBytes, HasClusters, TableOf, FreeClusters, IsChain, AllFree, Filled, PutSlot;
    if !done {
      KeptBytes(g, d, d', dir);
      SlotSelf(ChainBytes(g, d, dir), p, slot);
    }
  }

  // The tree after a write: a file that had no chain may have one now.
  lemma WriteTree(g: Geo, d: Disk, cs: Chains, e: Links, h: nat, p: nat, slot: Slot, file: seq<nat>, file': seq<nat>,
                  bytes: nat, done: bool)
    requires Tied(g, d, cs, e) && h in e && h in cs && HasClusters(g, d, cs[h]) && HasSlot(ChainBytes(g, d, cs[h]), p)
    requires FoundAt(ChainBytes(g, d, cs[h]), SlotName(slot), p, slot) && !IsDotsKey(SlotName(slot)) && !IsDir(slot)
    requires file == FileOf(cs, slot) && bytes < TWO32 && (done ==> file' != [] && file'[0] < TWO32)
    requires if file == [] then file' == [] || (file'[0] !in cs && file'[0] != 0)
             else file' != [] && file'[0] == file[0]
    ensures var row := PutLink(ChainBytes(g, d, cs[h]), p, WrittenAs(slot, file', bytes, done));
            Tree(Rewritten(cs, file').Keys, g.root, e[h := row])
  {
    hide Tied, Sound, Tree, ChainBytes, HasClusters, Targets, FoundAt, FirstCluster, InUse, Filled, IsDotsKey, IsDir,
         SlotName;
    var b := ChainBytes(g, d, cs[h]);
    var x := WrittenAs(slot, file', bytes, done);
    TiedParts(g, d, cs, e, h);
    FoundVisible(b, SlotName(slot), p, slot);
    FoundLink(g, d, cs, e, h, SlotName(slot), p, slot);
    FoundFile(g, d, cs, e, h, SlotName(slot), p, slot);
    InTargets(b, p);
    if done { FilledKeeps(slot, file'[0], bytes); }
    if file != [] {
      assert Rewritten(cs, file').Keys == cs.Keys;
      SameLinks(g, d, cs, e, h, p, x);
    } else if file' == [] || !SlotLeads(x) {
      LessLinks(g, d, cs, e, h, p, x);
      if file' != [] {
        TreeHeads(cs.Keys, g.root, e[h := e[h] - {p}], file'[0]);
        assert Rewritten(cs, file').Keys == cs.Keys + {file'[0]};
      }
    } else {
      assert Rewritten(cs, file').Keys == cs.Keys + {file'[0]};
      FreshNoLink(cs.Keys, g.root, e, file'[0]);
      TreeHeads(cs.Keys, g.root, e, file'[0]);
      RootIn(cs.Keys, g.root, e);
      TreeMore(cs.Keys + {file'[0]}, g.root, e, h, p, Link(file'[0], false));
      assert WithLink(e, h, p, LinkOf(x)) == e[h := PutLink(b, p, x)];
    }
  }

  lemma RootIn(heads: set<nat>, root: nat, e: Links)
    requires Tree(heads, root, e)
    ensures root in e && e.Keys <= heads
  {
  }

  lemma FilledKeeps(slot: Slot, c: nat, n: nat)
    requires c < TWO32 && n < TWO32
    ensures var x := Filled(slot, c, n);
            && FirstCluster(x) == c && IsDir(x) == IsDir(slot) && SlotName(x) == SlotName(slot)
            && (InUse(x) <==> InUse(slot))
            && x[0] == slot[0]
  {
    FilledGet(slot, c, n);
    assert Filled(slot, c, n)[0] == SlotName(Filled(slot, c, n))[0] && slot[0] == SlotName(slot)[0];
  }

  lemma WriteTied(g: Geo, d: Disk, d': Disk, cs: Chains, e: Links, h: nat, p: nat, slot: Slot,
                  file: seq<nat>, file': seq<nat>, buffer: seq<byte>, done: bool)
    requires Tied(g, d, cs, e) && h in e && h in cs && HasClusters(g, d, cs[h]) && HasSlot(ChainBytes(g, d, cs[h]), p)
    requires FoundAt(ChainBytes(g, d, cs[h]), SlotName(slot), p, slot) && !IsDotsKey(SlotName(slot)) && !IsDir(slot)
    requires file == FileOf(cs, slot) && |buffer| < TWO32
    requires WriteResult(g, d, d', cs[h], p, slot, file, file', buffer, done)
    requires forall o: seq<nat> :: IsChain(TableOf(g, d), o) && Disjoint(o, cs[h]) && Disjoint(o, file) ==>
      Kept(g, d, d', o)
    ensures done ==> file' != [] && file'[0] < TWO32
    ensures var row := PutLink(ChainBytes(g, d, cs[h]), p, WrittenAs(slot, file', |buffer|, done));
            Tied(g, d', Rewritten(cs, file'), e[h := row])
    ensures file' != [] ==> file'[0] != h
  {
    hide Tied, Sound, Tree, ChainBytes, HasClusters, FoundAt, FirstCluster, IsDotsKey, IsDir, SlotName, WriteResult,
         Kept, IsChain, Disjoint, OthersKept, RowPut, WrittenAs, PutLink, RowIs, HasSlot, FileOf, Quiet, FileChain,
         Targets;
    var b := ChainBytes(g, d, cs[h]);
    TiedParts(g, d, cs, e, h);
    FoundVisible(b, SlotName(slot), p, slot);
    FoundFile(g, d, cs, e, h, SlotName(slot), p, slot);
    WriteSound(g, d, d', cs, h, p, slot, file, file', buffer, done);
    WrittenRow(g, d, d', cs[h], p, slot, file, file', buffer, done);
    if file' != [] { HeadThere(g, d', Rewritten(cs, file'), file'); }
    WriteTree(g, d, cs, e, h, p, slot, file, file', |buffer|, done);
    WrittenFirst(slot, file', |buffer|, done);
    UsedQuiet(b, p);
    var x := WrittenAs(slot, file', |buffer|, done);
    PutRow(g, d, d', cs, Rewritten(cs, file'), h, e[h], p, x);
    var k := if file != [] then file[0] else h;
    if file != [] { NotDirectory(g, d, cs, e, h, p, slot); }
    TiedAfter(g, d, d', cs, Rewritten(cs, file'), e, e[h := PutLink(b, p, x)], h, k);
  }

  lemma HeadThere(g: Geo, d: Disk, cs: Chains, file: seq<nat>)
    requires Sound(g, d, cs) && file != [] && file[0] in cs
    ensures file[0] != 0
  {
    Member(g, d, cs, file[0]);
  }

  lemma WrittenFirst(slot: Slot, file': seq<nat>, bytes: nat, done: bool)
    requires bytes < TWO32 && (done ==> file' != [] && file'[0] < TWO32)
    ensures WrittenAs(slot, file', bytes, done)[0] == slot[0]
  {
    if done { FilledKeeps(slot, file'[0], bytes); }
  }

  // A file's chain has no links of its own.
  lemma NotDirectory(g: Geo, d: Disk, cs: Chains, e: Links, h: nat, p: nat, slot: Slot)
    requires Tied(g, d, cs, e) && h in e && h in cs && HasClusters(g, d, cs[h])
    requires FoundAt(ChainBytes(g, d, cs[h]), SlotName(slot), p, slot) && !IsDotsKey(SlotName(slot)) && !IsDir(slot)
    ensures FirstCluster(slot) !in e
  {
    hide Tied, Sound, Tree, ChainBytes, HasClusters, FoundAt, FirstCluster, IsDotsKey, IsDir, SlotName, Targets;
    TiedParts(g, d, cs, e, h);
    FoundLink(g, d, cs, e, h, SlotName(slot), p, slot);
    if FirstCluster(slot) != 0 { LinkIs(cs.Keys, g.root, e, h, p); }
    if 0 in e { TiedParts(g, d, cs, e, 0); }
  }

  // A new directory has no links.
  lemma NewTargets(g: Geo, d: Disk, f: nat, parent: nat)
    requires DiskOk(g, d) && IsCluster(g, f) && f < TWO32 && parent < TWO32
    requires ClusterSector(g, f) < |d| && d[ClusterSector(g, f)] == DirSector(f, parent)
    ensures HasClusters(g, d, [f]) && Targets(ChainBytes(g, d, [f])) == map[]
  {
    hide DotSlot, ClusterSector, ChainBytes, Name83, FirstCluster, DirSector, Targets;
    NewRow(g, d, f, parent);
    ThirdFree(g, d, f, parent);
    DotSlotGet([DOT], f);
    DotSlotGet([DOT, DOT], parent);
    OnlySlots(ChainBytes(g, d, [f]));
    forall q: nat ensures q !in Targets(ChainBytes(g, d, [f])) {
      var b := ChainBytes(g, d, [f]);
      if HasSlot(b, q) { InTargets(b, q); }
    }
  }

  lemma ThirdFree(g: Geo, d: Disk, f: nat, parent: nat)
    requires DiskOk(g, d) && IsCluster(g, f) && f < TWO32 && parent < TWO32
    requires ClusterSector(g, f) < |d| && d[ClusterSector(g, f)] == DirSector(f, parent)
    ensures HasClusters(g, d, [f]) && HasSlot(ChainBytes(g, d, [f]), 2) && SlotAt(ChainBytes(g, d, [f]), 2)[0] == 0
  {
    hide DotSlot, ClusterSector;
    ClusterInside(g, f);
    var b := ChainBytes(g, d, [f]);
    assert [f][..0] == [];
    assert ChainBytes(g, d, [f][..0]) == [];
    assert b == [] + ClusterBytes(g, d, f);
    SectorOfCluster(g, d, f, 0);
    assert b[0..512] == DirSector(f, parent);
    SliceOfSlice(b, 0, 512, 64, 96);
    assert DirSector(f, parent)[64..96][0] == 0;
  }

  lemma MkdirTied(g: Geo, d: Disk, d': Disk, cs: Chains, e: Links, h: nat, p: nat, key: seq<byte>, f: nat, parent: nat)
    requires Tied(g, d, cs, e) && h in e && h in cs && HasClusters(g, d, cs[h]) && HasSlot(ChainBytes(g, d, cs[h]), p)
    requires DirMade(g, d, d', cs[h], key, p, f, parent) && key[0] != 0 && Quiet(ChainBytes(g, d, cs[h]), p)
    ensures f !in cs && h != f
    ensures var row := PutLink(ChainBytes(g, d, cs[h]), p, DirEntry(SlotAt(ChainBytes(g, d, cs[h]), p), key, f));
            Tied(g, d', cs[f := [f]], WithDir(e, h, row, f))
  {
    hide Tied, Sound, Tree, ChainBytes, HasClusters, Quiet, PutLink, HasSlot, SlotAt, DirEntry, RowIs, OthersKept,
         DirMade, Targets, DirThere, DirSector, ClusterSector, IsCluster, TableOf, RowPut, FirstCluster, IsDir,
         DiskOk;
    var b := ChainBytes(g, d, cs[h]);
    TiedParts(g, d, cs, e, h);
    MadeParts(g, d, d', cs[h], key, p, f, parent);
    var x := DirEntry(SlotAt(b, p), key, f);
    var cs': Chains, row := cs[f := [f]], PutLink(b, p, x);
    MkdirSound(g, d, d', cs, h, key, p, f, parent);
    NewTargets(g, d', f, parent);
    PutRow(g, d, d', cs, cs', h, e[h], p, x);
    MkdirTree(g, d, cs, e, h, p, x, f);
    NewRowIs(g, d', cs', f);
    OthersLess(g, d, d', cs, h, f);
    TiedAfter(g, d, d', cs, cs', e, WithDir(e, h, row, f), h, f);
  }

  lemma OthersLess(g: Geo, d: Disk, d': Disk, cs: Chains, h: nat, f: nat)
    requires OthersKept(g, d, d', cs, h, h)
    ensures OthersKept(g, d, d', cs, h, f)
  {
    hide Kept;
  }

  lemma NewRowIs(g: Geo, d: Disk, cs: Chains, f: nat)
    requires f in cs && cs[f] == [f] && HasClusters(g, d, [f]) && Targets(ChainBytes(g, d, [f])) == map[]
    ensures RowIs(g, d, cs, f, map[])
  {
  }

  lemma MadeParts(g: Geo, d: Disk, d': Disk, dir: seq<nat>, key: seq<byte>, p: nat, f: nat, parent: nat)
    requires DirMade(g, d, d', dir, key, p, f, parent)
    ensures DiskOk(g, d') && IsCluster(g, f) && f < TWO32 && parent < TWO32 && |key| == 11
    ensures ClusterSector(g, f) < |d'| && d'[ClusterSector(g, f)] == DirSector(f, parent)
    ensures HasClusters(g, d, dir) && HasSlot(ChainBytes(g, d, dir), p)
    ensures RowPut(g, d, d', dir, p, DirEntry(SlotAt(ChainBytes(g, d, dir), p), key, f))
    ensures var x := DirEntry(SlotAt(ChainBytes(g, d, dir), p), key, f);
            x[0] == key[0] && IsDir(x) && FirstCluster(x) == f
  {
    hide ChainBytes, HasClusters, DirEntry, DirSector, IsDir, FirstCluster;
    DirEntryGet(SlotAt(ChainBytes(g, d, dir), p), key, f);
  }

  lemma MkdirTree(g: Geo, d: Disk, cs: Chains, e: Links, h: nat, p: nat, x: Slot, f: nat)
    requires Tied(g, d, cs, e) && h in e && h in cs && HasClusters(g, d, cs[h]) && HasSlot(ChainBytes(g, d, cs[h]), p)
    requires f !in cs && IsDir(x) && FirstCluster(x) == f
    ensures Tree(cs[f := [f]].Keys, g.root, WithDir(e, h, PutLink(ChainBytes(g, d, cs[h]), p, x), f))
  {
    hide Tied, Sound, Tree, ChainBytes, HasClusters, HasSlot, SlotLeads, Targets, FirstCluster, IsDir;
    TiedParts(g, d, cs, e, h);
    var b := ChainBytes(g, d, cs[h]);
    var heads, heads' := cs.Keys, cs.Keys + {f};
    assert cs[f := [f]].Keys == heads';
    RootIn(heads, g.root, e);
    if Open(b, p) && SlotLeads(x) {
      TreeHeads(heads, g.root, e, f);
      FreshNoLink(heads, g.root, e, f);
      var e1: Links := e[f := map[]];
      TreeMore(heads', g.root, e1, h, p, LinkOf(x));
      assert WithLink(e1, h, p, LinkOf(x)) == WithDir(e, h, PutLink(b, p, x), f);
    } else {
      TreeLess(heads, g.root, e, h, p);
      TreeHeads(heads, g.root, e[h := e[h] - {p}], f);
    }
  }

  lemma RmdirTied(g: Geo, d: Disk, d': Disk, cs: Chains, e: Links, h: nat, p: nat, key: seq<byte>, slot: Slot)
    requires Tied(g, d, cs, e) && h in e && h in cs && HasClusters(g, d, cs[h])
    requires FoundAt(ChainBytes(g, d, cs[h]), key, p, slot) && !IsDotsKey(key)
    requires DirRemoved(g, d, d', cs[h], key, p)
    ensures FirstCluster(slot) != h
    ensures Tied(g, d', cs - {FirstCluster(slot)}, e[h := e[h] - {p}] - {FirstCluster(slot)})
  {
    hide Tied, ChainBytes, HasClusters, DirRemoved, FoundAt, IsDotsKey, FirstCluster;
    FoundFile(g, d, cs, e, h, key, p, slot);
    if FirstCluster(slot) == 0 {
      RmdirNone(g, d, d', cs, e, h, p, key, slot);
    } else {
      RmdirSome(g, d, d', cs, e, h, p, key, slot);
    }
  }

  lemma RmdirNone(g: Geo, d: Disk, d': Disk, cs: Chains, e: Links, h: nat, p: nat, key: seq<byte>, slot: Slot)
    requires Tied(g, d, cs, e) && h in e && h in cs && HasClusters(g, d, cs[h])
    requires FoundAt(ChainBytes(g, d, cs[h]), key, p, slot) && DirRemoved(g, d, d', cs[h], key, p)
    requires FirstCluster(slot) == 0
    ensures h != 0 && Tied(g, d', cs - {0}, e[h := e[h] - {p}] - {0})
  {
    hide Tied, Sound, Tree, ChainBytes, HasClusters, Quiet, PutLink, HasSlot, DirRemoved, FoundAt, FirstCluster,
         SlotLeads, SlotStored, FirstHit, Open, InUse, Targets, TableOf, IsChain;
    var b := ChainBytes(g, d, cs[h]);
    TiedParts(g, d, cs, e, h);
    FoundVisible(b, key, p, slot);
    RemovedAt(g, d, d', cs[h], key, p);
    MarkedLeads(slot);
    UsedQuiet(b, p);
    NothingFreed(g, d, d', cs[h], key, p);
    LessLinks(g, d, cs, e, h, p, slot[0 := DELETED]);
    StoreTied(g, d, d', cs, e, h, p, slot[0 := DELETED]);
    if 0 in cs { Member(g, d, cs, 0); }
    assert cs - {0} == cs && e[h := e[h] - {p}] - {0} == e[h := e[h] - {p}];
  }

  lemma RmdirSome(g: Geo, d: Disk, d': Disk, cs: Chains, e: Links, h: nat, p: nat, key: seq<byte>, slot: Slot)
    requires Tied(g, d, cs, e) && h in e && h in cs && HasClusters(g, d, cs[h]) && !IsDotsKey(key)
    requires FoundAt(ChainBytes(g, d, cs[h]), key, p, slot) && DirRemoved(g, d, d', cs[h], key, p)
    requires FirstCluster(slot) != 0
    ensures FirstCluster(slot) != h
    ensures Tied(g, d', cs - {FirstCluster(slot)}, e[h := e[h] - {p}] - {FirstCluster(slot)})
  {
    hide Tied, Sound, Tree, ChainBytes, HasClusters, Quiet, PutLink, HasSlot, RowIs, OthersKept, DirRemoved, FoundAt,
         Targets, IsDotsKey, LinkOk, FirstCluster, SlotLeads, RowPut, FirstHit, Open, InUse, TableOf, IsChain, NoLink;
    var b, c := ChainBytes(g, d, cs[h]), FirstCluster(slot);
    var x: Slot := slot[0 := DELETED];
    TiedParts(g, d, cs, e, h);
    FoundVisible(b, key, p, slot);
    FoundLink(g, d, cs, e, h, key, p, slot);
    LinkInside(cs.Keys, g.root, e, h, p);
    MarkedLeads(slot);
    UsedQuiet(b, p);
    LessLinks(g, d, cs, e, h, p, x);
    RemovedRow(g, d, d', cs[h], key, p);
    RmdirSound(g, d, d', cs, h, c, key, p);
    LastLink(cs.Keys, g.root, e, h, p);
    var e1: Links := e[h := e[h] - {p}];
    TreeDrop(cs.Keys, g.root, e1, c);
    assert (cs - {c}).Keys == cs.Keys - {c};
    PutRow(g, d, d', cs, cs - {c}, h, e[h], p, x);
    TiedAfter(g, d, d', cs, cs - {c}, e, e1 - {c}, h, c);
  }

  lemma LinkInside(heads: set<nat>, root: nat, e: Links, h: nat, p: nat)
    requires Tree(heads, root, e) && h in e && p in e[h]
    ensures e[h][p].to in heads && e[h][p].to != h
  {
    LinkIs(heads, root, e, h, p);
  }

  lemma RemovedAt(g: Geo, d: Disk, d': Disk, dir: seq<nat>, key: seq<byte>, p: nat)
    requires DirRemoved(g, d, d', dir, key, p)
    ensures HasClusters(g, d, dir) && HasSlot(ChainBytes(g, d, dir), p)
  {
    RemovedRow(g, d, d', dir, key, p);
  }

  lemma MarkedLeads(slot: Slot)
    ensures slot[0 := DELETED][0] != 0 && !SlotLeads(slot[0 := DELETED])
    ensures InUse(slot) ==> slot[0] != 0
  {
  }

  lemma RemovedRow(g: Geo, d: Disk, d': Disk, dir: seq<nat>, key: seq<byte>, p: nat)
    requires DirRemoved(g, d, d', dir, key, p)
    ensures HasClusters(g, d, dir) && HasSlot(ChainBytes(g, d, dir), p)
    ensures RowPut(g, d, d', dir, p, SlotAt(ChainBytes(g, d, dir), p)[0 := DELETED])
  {
    hide ChainBytes, HasClusters, FreedFrom, Touches, SameReserved;
  }

  // A directory without a cluster: only its slot changes.
  lemma NothingFreed(g: Geo, d: Disk, d': Disk, dir: seq<nat>, key: seq<byte>, p: nat)
    requires DirRemoved(g, d, d', dir, key, p) && FirstCluster(SlotAt(ChainBytes(g, d, dir), p)) == 0
    ensures HasClusters(g, d, dir) && HasSlot(ChainBytes(g, d, dir), p)
    ensures SlotStored(g, d, d', dir, p, SlotAt(ChainBytes(g, d, dir), p)[0 := DELETED])
  {
    hide ChainBytes, HasClusters, Touches, SameReserved, FirstCluster, Reaches, TableOf;
    assert TableOf(g, d') == TableOf(g, d);
  }

  // The state after the call: the directory's own links are those of its slots.
  ghost predicate Settled(g: Geo, d': Disk, cs: Chains, e: Links, h: nat, c: Call, slot: Slot)
    requires h in cs
  {
    HasClusters(g, d', cs[h])
    && Tied(g, d', ChainsAfter(cs, c, slot), LinksAfter(e, h, Targets(ChainBytes(g, d', cs[h])), c, slot))
  }

  lemma Settle(g: Geo, d': Disk, cs: Chains, e: Links, h: nat, c: Call, slot: Slot, e': Links)
    requires h in cs && Tied(g, d', ChainsAfter(cs, c, slot), e') && h in e'
    requires h in ChainsAfter(cs, c, slot) && ChainsAfter(cs, c, slot)[h] == cs[h]
    requires e' == LinksAfter(e, h, e'[h], c, slot)
    ensures Settled(g, d', cs, e, h, c, slot)
  {
    hide Tied, Sound, Tree, ChainBytes, HasClusters, Targets, LinksAfter, ChainsAfter;
    TiedParts(g, d', ChainsAfter(cs, c, slot), e', h);
  }

  lemma CreateSettles(g: Geo, d: Disk, d': Disk, cs: Chains, e: Links, h: nat, c: Call, p: nat)
    requires Tied(g, d, cs, e) && h in e && h in cs && (c.Create? || c.Delete?)
    requires Called(g, d, d', cs[h], c, p) && Fit(g, d, cs, cs[h], c, p)
    ensures Settled(g, d', cs, e, h, c, SlotAt(ChainBytes(g, d, cs[h]), p))
  {
    hide Tied, Sound, Tree, ChainBytes, HasClusters, Targets, SlotStored, Quiet, FoundAt, FirstHit, Name83, IsDotsKey,
         Fresh;
    var b := ChainBytes(g, d, cs[h]);
    var slot := SlotAt(b, p);
    if c.Create? {
      KeyNotZero(c.name);
      FreshGet(slot, Name83(c.name), c.attr);
      var x := Fresh(slot, Name83(c.name), c.attr);
      assert x[0] == SlotName(x)[0];
      CreateTied(g, d, d', cs, e, h, p, x);
    } else {
      FoundVisible(b, Name83(c.name), p, slot);
      MarkedLeads(slot);
      UsedQuiet(b, p);
      CreateTied(g, d, d', cs, e, h, p, slot[0 := DELETED]);
    }
    Settle(g, d', cs, e, h, c, slot, e[h := e[h] - {p}]);
  }

  lemma RenameSettles(g: Geo, d: Disk, d': Disk, cs: Chains, e: Links, h: nat, c: Call, p: nat)
    requires Tied(g, d, cs, e) && h in e && h in cs && c.Renaming?
    requires Called(g, d, d', cs[h], c, p) && Fit(g, d, cs, cs[h], c, p)
    ensures Settled(g, d', cs, e, h, c, SlotAt(ChainBytes(g, d, cs[h]), p))
  {
    hide Tied, Sound, Tree, ChainBytes, HasClusters, Targets, SlotStored, FirstHit, Name83, IsDotsKey, PutLink;
    var b := ChainBytes(g, d, cs[h]);
    var x := WithName(SlotAt(b, p), Name83(c.to));
    RenameTied(g, d, d', cs, e, h, p, Name83(c.name), c.to);
    Settle(g, d', cs, e, h, c, SlotAt(b, p), e[h := PutLink(b, p, x)]);
  }

  lemma WriteSettles(g: Geo, d: Disk, d': Disk, cs: Chains, e: Links, h: nat, c: Call, p: nat)
    requires Tied(g, d, cs, e) && h in e && h in cs && c.Write?
    requires Called(g, d, d', cs[h], c, p) && Fit(g, d, cs, cs[h], c, p)
    ensures c.file' != [] ==> c.file'[0] != h
    ensures Settled(g, d', cs, e, h, c, SlotAt(ChainBytes(g, d, cs[h]), p))
  {
    hide Tied, Sound, Tree, ChainBytes, HasClusters, Targets, FoundAt, Name83, IsDotsKey, PutLink, WriteResult, Kept,
         IsChain, Disjoint, FileOf, WrittenAs, IsDir;
    var b := ChainBytes(g, d, cs[h]);
    var slot := SlotAt(b, p);
    FoundVisible(b, Name83(c.name), p, slot);
    WriteTied(g, d, d', cs, e, h, p, slot, c.file, c.file', c.buffer, c.done);
    var row := PutLink(b, p, WrittenAs(slot, c.file', |c.buffer|, c.done));
    Settle(g, d', cs, e, h, c, slot, e[h := row]);
  }

  lemma MkdirSettles(g: Geo, d: Disk, d': Disk, cs: Chains, e: Links, h: nat, c: Call, p: nat)
    requires Tied(g, d, cs, e) && h in e && h in cs && c.MakeDir?
    requires Called(g, d, d', cs[h], c, p) && Fit(g, d, cs, cs[h], c, p)
    ensures c.f !in cs && Settled(g, d', cs, e, h, c, SlotAt(ChainBytes(g, d, cs[h]), p))
  {
    hide Tied, Sound, Tree, ChainBytes, HasClusters, Targets, Name83, IsDotsKey, PutLink, DirMade, Quiet, DirEntry;
    var b := ChainBytes(g, d, cs[h]);
    var key := Name83(c.name);
    KeyNotZero(c.name);
    MadeParts(g, d, d', cs[h], key, p, c.f, c.parent);
    MkdirTied(g, d, d', cs, e, h, p, key, c.f, c.parent);
    var row := PutLink(b, p, DirEntry(SlotAt(b, p), key, c.f));
    Settle(g, d', cs, e, h, c, SlotAt(b, p), WithDir(e, h, row, c.f));
  }

  lemma RmdirSettles(g: Geo, d: Disk, d': Disk, cs: Chains, e: Links, h: nat, c: Call, p: nat)
    requires Tied(g, d, cs, e) && h in e && h in cs && c.RemoveDir?
    requires Called(g, d, d', cs[h], c, p) && Fit(g, d, cs, cs[h], c, p)
    ensures FirstCluster(SlotAt(ChainBytes(g, d, cs[h]), p)) != h
    ensures Settled(g, d', cs, e, h, c, SlotAt(ChainBytes(g, d, cs[h]), p))
  {
    hide Tied, Sound, Tree, ChainBytes, HasClusters, Targets, Name83, IsDotsKey, DirRemoved, FoundAt, FirstCluster;
    var slot := SlotAt(ChainBytes(g, d, cs[h]), p);
    RmdirTied(g, d, d', cs, e, h, p, Name83(c.name), slot);
    Settle(g, d', cs, e, h, c, slot, e[h := e[h] - {p}] - {FirstCluster(slot)});
  }

  // Every call keeps the tree, and what it makes of it is known.
  lemma CallTied(g: Geo, d: Disk, d': Disk, cs: Chains, e: Links, h: nat, c: Call, p: nat)
    requires Tied(g, d, cs, e) && h in e && h in cs && Called(g, d, d', cs[h], c, p) && Fit(g, d, cs, cs[h], c, p)
    ensures Settled(g, d', cs, e, h, c, SlotAt(ChainBytes(g, d, cs[h]), p))
  {
    hide Tied, Called, Fit, Settled, ChainBytes, HasClusters;
    CalledParts(g, d, d', cs[h], c, p);
    match c {
      case Create(_, _) => CreateSettles(g, d, d', cs, e, h, c, p);
      case Delete(_) => CreateSettles(g, d, d', cs, e, h, c, p);
      case Renaming(_, _) => RenameSettles(g, d, d', cs, e, h, c, p);
      case Write(_, _, _, _, _) => WriteSettles(g, d, d', cs, e, h, c, p);
      case MakeDir(_, _, _) => MkdirSettles(g, d, d', cs, e, h, c, p);
      case RemoveDir(_) => RmdirSettles(g, d, d', cs, e, h, c, p);
    }
  }

  lemma CalledParts(g: Geo, d: Disk, d': Disk, dir: seq<nat>, c: Call, p: nat)
    requires Called(g, d, d', dir, c, p)
    ensures DiskOk(g, d) && HasClusters(g, d, dir) && HasSlot(ChainBytes(g, d, dir), p)
  {
  }

  // ---- runs ----

  datatype Stage = Stage(disk: Disk, chains: Chains, links: Links)

  // A call in the directory that begins at cluster dir, through its slot p.
  datatype Event = Event(dir: nat, call: Call, slot: nat)

  ghost predicate Happens(g: Geo, s: Stage, ev: Event, s': Stage) {
    && ev.dir in s.links && ev.dir in s.chains
    && Called(g, s.disk, s'.disk, s.chains[ev.dir], ev.call, ev.slot)
    && Fit(g, s.disk, s.chains, s.chains[ev.dir], ev.call, ev.slot)
    && HasClusters(g, s'.disk, s.chains[ev.dir])
    && var was := SlotAt(ChainBytes(g, s.disk, s.chains[ev.dir]), ev.slot);
       && s'.chains == ChainsAfter(s.chains, ev.call, was)
       && s'.links == LinksAfter(s.links, ev.dir, Targets(ChainBytes(g, s'.disk, s.chains[ev.dir])), ev.call, was)
  }

  ghost predicate StageOk(g: Geo, s: Stage) {
    Tied(g, s.disk, s.chains, s.links)
  }

  lemma EventTied(g: Geo, s: Stage, ev: Event, s': Stage)
    requires StageOk(g, s) && Happens(g, s, ev, s')
    ensures StageOk(g, s')
  {
    hide Tied, Called, Fit, ChainBytes, HasClusters, Targets, ChainsAfter, LinksAfter;
    CalledParts(g, s.disk, s'.disk, s.chains[ev.dir], ev.call, ev.slot);
    CallTied(g, s.disk, s'.disk, s.chains, s.links, ev.dir, ev.call, ev.slot);
  }

  ghost predicate IsRun(g: Geo, ss: seq<Stage>, es: seq<Event>) {
    |ss| == |es| + 1 && forall n | 0 <= n < |es| :: Happens(g, ss[n], es[n], ss[n + 1])
  }

  // Over every run the volume stays a tree: no two chains come to share a
  // cluster, none loops, and every name leads to a chain of its own.
  lemma {:induction false} RunTied(g: Geo, ss: seq<Stage>, es: seq<Event>, n: nat)
    requires IsRun(g, ss, es) && StageOk(g, ss[0]) && n < |ss|
    ensures StageOk(g, ss[n]) && Sound(g, ss[n].disk, ss[n].chains)
    decreases n
  {
    hide Happens, Sound, Tree, RowIs;
    if n > 0 {
      RunTied(g, ss, es, n - 1);
      assert Happens(g, ss[n - 1], es[n - 1], ss[n - 1 + 1]);
      EventTied(g, ss[n - 1], es[n - 1], ss[n]);
    }
  }

  // ---- a file while others are worked on ----

  // The call is made in another directory, or under other names, and does not
  // remove this directory.
  ghost predicate Away(g: Geo, s: Stage, ev: Event, h: nat, key: seq<byte>)
    requires ev.dir in s.chains && HasClusters(g, s.disk, s.chains[ev.dir])
    requires HasSlot(ChainBytes(g, s.disk, s.chains[ev.dir]), ev.slot)
  {
    && (ev.dir == h ==> Name83(ev.call.name) != key && (ev.call.Renaming? ==> Name83(ev.call.to) != key))
    && (ev.call.RemoveDir? ==> FirstCluster(SlotAt(ChainBytes(g, s.disk, s.chains[ev.dir]), ev.slot)) != h)
  }

  // The name of a file, not of a directory, in directory h.
  ghost predicate IsFile(g: Geo, d: Disk, cs: Chains, e: Links, h: nat, key: seq<byte>, q: nat, slot: Slot) {
    && h in e && h in cs && HasClusters(g, d, cs[h]) && FoundAt(ChainBytes(g, d, cs[h]), key, q, slot)
    && !IsDotsKey(key) && !IsDir(slot)
  }

  lemma FileParts(g: Geo, d: Disk, cs: Chains, e: Links, h: nat, key: seq<byte>, q: nat, slot: Slot)
    requires Tied(g, d, cs, e) && IsFile(g, d, cs, e, h, key, q, slot)
    ensures DirThere(g, d, cs[h]) && FoundAt(ChainBytes(g, d, cs[h]), key, q, slot) && SlotName(slot) == key
    ensures FileChain(TableOf(g, d), cs[h], slot, FileOf(cs, slot)) && Sound(g, d, cs) && h in cs
    ensures FirstCluster(slot) !in e && (FirstCluster(slot) in cs || FirstCluster(slot) == 0)
    ensures FileOf(cs, slot) != [] ==> FileOf(cs, slot) == cs[FirstCluster(slot)]
  {
    hide Tied, Sound, Tree, ChainBytes, FoundAt, FileChain, TableOf, FirstCluster, IsDotsKey, Name83, IsChain, SlotName;
    TiedParts(g, d, cs, e, h);
    FoundVisible(ChainBytes(g, d, cs[h]), key, q, slot);
    FoundFile(g, d, cs, e, h, key, q, slot);
    NotDirectory(g, d, cs, e, h, q, slot);
  }

  // A directory's chain shares nothing with the file or its directory.
  lemma DirApart(g: Geo, d: Disk, cs: Chains, e: Links, h: nat, key: seq<byte>, q: nat, slot: Slot, k: nat)
    requires Tied(g, d, cs, e) && IsFile(g, d, cs, e, h, key, q, slot) && k in e && k in cs && k != h
    ensures Disjoint(cs[h], cs[k]) && Disjoint(FileOf(cs, slot), cs[k])
  {
    hide Tied, Sound, Tree, ChainBytes, FoundAt, FileChain, TableOf, FirstCluster, IsDotsKey, IsChain, IsFile, DirThere,
         Disjoint;
    FileParts(g, d, cs, e, h, key, q, slot);
    MembersApart(g, d, cs, h, k);
    if FileOf(cs, slot) != [] {
      MembersApart(g, d, cs, FirstCluster(slot), k);
    } else {
      OneEmpty(FileOf(cs, slot), cs[k]);
    }
  }

  // Nor does another file's or the removed directory's.
  lemma OtherApart(g: Geo, d: Disk, cs: Chains, e: Links, h: nat, key: seq<byte>, q: nat, slot: Slot,
                   k: nat, key2: seq<byte>, p: nat, slot2: Slot)
    requires Tied(g, d, cs, e) && IsFile(g, d, cs, e, h, key, q, slot) && FirstCluster(slot2) != h
    requires k in e && k in cs && HasClusters(g, d, cs[k]) && FoundAt(ChainBytes(g, d, cs[k]), key2, p, slot2)
    requires !IsDotsKey(key2) && (k == h ==> key2 != key)
    ensures Disjoint(cs[h], FileOf(cs, slot2)) && Disjoint(FileOf(cs, slot), FileOf(cs, slot2))
  {
    hide Tied, Sound, Tree, ChainBytes, FoundAt, FileChain, TableOf, FirstCluster, IsDotsKey, IsChain, DirThere,
         Disjoint, FileOf, HasClusters;
    FileParts(g, d, cs, e, h, key, q, slot);
    FoundVisible(ChainBytes(g, d, cs[k]), key2, p, slot2);
    FoundFile(g, d, cs, e, k, key2, p, slot2);
    assert k == h ==> p != q by { FoundVisible(ChainBytes(g, d, cs[h]), key, q, slot); }
    FilesApart(g, d, cs, e, h, key, q, slot, k, key2, p, slot2);
    if FileOf(cs, slot2) != [] {
      MembersApart(g, d, cs, h, FirstCluster(slot2));
    } else {
      OneEmpty(cs[h], FileOf(cs, slot2));
    }
  }

  // The removed directory leads to nothing of the two.
  lemma RemovedApart(g: Geo, d: Disk, cs: Chains, e: Links, h: nat, key: seq<byte>, q: nat, slot: Slot,
                     k: nat, key2: seq<byte>, p: nat, slot2: Slot)
    requires Tied(g, d, cs, e) && IsFile(g, d, cs, e, h, key, q, slot) && FirstCluster(slot2) != h
    requires k in e && k in cs && HasClusters(g, d, cs[k]) && FoundAt(ChainBytes(g, d, cs[k]), key2, p, slot2)
    requires !IsDotsKey(key2) && (k == h ==> key2 != key)
    ensures DiskOk(g, d) && forall x | x in cs[h] + FileOf(cs, slot) :: !Reaches(TableOf(g, d), FirstCluster(slot2), x)
  {
    hide Tied, Sound, Tree, ChainBytes, FoundAt, FileChain, TableOf, FirstCluster, IsDotsKey, IsChain, IsFile, Reaches,
         HasClusters;
    FileParts(g, d, cs, e, h, key, q, slot);
    OtherApart(g, d, cs, e, h, key, q, slot, k, key2, p, slot2);
    FoundFile(g, d, cs, e, k, key2, p, slot2);
    var t, c := TableOf(g, d), FirstCluster(slot2);
    forall x | x in cs[h] + FileOf(cs, slot) ensures !Reaches(t, c, x) {
      if c == 0 {
        ZeroReaches(t, x);
      } else {
        Member(g, d, cs, c);
        ChainReaches(t, cs[c], x);
      }
    }
  }

  lemma ZeroReaches(t: Table, x: nat)
    ensures !Reaches(t, 0, x)
  {
  }

  // Calls in the file's own directory.
  lemma SameDirKeeps(g: Geo, d: Disk, d': Disk, cs: Chains, e: Links, h: nat, key: seq<byte>, q: nat, slot: Slot,
                     c: Call, p: nat)
    requires Tied(g, d, cs, e) && IsFile(g, d, cs, e, h, key, q, slot)
    requires Called(g, d, d', cs[h], c, p) && Fit(g, d, cs, cs[h], c, p)
    requires Name83(c.name) != key && (c.Renaming? ==> Name83(c.to) != key)
    requires c.RemoveDir? ==> FirstCluster(SlotAt(ChainBytes(g, d, cs[h]), p)) != h
    ensures SameFile(g, d, d', cs[h], key, q, slot, FileOf(cs, slot))
  {
    hide Tied, ChainBytes, FoundAt, FileChain, SlotStored, WriteResult, DirMade, DirRemoved, Kept, TableOf, IsChain,
         Fresh, Disjoint, Name83, FirstHit, Reaches, FirstCluster, SameFile, HasSlot, FileOf, IsDotsKey, IsDir, Quiet,
         DirThere;
    var b, file := ChainBytes(g, d, cs[h]), FileOf(cs, slot);
    FileParts(g, d, cs, e, h, key, q, slot);
    match c {
      case Create(name, attr) => CreateOther(g, d, d', cs[h], key, q, slot, file, p, name, attr);
      case Delete(name) => DeleteOther(g, d, d', cs[h], key, q, slot, file, p, Name83(name), SlotAt(b, p));
      case Renaming(name, to) => RenameOther(g, d, d', cs[h], key, q, slot, file, p, Name83(name), to);
      case Write(name, wfile, wfile', buffer, done) =>
        WrittenNotDir(g, d, cs, e, h, Name83(name), p, SlotAt(b, p));
        OtherApart(g, d, cs, e, h, key, q, slot, h, Name83(name), p, SlotAt(b, p));
        WriteOther(g, d, d', cs[h], key, q, slot, file, p, Name83(name), SlotAt(b, p), wfile, wfile', buffer, done);
      case MakeDir(name, f, parent) => MkdirOther(g, d, d', cs[h], key, q, slot, file, p, name, f, parent);
      case RemoveDir(name) =>
        RemovedApart(g, d, cs, e, h, key, q, slot, h, Name83(name), p, SlotAt(b, p));
        RmdirOther(g, d, d', cs[h], key, q, slot, file, p, Name83(name));
    }
  }

  // What is written as a file is not a directory's chain.
  lemma WrittenNotDir(g: Geo, d: Disk, cs: Chains, e: Links, k: nat, key: seq<byte>, p: nat, slot: Slot)
    requires Tied(g, d, cs, e) && k in e && k in cs && HasClusters(g, d, cs[k])
    requires FoundAt(ChainBytes(g, d, cs[k]), key, p, slot) && !IsDotsKey(key) && !IsDir(slot)
    ensures FirstCluster(slot) !in e
  {
    hide Tied, ChainBytes, FoundAt, IsDotsKey, FirstCluster, IsDir, SlotName;
    FoundVisible(ChainBytes(g, d, cs[k]), key, p, slot);
    NotDirectory(g, d, cs, e, k, p, slot);
  }

  // Calls in another directory.
  lemma ElsewhereKeeps(g: Geo, d: Disk, d': Disk, cs: Chains, e: Links, h: nat, key: seq<byte>, q: nat, slot: Slot,
                       k: nat, c: Call, p: nat)
    requires Tied(g, d, cs, e) && IsFile(g, d, cs, e, h, key, q, slot) && k in e && k in cs && k != h
    requires Called(g, d, d', cs[k], c, p) && Fit(g, d, cs, cs[k], c, p)
    requires c.RemoveDir? ==> FirstCluster(SlotAt(ChainBytes(g, d, cs[k]), p)) != h
    ensures SameFile(g, d, d', cs[h], key, q, slot, FileOf(cs, slot))
  {
    hide Tied, ChainBytes, FoundAt, FileChain, SlotStored, WriteResult, DirMade, DirRemoved, Kept, TableOf, IsChain,
         Fresh, Disjoint, Name83, FirstHit, Reaches, FirstCluster, SameFile, HasSlot, FileOf, IsDotsKey, IsDir, Quiet,
         DirThere, WithName;
    var b, file := ChainBytes(g, d, cs[k]), FileOf(cs, slot);
    FileParts(g, d, cs, e, h, key, q, slot);
    DirApart(g, d, cs, e, h, key, q, slot, k);
    match c {
      case Create(name, attr) =>
        StoreElsewhere(g, d, d', cs[h], key, q, slot, file, cs[k], p, Fresh(SlotAt(b, p), Name83(name), attr));
      case Delete(name) => StoreElsewhere(g, d, d', cs[h], key, q, slot, file, cs[k], p, SlotAt(b, p)[0 := DELETED]);
      case Renaming(name, to) =>
        StoreElsewhere(g, d, d', cs[h], key, q, slot, file, cs[k], p, WithName(SlotAt(b, p), Name83(to)));
      case Write(name, wfile, wfile', buffer, done) =>
        WrittenNotDir(g, d, cs, e, k, Name83(name), p, SlotAt(b, p));
        OtherApart(g, d, cs, e, h, key, q, slot, k, Name83(name), p, SlotAt(b, p));
        WriteElsewhere(g, d, d', cs[h], key, q, slot, file, cs[k], wfile);
      case MakeDir(name, f, parent) =>
        MkdirElsewhere(g, d, d', cs[h], key, q, slot, file, cs[k], Name83(name), p, f, parent);
      case RemoveDir(name) =>
        RemovedApart(g, d, cs, e, h, key, q, slot, k, Name83(name), p, SlotAt(b, p));
        RmdirElsewhere(g, d, d', cs[h], key, q, slot, file, cs[k], Name83(name), p);
    }
  }

  // The file's own entry and chain are still there afterwards.
  lemma FileStays(g: Geo, s: Stage, s': Stage, ev: Event, h: nat, key: seq<byte>, q: nat, slot: Slot)
    requires StageOk(g, s) && IsFile(g, s.disk, s.chains, s.links, h, key, q, slot) && Happens(g, s, ev, s')
    requires Away(g, s, ev, h, key)
    requires SameFile(g, s.disk, s'.disk, s.chains[h], key, q, slot, FileOf(s.chains, slot))
    ensures h in s'.chains && s'.chains[h] == s.chains[h] && FileOf(s'.chains, slot) == FileOf(s.chains, slot)
    ensures IsFile(g, s'.disk, s'.chains, s'.links, h, key, q, slot)
  {
    hide Tied, ChainBytes, FoundAt, FileChain, SlotStored, WriteResult, DirMade, DirRemoved, Kept, TableOf, IsChain,
         Fresh, Disjoint, FirstHit, FirstCluster, HasSlot, Quiet, Targets, IsDotsKey, IsDir, HasClusters;
    var b, c := ChainBytes(g, s.disk, s.chains[ev.dir]), ev.call;
    FileParts(g, s.disk, s.chains, s.links, h, key, q, slot);
    CalledParts(g, s.disk, s'.disk, s.chains[ev.dir], c, ev.slot);
    var was := SlotAt(b, ev.slot);
    HeadsStay(g, s, s', ev, h, key, q, slot, was);
  }

  // No call takes the head of the directory or of the file from the chains.
  lemma HeadsStay(g: Geo, s: Stage, s': Stage, ev: Event, h: nat, key: seq<byte>, q: nat, slot: Slot, was: Slot)
    requires StageOk(g, s) && IsFile(g, s.disk, s.chains, s.links, h, key, q, slot) && Happens(g, s, ev, s')
    requires HasClusters(g, s.disk, s.chains[ev.dir]) && HasSlot(ChainBytes(g, s.disk, s.chains[ev.dir]), ev.slot)
    requires was == SlotAt(ChainBytes(g, s.disk, s.chains[ev.dir]), ev.slot) && Away(g, s, ev, h, key)
    ensures var cs' := ChainsAfter(s.chains, ev.call, was);
            && h in cs' && cs'[h] == s.chains[h] && FileOf(cs', slot) == FileOf(s.chains, slot)
    ensures h in s'.links
  {
    hide Tied, ChainBytes, FoundAt, SlotStored, WriteResult, DirMade, DirRemoved, TableOf, Fresh, Kept, IsChain,
         Disjoint, FirstHit, FirstCluster, HasSlot, Quiet, Targets, IsDotsKey, IsDir, HasClusters, Name83;
    var cs, e, c, k := s.chains, s.links, ev.call, ev.dir;
    FileParts(g, s.disk, cs, e, h, key, q, slot);
    NoneAtZero(g, s.disk, cs);
    if c.Write? {
      WrittenNotDir(g, s.disk, cs, e, k, Name83(c.name), ev.slot, was);
      OtherApart(g, s.disk, cs, e, h, key, q, slot, k, Name83(c.name), ev.slot, was);
      WrittenHead(g, s.disk, s'.disk, cs, e, k, c, ev.slot, was);
      NotSame(cs, slot, was);
    } else if c.MakeDir? {
      MkdirSettles(g, s.disk, s'.disk, cs, e, k, c, ev.slot);
      MadeParts(g, s.disk, s'.disk, cs[k], Name83(c.name), ev.slot, c.f, c.parent);
    } else if c.RemoveDir? {
      OtherApart(g, s.disk, cs, e, h, key, q, slot, k, Name83(c.name), ev.slot, was);
      NotSame(cs, slot, was);
    }
  }

  lemma NoneAtZero(g: Geo, d: Disk, cs: Chains)
    requires Sound(g, d, cs)
    ensures 0 !in cs && forall h <- cs :: cs[h] != [] && cs[h][0] == h
  {
    hide IsChain;
    if 0 in cs { Member(g, d, cs, 0); }
    forall h | h in cs ensures cs[h] != [] { Member(g, d, cs, h); }
  }

  lemma NotSame(cs: Chains, slot: Slot, was: Slot)
    requires Disjoint(FileOf(cs, slot), FileOf(cs, was)) && forall h <- cs :: cs[h] != []
    ensures FirstCluster(slot) in cs ==> FirstCluster(was) != FirstCluster(slot)
  {
    hide FirstCluster;
    assert FileOf(cs, slot) != [] ==> FileOf(cs, slot)[0] in FileOf(cs, slot);
  }

  // The chain written heads like the file's own, or like none before.
  lemma WrittenHead(g: Geo, d: Disk, d': Disk, cs: Chains, e: Links, k: nat, c: Call, p: nat, was: Slot)
    requires Tied(g, d, cs, e) && k in e && k in cs && c.Write?
    requires Called(g, d, d', cs[k], c, p) && Fit(g, d, cs, cs[k], c, p) && was == SlotAt(ChainBytes(g, d, cs[k]), p)
    ensures c.file' != [] ==> c.file'[0] != 0 && (c.file'[0] !in cs || c.file'[0] == FirstCluster(was))
  {
    hide Tied, ChainBytes, FoundAt, WriteResult, Kept, IsChain, Disjoint, FirstCluster, Name83, IsDotsKey, IsDir,
         Sound, TableOf, OthersKept, HasClusters;
    TiedParts(g, d, cs, e, k);
    FoundFile(g, d, cs, e, k, Name83(c.name), p, was);
    WriteSound(g, d, d', cs, k, p, was, c.file, c.file', c.buffer, c.done);
    if c.file' != [] { HeadThere(g, d', Rewritten(cs, c.file'), c.file'); }
  }

  lemma EventKeepsFile(g: Geo, s: Stage, s': Stage, ev: Event, h: nat, key: seq<byte>, q: nat, slot: Slot)
    requires StageOk(g, s) && IsFile(g, s.disk, s.chains, s.links, h, key, q, slot) && Happens(g, s, ev, s')
    requires Away(g, s, ev, h, key)
    ensures SameFile(g, s.disk, s'.disk, s.chains[h], key, q, slot, FileOf(s.chains, slot))
    ensures h in s'.chains && s'.chains[h] == s.chains[h] && FileOf(s'.chains, slot) == FileOf(s.chains, slot)
    ensures IsFile(g, s'.disk, s'.chains, s'.links, h, key, q, slot)
  {
    hide Tied, Called, Fit, ChainBytes, FoundAt, SameFile, HasClusters, Targets, ChainsAfter, LinksAfter, FileOf,
         FirstCluster, Name83, HasSlot;
    CalledParts(g, s.disk, s'.disk, s.chains[ev.dir], ev.call, ev.slot);
    if ev.dir == h {
      SameDirKeeps(g, s.disk, s'.disk, s.chains, s.links, h, key, q, slot, ev.call, ev.slot);
    } else {
      ElsewhereKeeps(g, s.disk, s'.disk, s.chains, s.links, h, key, q, slot, ev.dir, ev.call, ev.slot);
    }
    FileStays(g, s, s', ev, h, key, q, slot);
  }

  ghost predicate AllAway(g: Geo, ss: seq<Stage>, es: seq<Event>, h: nat, key: seq<byte>)
    requires IsRun(g, ss, es)
  {
    forall n | 0 <= n < |es| :: Happens(g, ss[n], es[n], ss[n + 1]) && Away(g, ss[n], es[n], h, key)
  }

  lemma StepAway(g: Geo, ss: seq<Stage>, es: seq<Event>, h: nat, key: seq<byte>, n: nat)
    requires IsRun(g, ss, es) && AllAway(g, ss, es, h, key) && n < |es|
    ensures Happens(g, ss[n], es[n], ss[n + 1]) && Away(g, ss[n], es[n], h, key)
  {
    hide Called, Fit, ChainBytes, HasClusters, Targets, FirstCluster, Name83;
  }

  lemma FileThere(g: Geo, s: Stage, h: nat, key: seq<byte>, q: nat, slot: Slot)
    requires StageOk(g, s) && IsFile(g, s.disk, s.chains, s.links, h, key, q, slot)
    ensures h in s.chains && SameFile(g, s.disk, s.disk, s.chains[h], key, q, slot, FileOf(s.chains, slot))
  {
    hide Tied, FoundAt, ChainBytes, FileOf, SameFile, FileChain, FirstCluster;
    FileParts(g, s.disk, s.chains, s.links, h, key, q, slot);
    SameStart(g, s.disk, s.chains[h], key, q, slot, FileOf(s.chains, slot));
  }

  // Over every run of calls in other directories or under other names a file is
  // found in the same slot, with the same chain and the same contents.
  lemma {:induction false} RunKeepsFile(g: Geo, ss: seq<Stage>, es: seq<Event>, h: nat, key: seq<byte>, q: nat,
                                        slot: Slot, n: nat)
    requires IsRun(g, ss, es) && StageOk(g, ss[0]) && AllAway(g, ss, es, h, key) && n < |ss| == |es| + 1
    requires IsFile(g, ss[0].disk, ss[0].chains, ss[0].links, h, key, q, slot)
    ensures SameFile(g, ss[0].disk, ss[n].disk, ss[0].chains[h], key, q, slot, FileOf(ss[0].chains, slot))
    ensures h in ss[n].chains && ss[n].chains[h] == ss[0].chains[h]
    ensures FileOf(ss[n].chains, slot) == FileOf(ss[0].chains, slot)
    ensures IsFile(g, ss[n].disk, ss[n].chains, ss[n].links, h, key, q, slot)
    decreases n
  {
    hide IsRun, Happens, Away, AllAway, StageOk, IsFile, SameFile, FoundAt, ChainBytes, FileOf, HasClusters, Sound;
    RunTied(g, ss, es, 0);
    FileThere(g, ss[0], h, key, q, slot);
    if n > 0 {
      RunKeepsFile(g, ss, es, h, key, q, slot, n - 1);
      RunTied(g, ss, es, n - 1);
      StepAway(g, ss, es, h, key, n - 1);
      EventKeepsFile(g, ss[n - 1], ss[n], es[n - 1], h, key, q, slot);
      SameThen(g, ss[0].disk, ss[n - 1].disk, ss[n].disk, ss[0].chains[h], key, q, slot, FileOf(ss[0].chains, slot));
    }
  }

  // ---- calls on a tree ----

  ghost predicate NoDirectory(b: seq<byte>, key: seq<byte>) {
    forall p: nat, slot :: FoundAt(b, key, p, slot) ==> !IsDir(slot)
  }

  // fat32_write_file under any name that is not a directory's: the tree is all
  // that it asks for, and there is one afterwards.
  method WriteNamed(vol: Volume, name: Name, buffer: seq<byte>, ghost cs: Chains, ghost e: Links)
    returns (r: int, ghost cs': Chains, ghost e': Links)
    requires vol.Valid() && vol.cwd in cs && vol.cwd in e && HasClusters(vol.g, vol.disk[..], cs[vol.cwd])
    requires NoDirectory(ChainBytes(vol.g, vol.disk[..], cs[vol.cwd]), Name83(name)) && !IsDotsKey(Name83(name))
    requires |buffer| < TWO32 && Tied(vol.g, vol.disk[..], cs, e)
    modifies vol.disk
    ensures !Exists(ChainBytes(vol.g, old(vol.disk[..]), cs[vol.cwd]), Name83(name)) ==> r == -1 && cs' == cs && e' == e
    ensures e'.Keys == e.Keys && cs.Keys <= cs'.Keys && vol.Valid() && Tied(vol.g, vol.disk[..], cs', e')
  {
    hide Tied, ChainBytes, HasClusters, FoundAt, Exists, Names, WriteResult, Kept, SameReserved, FileSpends, Name83,
         IsDotsKey, IsDir, IsChain, TableOf, FileOf, Settled, Disjoint, FileChain, FirstCluster, FreeClusters, DiskOk,
         ToInt, HasSlot, SlotAt;
    ghost var g, d, h, key := vol.g, vol.disk[..], vol.cwd, Name83(name);
    ghost var dir := cs[h];
    ghost var b := ChainBytes(g, d, dir);
    ghost var file := NamedFile(g, d, cs, e, h, key);
    cs', e' := cs, e;
    ghost var file', done;
    r, file', done := WriteFile(vol, name, buffer, dir, file);
    if Exists(b, key) {
      cs', e' := NamedTied(g, d, vol.disk[..], cs, e, h, name, file, file', buffer, done);
    }
  }

  lemma NamedTied(g: Geo, d: Disk, d': Disk, cs: Chains, e: Links, h: nat, name: Name, file: seq<nat>, file': seq<nat>,
                  buffer: seq<byte>, done: bool)
    returns (cs': Chains, e': Links)
    requires Tied(g, d, cs, e) && h in e && h in cs && HasClusters(g, d, cs[h]) && !IsDotsKey(Name83(name))
    requires Exists(ChainBytes(g, d, cs[h]), Name83(name)) && |buffer| < TWO32
    requires forall p: nat, slot :: FoundAt(ChainBytes(g, d, cs[h]), Name83(name), p, slot) ==>
      DiskOk(g, d) && !IsDir(slot) && file == FileOf(cs, slot)
      && WriteResult(g, d, d', cs[h], p, slot, file, file', buffer, done)
    requires DiskOk(g, d)
    requires forall o: seq<nat> :: IsChain(TableOf(g, d), o) && Disjoint(o, cs[h]) && Disjoint(o, file) ==>
      Kept(g, d, d', o)
    ensures Tied(g, d', cs', e') && e'.Keys == e.Keys && cs.Keys <= cs'.Keys
  {
    hide Tied, ChainBytes, HasClusters, FoundAt, WriteResult, Kept, Name83, IsDotsKey, IsDir, IsChain, TableOf,
         FileOf, Settled, Disjoint;
    var b := ChainBytes(g, d, cs[h]);
    var p := SomeFound(b, Name83(name));
    var c := Write(name, file, file', buffer, done);
    CallTied(g, d, d', cs, e, h, c, p);
    cs', e' := SettledTied(g, d', cs, e, h, c, SlotAt(b, p));
  }

  // The file that the name stands for, if it is there.
  lemma NamedFile(g: Geo, d: Disk, cs: Chains, e: Links, h: nat, key: seq<byte>) returns (file: seq<nat>)
    requires Tied(g, d, cs, e) && h in e && h in cs && HasClusters(g, d, cs[h]) && !IsDotsKey(key)
    ensures DiskOk(g, d) && IsChain(TableOf(g, d), cs[h]) && cs[h][0] == h && Names(g, d, cs[h], key, file)
    ensures forall p: nat, slot :: FoundAt(ChainBytes(g, d, cs[h]), key, p, slot) ==> file == FileOf(cs, slot)
  {
    hide Tied, ChainBytes, HasClusters, FoundAt, Names, IsChain, TableOf, FileOf, Exists, FirstCluster, FileChain;
    TiedParts(g, d, cs, e, h);
    var b := ChainBytes(g, d, cs[h]);
    if Exists(b, key) {
      var p := SomeFound(b, key);
      file := FileOf(cs, SlotAt(b, p));
      FoundFile(g, d, cs, e, h, key, p, SlotAt(b, p));
      OneFound(b, key, p, SlotAt(b, p));
    } else {
      file := [];
      NotFound(b, key);
      NoneNamed(g, d, cs[h], key, file);
    }
  }

  lemma NoneNamed(g: Geo, d: Disk, dir: seq<nat>, key: seq<byte>, file: seq<nat>)
    requires DiskOk(g, d) && HasClusters(g, d, dir) && !Exists(ChainBytes(g, d, dir), key)
    ensures Names(g, d, dir, key, file)
  {
    hide FoundAt, ChainBytes, FileChain;
    NotFound(ChainBytes(g, d, dir), key);
  }

  lemma SettledTied(g: Geo, d: Disk, cs: Chains, e: Links, h: nat, c: Call, slot: Slot)
    returns (cs': Chains, e': Links)
    requires h in cs && h in e && c.Write? && Settled(g, d, cs, e, h, c, slot)
    ensures Tied(g, d, cs', e') && e'.Keys == e.Keys && cs.Keys <= cs'.Keys
  {
    hide Tied, Targets, ChainBytes;
    cs', e' := ChainsAfter(cs, c, slot), LinksAfter(e, h, Targets(ChainBytes(g, d, cs[h])), c, slot);
  }

  // fat32_rmdir under any name that is found: likewise.
  method RemoveNamed(vol: Volume, name: Name, ghost cs: Chains, ghost e: Links)
    returns (r: int, ghost cs': Chains, ghost e': Links)
    requires vol.Valid() && vol.cwd in cs && vol.cwd in e && HasClusters(vol.g, vol.disk[..], cs[vol.cwd])
    requires Exists(ChainBytes(vol.g, vol.disk[..], cs[vol.cwd]), Name83(name)) && !IsDotsKey(Name83(name))
    requires Tied(vol.g, vol.disk[..], cs, e)
    modifies vol.disk
    ensures vol.Valid() && vol.cwd in e'
    ensures if r == 0 then |FreeClusters(vol.Table())| >= |FreeClusters(old(vol.Table()))|
            else cs' == cs && e' == e && vol.disk[..] == old(vol.disk[..])
    ensures Tied(vol.g, vol.disk[..], cs', e')
  {
    hide Tied, ChainBytes, HasClusters, FoundAt, Exists, DirRemoved, Name83, IsDotsKey, IsChain, TableOf, StaysIn,
         FirstCluster, FreeClusters, RemoveVerdict, FirstHit, NoHit;
    ghost var g, d, h, key := vol.g, vol.disk[..], vol.cwd, Name83(name);
    ghost var b := ChainBytes(g, d, cs[h]);
    ghost var p := SomeFound(b, key);
    TiedParts(g, d, cs, e, h);
    FoundDir(g, d, cs, e, h, key, p, SlotAt(b, p));
    ghost var q;
    r, q := Rmdir(vol, name, cs[h]);
    cs', e' := cs, e;
    if r == 0 {
      FoundVisible(b, key, p, SlotAt(b, p));
      OneHitOnly(b, Named(key), p);
      RemovedHit(g, d, vol.disk[..], cs[h], key, q);
      RmdirTied(g, d, vol.disk[..], cs, e, h, p, key, SlotAt(b, p));
      ghost var c := FirstCluster(SlotAt(b, p));
      cs', e' := cs - {c}, e[h := e[h] - {p}] - {c};
      MoreFree(g, d, vol.disk[..], cs[h], key, q);
    }
  }

  lemma RemovedHit(g: Geo, d: Disk, d': Disk, dir: seq<nat>, key: seq<byte>, q: nat)
    requires DirRemoved(g, d, d', dir, key, q)
    ensures HasClusters(g, d, dir) && FirstHit(ChainBytes(g, d, dir), Named(key), q)
  {
  }

  lemma MoreFree(g: Geo, d: Disk, d': Disk, dir: seq<nat>, key: seq<byte>, q: nat)
    requires DirRemoved(g, d, d', dir, key, q)
    ensures |FreeClusters(TableOf(g, d'))| >= |FreeClusters(TableOf(g, d))|
  {
    hide ChainBytes, TableOf, Reaches, FirstCluster, Touches, SameReserved;
    assert FreeClusters(TableOf(g, d)) <= FreeClusters(TableOf(g, d'));
    SubsetSize(FreeClusters(TableOf(g, d)), FreeClusters(TableOf(g, d')));
  }

  lemma SubsetSize(a: set<nat>, b: set<nat>)
    requires a <= b
    ensures |a| <= |b|
  {
    assert b == a + (b - a);
  }
}
