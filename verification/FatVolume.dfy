/**
  The whole volume: chains that share no cluster, and what every call of the
  driver keeps of them. A chain goes by its first cluster.
 */
module FatVolume {
  import opened Widths
  import opened Bytes
  import opened Counting
  import opened Fat
  import opened FatTable
  import opened FatSlots
  import opened FatFiles
  import opened FatFree
  import opened FatDirs
  import opened FatMkdir
  import opened FatRmdir
  import opened FatRoundTrips

  type Chains = map<nat, seq<nat>>

  // Every member is a chain, none loops, no two share a cluster, none is free.
  ghost predicate Sound(g: Geo, d: Disk, cs: Chains) {
    && DiskOk(g, d)
    && (forall h <- cs :: IsChain(TableOf(g, d), cs[h]) && cs[h][0] == h)
    && forall h <- cs, k <- cs | h != k :: Disjoint(cs[h], cs[k])
  }

  // The contents of all chains but h and k are as they were.
  ghost predicate OthersKept(g: Geo, d: Disk, d': Disk, cs: Chains, h: nat, k: nat) {
    forall j <- cs | j != h && j != k :: Kept(g, d, d', cs[j])
  }

  lemma MemberKept(g: Geo, d: Disk, d': Disk, cs: Chains, h: nat, k: nat, j: nat)
    requires OthersKept(g, d, d', cs, h, k) && j in cs && j != h && j != k
    ensures Kept(g, d, d', cs[j])
  {
  }

  lemma Member(g: Geo, d: Disk, cs: Chains, h: nat)
    requires Sound(g, d, cs) && h in cs
    ensures DiskOk(g, d) && IsChain(TableOf(g, d), cs[h]) && cs[h] != [] && cs[h][0] == h && 2 <= h < |TableOf(g, d)|
    ensures HasClusters(g, d, cs[h])
  {
    hide HasClusters;
    ChainHas(g, d, cs[h]);
    assert Inside(TableOf(g, d), cs[h][0]);
  }

  lemma MembersApart(g: Geo, d: Disk, cs: Chains, h: nat, k: nat)
    requires Sound(g, d, cs) && h in cs && k in cs && h != k
    ensures Disjoint(cs[h], cs[k])
  {
  }

  // create, delete and rename: one slot of directory h changes.
  lemma StoreSound(g: Geo, d: Disk, d': Disk, cs: Chains, h: nat, p: nat, x: Slot)
    requires Sound(g, d, cs) && h in cs && SlotStored(g, d, d', cs[h], p, x)
    ensures Sound(g, d', cs) && OthersKept(g, d, d', cs, h, h)
  {
    hide IsChain, HasClusters, ChainBytes, TableOf, Touches, SameReserved, Disjoint;
    forall j | j in cs && j != h ensures Kept(g, d, d', cs[j]) { SlotKeeps(g, d, d', cs[h], p, x, cs[j]); }
  }

  // The chains after a write to the file with chain `file`, or with none.
  function Rewritten(cs: Chains, file': seq<nat>): Chains {
    if file' == [] then cs else cs[file'[0] := file']
  }

  lemma WriteSound(g: Geo, d: Disk, d': Disk, cs: Chains, h: nat, p: nat, slot: Slot,
                   file: seq<nat>, file': seq<nat>, buffer: seq<byte>, done: bool)
    requires Sound(g, d, cs) && h in cs && |buffer| < TWO32
    requires file != [] ==> file[0] in cs && file[0] != h && file == cs[file[0]]
    requires WriteResult(g, d, d', cs[h], p, slot, file, file', buffer, done)
    requires forall o: seq<nat> :: IsChain(TableOf(g, d), o) && Disjoint(o, cs[h]) && Disjoint(o, file) ==>
      Kept(g, d, d', o)
    ensures Sound(g, d', Rewritten(cs, file'))
    ensures OthersKept(g, d, d', cs, h, if file != [] then file[0] else h)
    ensures if file == [] then file' == [] || file'[0] !in cs else file' != [] && file'[0] == file[0]
  {
    hide IsChain, HasClusters, ChainBytes, TableOf, Disjoint, AllFree, Filled, FreeClusters, Elements, Capacity,
         PutSlot;
    DirStays(g, d, d', cs[h], p, slot, file, file', buffer, done);
    if file' != [] { HeadAfter(g, d, cs, file, file'); }
    forall j | j in cs && j != h && (file != [] ==> j != file[0])
      ensures Kept(g, d, d', cs[j]) && Disjoint(cs[j], file') && Disjoint(file', cs[j])
    {
      if file == [] { DisjointNone(cs[j], file); }
      KeptBytes(g, d, d', cs[j]);
      GrownApart(TableOf(g, d), cs[j], file, file');
      DisjointSym(cs[j], file');
    }
    DisjointSym(cs[h], file');
  }

  // A first cluster that was free heads no chain.
  lemma HeadAfter(g: Geo, d: Disk, cs: Chains, file: seq<nat>, file': seq<nat>)
    requires Sound(g, d, cs) && file <= file' && file' != [] && AllFree(TableOf(g, d), file'[|file|..])
    ensures if file == [] then file'[0] !in cs else file'[0] == file[0]
  {
    hide IsChain;
    if file == [] && file'[0] in cs {
      var o := cs[file'[0]];
      Member(g, d, cs, file'[0]);
      assert file'[|file|..] == file' && file'[0] in file';
      ChainNotFree(TableOf(g, d), o, o[0]);
      assert false;
    }
  }

  lemma DisjointNone(o: seq<nat>, e: seq<nat>)
    requires e == []
    ensures Disjoint(o, e)
  {
  }

  lemma DirStays(g: Geo, d: Disk, d': Disk, dir: seq<nat>, p: nat, slot: Slot, file: seq<nat>, file': seq<nat>,
                 buffer: seq<byte>, done: bool)
    requires DiskOk(g, d) && |buffer| < TWO32
    requires WriteResult(g, d, d', dir, p, slot, file, file', buffer, done)
    ensures DiskOk(g, d') && IsChain(TableOf(g, d'), dir) && file <= file' && AllFree(TableOf(g, d), file'[|file|..])
    ensures file' != [] ==> IsChain(TableOf(g, d'), file') && Disjoint(dir, file')
  {
    hide ChainBytes, TableOf, HasClusters, AllFree, IsChain, Filled, PutSlot, Capacity;
    assert !done ==> Kept(g, d, d', dir);
  }

  // Clusters that were free belong to no chain.
  lemma GrownApart(t: Table, o: seq<nat>, file: seq<nat>, file': seq<nat>)
    requires IsChain(t, o) && Disjoint(o, file) && file <= file' && AllFree(t, file'[|file|..])
    ensures Disjoint(o, file')
  {
    forall x | x in o ensures x !in file' {
      ChainNotFree(t, o, x);
      assert file' == file + file'[|file|..];
    }
  }

  lemma MkdirSound(g: Geo, d: Disk, d': Disk, cs: Chains, h: nat, key: seq<byte>, p: nat, f: nat, parent: nat)
    requires Sound(g, d, cs) && h in cs && DirMade(g, d, d', cs[h], key, p, f, parent)
    ensures f !in cs && Sound(g, d', cs[f := [f]]) && OthersKept(g, d, d', cs, h, h)
  {
    hide HasClusters, ChainBytes, TableOf, Touches, SameReserved, DirSector, DirEntry, ClusterSector, LeastFree,
         IsChain;
    var t, t' := TableOf(g, d), TableOf(g, d');
    forall j | j in cs ensures IsChain(t', cs[j]) && f !in cs[j] {
      FreeNotIn(t, t', f, cs[j]);
    }
    if f in cs { Member(g, d, cs, f); }
    NewAlone(t, t', f);
    forall j | j in cs ensures Disjoint([f], cs[j]) && Disjoint(cs[j], [f]) { }
    forall j | j in cs && j != h ensures Kept(g, d, d', cs[j]) {
      MkdirKeeps(g, d, d', cs[h], key, p, f, parent, cs[j]);
    }
  }

  lemma FreeNotIn(t: Table, t': Table, f: nat, o: seq<nat>)
    requires LeastFree(t, f) && t' == t[f := EOC] && IsChain(t, o)
    ensures IsChain(t', o) && f !in o
  {
    if f in o { ChainNotFree(t, o, f); }
    OtherEntries(t, t', f, o);
  }

  lemma NewAlone(t: Table, t': Table, f: nat)
    requires LeastFree(t, f) && t' == t[f := EOC]
    ensures IsChain(t', [f])
  {
  }

  // The removed directory's chain, k, is free afterwards, and no other is touched.
  // Removing "." is the case k == h: the current directory itself is freed.
  lemma RmdirSound(g: Geo, d: Disk, d': Disk, cs: Chains, h: nat, k: nat, key: seq<byte>, p: nat)
    requires Sound(g, d, cs) && h in cs && k in cs && DirRemoved(g, d, d', cs[h], key, p)
    requires k == FirstCluster(SlotAt(ChainBytes(g, d, cs[h]), p))
    ensures Sound(g, d', cs - {k}) && OthersKept(g, d, d', cs, h, k)
    ensures FreeClusters(TableOf(g, d')) == FreeClusters(TableOf(g, d)) + Elements(cs[k])
  {
    hide ClusterBytes, ClusterSector, ChainBytes, FirstCluster, Reaches, TableOf, HasClusters, Touches, SameReserved,
         IsChain, Disjoint;
    var t, t' := TableOf(g, d), TableOf(g, d');
    Member(g, d, cs, k);
    forall e: nat ensures Reaches(t, k, e) <==> e in cs[k] { ChainReaches(t, cs[k], e); }
    forall j | j in cs && j != k ensures IsChain(t', cs[j]) {
      MembersApart(g, d, cs, j, k);
      UntouchedChain(t, t', cs[k], cs[j]);
    }
    forall j | j in cs && j != h && j != k ensures Kept(g, d, d', cs[j]) {
      MembersApart(g, d, cs, j, k);
      MembersApart(g, d, cs, j, h);
      NoneReached(t, cs[j], cs[k], k);
      RmdirKeeps(g, d, d', cs[h], key, p, cs[j]);
    }
    FreedSet(t, t', cs[k]);
  }

  lemma NoneReached(t: Table, o: seq<nat>, gone: seq<nat>, k: nat)
    requires Disjoint(o, gone) && forall e: nat :: Reaches(t, k, e) <==> e in gone
    ensures forall x | x in o :: !Reaches(t, k, x)
  {
    hide Reaches;
  }

  lemma UntouchedChain(t: Table, t': Table, gone: seq<nat>, o: seq<nat>)
    requires |t'| == |t| && IsChain(t, o) && Disjoint(o, gone)
    requires forall e: nat | e < |t| && e !in gone :: t'[e] == t[e]
    ensures IsChain(t', o)
  {
    forall i | 0 <= i < |o| ensures t'[o[i]] == t[o[i]] { assert o[i] in o; }
  }

  lemma FreedSet(t: Table, t': Table, gone: seq<nat>)
    requires |t'| == |t| && IsChain(t, gone)
    requires forall e: nat | e < |t| :: t'[e] == if e in gone then 0 else t[e]
    ensures FreeClusters(t') == FreeClusters(t) + Elements(gone)
  {
    forall e | e in gone ensures Inside(t, e) { ChainNotFree(t, gone, e); }
  }

  // The directory that rmdir is called in is a chain afterwards exactly if it is
  // not the one removed.
  lemma OwnChainIff(g: Geo, d: Disk, d': Disk, cs: Chains, h: nat, k: nat, key: seq<byte>, p: nat)
    requires Sound(g, d, cs) && h in cs && k in cs && DirRemoved(g, d, d', cs[h], key, p)
    requires k == FirstCluster(SlotAt(ChainBytes(g, d, cs[h]), p))
    ensures IsChain(TableOf(g, d'), cs[h]) <==> k != h
  {
    hide ChainBytes, FirstCluster, TableOf, DirRemoved, HasClusters, SlotAt;
    RmdirSound(g, d, d', cs, h, k, key, p);
    if k == h {
      FreedNoChain(TableOf(g, d), TableOf(g, d'), cs[h]);
    } else {
      assert h in cs - {k};
    }
  }

  lemma FreedNoChain(t: Table, t': Table, ch: seq<nat>)
    requires IsChain(t, ch) && FreeClusters(t') == FreeClusters(t) + Elements(ch)
    ensures !IsChain(t', ch)
  {
    assert ch[0] in ch && ch[0] in FreeClusters(t');
    if IsChain(t', ch) { ChainNotFree(t', ch, ch[0]); }
  }
}
