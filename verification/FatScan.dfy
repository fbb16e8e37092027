/** The scan of a directory that most operations of the driver begin with. */
module FatScan {
  import opened Bytes
  import opened Fat
  import opened FatTable
  import opened FatDriver
  import opened FatSlots

  datatype Verdict = Skip | Take | Stop

  // What each operation looks for: find_entry and delete_entry_at stop at the
  // first slot never used; create_entry_at takes a slot that is not in use; the
  // second scans of fat32_write_file and fat32_mkdir, and those of
  // fat32_rename and fat32_rmdir, go to the end.
  datatype Test =
    | Find(name: seq<byte>)
    | Unused
    | Update(name: seq<byte>)
    | NewDir(name: seq<byte>)
    | Named(name: seq<byte>)

  function Judge(t: Test, s: Slot): Verdict {
    match t
    case Find(name) =>
      if s[0] == 0 then Stop else if s[0] == DELETED || Attr(s) == ATTR_LFN || SlotName(s) != name then Skip else Take
    case Unused =>
      if s[0] == 0 || s[0] == DELETED then Take else Skip
    case Update(name) =>
      if s[0] == DELETED || Attr(s) == ATTR_LFN || SlotName(s) != name then Skip else Take
    case NewDir(name) =>
      if s[0] == DELETED || Attr(s) == ATTR_LFN || SlotName(s) != name || !IsDir(s) then Skip else Take
    case Named(name) =>
      if s[0] == 0 || s[0] == DELETED || Attr(s) == ATTR_LFN || SlotName(s) != name then Skip else Take
  }

  // The first n slots are passed over.
  ghost predicate Passed(b: seq<byte>, t: Test, n: nat) {
    forall q: nat :: q < n && HasSlot(b, q) ==> Judge(t, SlotAt(b, q)) == Skip
  }

  // Slot p is the first one the test does not pass over.
  ghost predicate FirstHit(b: seq<byte>, t: Test, p: nat) {
    HasSlot(b, p) && Judge(t, SlotAt(b, p)) != Skip && Passed(b, t, p)
  }

  ghost predicate NoHit(b: seq<byte>, t: Test) {
    forall q: nat :: HasSlot(b, q) ==> Judge(t, SlotAt(b, q)) == Skip
  }

  lemma FirstHitUnique(b: seq<byte>, t: Test, p: nat, q: nat)
    requires FirstHit(b, t, p) && FirstHit(b, t, q)
    ensures p == q
  {
  }

  // One sector: the index of its first slot that is not passed over, or 16.
  method ScanSector(buf: Sector, t: Test) returns (i: nat)
    ensures i <= 16 && forall j | 0 <= j < i :: Judge(t, buf[SLOT_SIZE * j..SLOT_SIZE * j + SLOT_SIZE]) == Skip
    ensures i < 16 ==> Judge(t, buf[SLOT_SIZE * i..SLOT_SIZE * i + SLOT_SIZE]) != Skip
  {
    i := 0;
    while i < 16
      invariant 0 <= i <= 16
      invariant forall j | 0 <= j < i :: Judge(t, buf[SLOT_SIZE * j..SLOT_SIZE * j + SLOT_SIZE]) == Skip
    {
      if Judge(t, buf[SLOT_SIZE * i..SLOT_SIZE * i + SLOT_SIZE]) != Skip { return; }
      i := i + 1;
    }
  }

  // The slots of one more sector, numbers p to p + i - 1, are passed over.
  lemma PassedSector(g: Geo, d: Disk, ch: seq<nat>, t: Test, k: nat, s: nat, lba: nat, p: nat, i: nat)
    requires HasClusters(g, d, ch) && k < |ch| && s < g.perCluster && lba == ClusterSector(g, ch[k]) + s < |d|
    requires i <= 16
    requires SLOT_SIZE * p == Capacity(g, k) + SECTOR_SIZE * s
    requires Passed(ChainBytes(g, d, ch), t, p)
    requires forall j | 0 <= j < i :: Judge(t, d[lba][SLOT_SIZE * j..SLOT_SIZE * j + SLOT_SIZE]) == Skip
    ensures Passed(ChainBytes(g, d, ch), t, p + i)
  {
    hide ChainBytes, ClusterSector, Judge, Capacity, HasClusters;
    var b := ChainBytes(g, d, ch);
    forall q: nat | q < p + i && HasSlot(b, q) ensures Judge(t, SlotAt(b, q)) == Skip {
      if q >= p {
        PlacedHere(g, d, ch, k, s, lba, q - p, q);
        ReadSlot(g, d, ch, lba, q - p, q);
      }
    }
  }

  lemma PlacedHere(g: Geo, d: Disk, ch: seq<nat>, k: nat, s: nat, lba: nat, i: nat, q: nat)
    requires HasClusters(g, d, ch) && k < |ch| && s < g.perCluster && lba == ClusterSector(g, ch[k]) + s && i < 16
    requires SLOT_SIZE * q == Capacity(g, k) + SECTOR_SIZE * s + SLOT_SIZE * i
    ensures PlacedAt(g, ch, lba, i, q)
  {
    assert PlacedIn(g, ch, k, s, lba, i, q);
  }

  lemma PassedAll(b: seq<byte>, t: Test, n: nat)
    requires Passed(b, t, n) && SLOT_SIZE * n == |b|
    ensures NoHit(b, t)
  {
  }

  // One cluster of the directory. Slots p on lie in it.
  method ScanCluster(vol: Volume, cluster: nat, t: Test, ghost ch: seq<nat>, ghost k: nat, ghost p0: nat)
    returns (v: Verdict, lba: nat, i: nat, buf: Sector, ghost p: nat)
    requires vol.Valid() && k < |ch| && cluster == ch[k]
    requires HasClusters(vol.g, vol.disk[..], ch)
    requires SLOT_SIZE * p0 == Capacity(vol.g, k) && Passed(ChainBytes(vol.g, vol.disk[..], ch), t, p0)
    ensures v == Skip ==> SLOT_SIZE * p == Capacity(vol.g, k + 1) && Passed(ChainBytes(vol.g, vol.disk[..], ch), t, p)
    ensures v != Skip ==> PlacedAt(vol.g, ch, lba, i, p) && FirstHit(ChainBytes(vol.g, vol.disk[..], ch), t, p)
    ensures v != Skip ==> v == Judge(t, SlotAt(ChainBytes(vol.g, vol.disk[..], ch), p))
    ensures v != Skip ==> lba < vol.disk.Length && i < 16 && buf == vol.disk[lba]
  {
    hide ChainBytes, ClusterSector, Judge, Capacity, Passed, PlacedAt;
    ghost var g, d := vol.g, vol.disk[..];
    var s := 0;
    p := p0;
    buf := seq(512, _ => 0);
    while s < vol.g.perCluster
      invariant 0 <= s <= vol.g.perCluster
      invariant SLOT_SIZE * p == Capacity(g, k) + SECTOR_SIZE * s && Passed(ChainBytes(g, d, ch), t, p)
    {
      lba := ClusterSector(vol.g, cluster) + s;
      SectorThere(g, d, ch, k, s);
      var ok;
      ok, buf := vol.ReadSector(lba);
      assert ok;
      i := ScanSector(buf, t);
      PassedSector(g, d, ch, t, k, s, lba, p, i);
      if i < 16 {
        p := p + i;
        HitHere(g, d, ch, t, k, s, lba, i, p);
        v := Judge(t, buf[SLOT_SIZE * i..SLOT_SIZE * i + SLOT_SIZE]);
        return;
      }
      p := p + 16;
      s := s + 1;
    }
    CapacityStep(g, k);
    v, lba, i := Skip, 0, 0;
  }

  lemma SectorThere(g: Geo, d: Disk, ch: seq<nat>, k: nat, s: nat)
    requires HasClusters(g, d, ch) && k < |ch| && s < g.perCluster
    ensures ClusterSector(g, ch[k]) + s < |d|
  {
  }

  lemma HitHere(g: Geo, d: Disk, ch: seq<nat>, t: Test, k: nat, s: nat, lba: nat, i: nat, p: nat)
    requires HasClusters(g, d, ch) && PlacedIn(g, ch, k, s, lba, i, p) && lba < |d|
    requires Passed(ChainBytes(g, d, ch), t, p)
    requires Judge(t, d[lba][SLOT_SIZE * i..SLOT_SIZE * i + SLOT_SIZE]) != Skip
    ensures PlacedAt(g, ch, lba, i, p) && FirstHit(ChainBytes(g, d, ch), t, p)
    ensures d[lba][SLOT_SIZE * i..SLOT_SIZE * i + SLOT_SIZE] == SlotAt(ChainBytes(g, d, ch), p)
  {
    ReadSlot(g, d, ch, lba, i, p);
  }

  // The clusters ch are all of the directory that begins at cluster dir, or its
  // first ones with a slot that the test does not pass over. The links may go
  // round in a circle behind it.
  ghost predicate Searchable(g: Geo, d: Disk, dir: nat, ch: seq<nat>, t: Test)
    requires DiskOk(g, d)
  {
    && Follows(TableOf(g, d), dir, ch) && HasClusters(g, d, ch)
    && (Stops(After(TableOf(g, d), dir, ch)) || !NoHit(ChainBytes(g, d, ch), t))
  }

  lemma ChainSearchable(g: Geo, d: Disk, ch: seq<nat>)
    requires DiskOk(g, d) && IsChain(TableOf(g, d), ch)
    ensures ch != [] && forall t: Test :: Searchable(g, d, ch[0], ch, t)
  {
    hide ChainBytes;
    ChainHas(g, d, ch);
    ChainTrail(TableOf(g, d), ch);
  }

  // The directory that begins at cluster dir.
  method Scan(vol: Volume, dir: nat, t: Test, ghost ch: seq<nat>)
    returns (v: Verdict, lba: nat, i: nat, buf: Sector, ghost p: nat)
    requires vol.Valid() && Searchable(vol.g, vol.disk[..], dir, ch, t)
    ensures HasClusters(vol.g, vol.disk[..], ch)
    ensures v == Skip ==> NoHit(ChainBytes(vol.g, vol.disk[..], ch), t)
    ensures v != Skip ==> PlacedAt(vol.g, ch, lba, i, p) && FirstHit(ChainBytes(vol.g, vol.disk[..], ch), t, p)
    ensures v != Skip ==> v == Judge(t, SlotAt(ChainBytes(vol.g, vol.disk[..], ch), p))
    ensures v != Skip ==> lba < vol.disk.Length && i < 16 && buf == vol.disk[lba]
  {
    hide ChainBytes, ClusterSector, Judge, Capacity, PlacedAt, Searchable, HasClusters, NoHit;
    ghost var g, d, table := vol.g, vol.disk[..], vol.Table();
    StartTrail(g, d, dir, ch, t);
    StartScan(g, ChainBytes(g, d, ch), t);
    var cluster: nat := dir;
    ghost var k := 0;
    p := 0;
    while cluster >= 2 && cluster < EOC_MIN
      invariant 0 <= k <= |ch|
      invariant if k < |ch| then cluster == ch[k] && 2 <= cluster < EOC_MIN else Stops(cluster)
      invariant SLOT_SIZE * p == Capacity(g, k) && Passed(ChainBytes(g, d, ch), t, p)
      decreases |ch| - k
    {
      v, lba, i, buf, p := ScanCluster(vol, cluster, t, ch, k, p);
      if v != Skip { return; }
      if k + 1 == |ch| { PassedAll(ChainBytes(g, d, ch), t, p); }
      NextOnTrail(g, d, dir, ch, t, k);
      cluster := vol.ReadEntry(cluster);
      k := k + 1;
    }
    PassedAll(ChainBytes(g, d, ch), t, p);
    v, lba, i, buf := Skip, 0, 0, seq(512, _ => 0);
  }

  lemma StartTrail(g: Geo, d: Disk, s: nat, ch: seq<nat>, t: Test)
    requires DiskOk(g, d) && Searchable(g, d, s, ch, t)
    ensures HasClusters(g, d, ch) && |ChainBytes(g, d, ch)| == Capacity(g, |ch|)
    ensures if ch != [] then s == ch[0] && 2 <= s < EOC_MIN else Stops(s)
  {
    ChainLength(g, d, ch);
  }

  lemma NextOnTrail(g: Geo, d: Disk, s: nat, ch: seq<nat>, t: Test, i: nat)
    requires DiskOk(g, d) && Searchable(g, d, s, ch, t) && i < |ch|
    ensures var u := TableOf(g, d);
            && Inside(u, ch[i])
            && if i + 1 < |ch| then u[ch[i]] == ch[i + 1] && 2 <= ch[i + 1] < EOC_MIN
               else NoHit(ChainBytes(g, d, ch), t) ==> Stops(u[ch[i]])
  {
    hide ChainBytes;
    assert i + 1 < |ch| ==> Inside(TableOf(g, d), ch[i + 1]);
  }

  lemma StartScan(g: Geo, b: seq<byte>, t: Test)
    ensures Capacity(g, 0) == 0 && Passed(b, t, 0)
  {
  }
}
