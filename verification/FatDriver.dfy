/** The chain layer of the FAT32 driver: table entries, and reading and writing chains. */
module FatDriver {
  import opened Widths
  import opened Bytes
  import opened Counting
  import opened Fat
  import opened FatTable

  // A 32-bit unsigned value returned as a C int.
  function ToInt(v: nat): int
    requires v < TWO32
  {
    if v < 0x8000_0000 then v else v - TWO32
  }

  class Volume {
    const g: Geo
    const disk: array<Sector>
    var cwd: nat

    constructor (geo: Geo, sectors: array<Sector>)
      requires GeoOk(geo) && geo.totalSectors <= sectors.Length
      ensures g == geo && disk == sectors && cwd == geo.root && Valid()
    {
      g, disk, cwd := geo, sectors, geo.root;
    }

    ghost predicate Valid()
      reads disk
    {
      DiskOk(g, disk[..])
    }

    ghost function Table(): Table
      requires Valid()
      reads disk
    {
      TableOf(g, disk[..])
    }

    method ReadSector(lba: nat) returns (ok: bool, s: Sector)
      ensures ok <==> lba < disk.Length
      ensures ok ==> s == disk[lba]
    {
      ok := lba < disk.Length;
      s := if ok then disk[lba] else seq(512, _ => 0);
    }

    method WriteSector(lba: nat, s: Sector) returns (ok: bool)
      modifies disk
      ensures ok <==> lba < disk.Length
      ensures disk[..] == if ok then old(disk[..])[lba := s] else old(disk[..])
    {
      ok := lba < disk.Length;
      if ok { disk[lba] := s; }
    }

    // fat_read_entry
    method ReadEntry(c: nat) returns (v: nat)
      requires Valid() && c < ClusterCount(g) + 2
      ensures v == Table()[c] && v < TWO28
    {
      hide Field32, Entry, RawEntry, TableOf, GeoOk;
      InTable(g, disk[..], c);
      var ok, sector := ReadSector(g.fatStart + 4 * c / SECTOR_SIZE);
      v := 0;
      if ok {
        var at := 4 * c % SECTOR_SIZE;
        v := Field32(sector, at) % TWO28;
      }
    }

    // fat_write_entry
    method WriteEntry(c: nat, v: nat) returns (ok: bool)
      requires Valid() && c < ClusterCount(g) + 2
      modifies disk
      ensures ok && Valid() && disk[..] == PutEntry(g, old(disk[..]), c, v)
      ensures Table() == old(Table())[c := v % TWO28]
      ensures SameData(g, old(disk[..]), disk[..]) && SameReserved(g, old(disk[..]), disk[..])
    {
      hide Field32, Splice, Put32, SameData, SameReserved, GeoOk;
      TablePlace(g, disk[..], c);
      PutEntryTable(g, disk[..], c, v);
      var sector;
      ok, sector := ReadSector(g.fatStart + 4 * c / SECTOR_SIZE);
      if !ok { return false; }
      var at := 4 * c % SECTOR_SIZE;
      var raw := Field32(sector, at);
      ok := WriteSector(g.fatStart + 4 * c / SECTOR_SIZE, Splice(sector, at, Put32(raw - raw % TWO28 + v % TWO28)));
    }

    // fat_find_free
    method FindFree() returns (c: nat)
      requires Valid()
      ensures c == 0 ==> FreeClusters(Table()) == {}
      ensures c != 0 ==> LeastFree(Table(), c)
    {
      hide Entry;
      var n := ClusterCount(g) + 2;
      c := 2;
      while c < n
        invariant 2 <= c <= n
        invariant forall e | 2 <= e < c :: Table()[e] != 0
      {
        var v := ReadEntry(c);
        if v == 0 { return; }
        c := c + 1;
      }
      c := 0;
    }

    // The loops of write_chain that fill one cluster from buffer[off..off + n].
    method WriteCluster(c: nat, buffer: seq<byte>, off: nat, n: nat) returns (ok: bool)
      requires Valid() && IsCluster(g, c) && n <= ClusterSize(g) && off + n <= |buffer|
      modifies disk
      ensures ok && Valid()
      ensures ClusterSector(g, c) + g.perCluster <= disk.Length
      ensures ClusterBytes(g, disk[..], c) == buffer[off..off + n] + ClusterBytes(g, old(disk[..]), c)[n..]
      ensures forall s | 0 <= s < disk.Length && !(ClusterSector(g, c) <= s < ClusterSector(g, c) + g.perCluster)
        :: disk[s] == old(disk[s])
    {
      hide ClusterSector, ClusterCount, ClusterBytes, SectorOverlaid;
      ClusterInside(g, c);
      var sector := ClusterSector(g, c);
      ghost var d, t := disk[..], buffer[off..off + n];
      var full := n / SECTOR_SIZE;
      var s := 0;
      while s < full
        invariant 0 <= s <= full
        invariant forall k | sector <= k < sector + s :: SectorOverlaid(d[k], disk[k], t, k - sector, n)
        invariant forall k | 0 <= k < disk.Length && !(sector <= k < sector + s) :: disk[k] == d[k]
      {
        FullSector(disk[sector + s], t, s);
        SliceOfSlice(buffer, off, off + n, 512 * s, 512 * s + 512);
        ok := WriteSector(sector + s, buffer[off + s * 512..off + s * 512 + 512]);
        if !ok { return; }
        s := s + 1;
      }
      ok := WriteTail(sector + full, buffer, off, n, d);
      if !ok { return; }
      forall k | sector <= k < sector + g.perCluster ensures SectorOverlaid(d[k], disk[..][k], t, k - sector, n) {
        if n <= SECTOR_SIZE * (k - sector) { SectorBeyond(d[k], t, k - sector); }
      }
      OverlaidBytes(g, d, disk[..], c, t);
    }

    // The last n % 512 bytes, over the front of a sector that keeps its end.
    method WriteTail(lba: nat, buffer: seq<byte>, off: nat, n: nat, ghost d: Disk) returns (ok: bool)
      requires off + n <= |buffer| && |d| == disk.Length
      requires n % SECTOR_SIZE > 0 ==> lba < disk.Length && disk[lba] == d[lba]
      modifies disk
      ensures ok && forall k | 0 <= k < disk.Length && k != lba :: disk[k] == old(disk[k])
      ensures n % SECTOR_SIZE > 0 ==> SectorOverlaid(d[lba], disk[lba], buffer[off..off + n], n / SECTOR_SIZE, n)
      ensures n % SECTOR_SIZE == 0 ==> disk[..] == old(disk[..])
    {
      hide SectorOverlaid;
      var rest, full := n % SECTOR_SIZE, n / SECTOR_SIZE;
      ok := true;
      if rest > 0 {
        var tmp;
        ok, tmp := ReadSector(lba);
        if !ok { return; }
        PartSector(tmp, buffer[off..off + n], full);
        SliceOfSlice(buffer, off, off + n, 512 * full, n);
        ok := WriteSector(lba, Splice(tmp, 0, buffer[off + full * 512..off + full * 512 + rest]));
      }
    }

    // The end of a turn of write_chain: step to the next cluster of the chain, or
    // put the least free one there. When that is the last cluster itself, whose
    // entry was 0, the second store undoes the link and the loop goes on in it.
    method NextCluster(cluster: nat, ghost ch: seq<nat>, ghost cc: seq<nat>, ghost i: nat, ghost t: Table)
      returns (next: nat, ghost cc': seq<nat>, ghost again: bool)
      requires Valid() && Ended(Table(), cc) && Grown(t, Whole(Table(), cc), ch, cc) && i < |cc| && cluster == cc[i]
      modifies disk
      ensures Valid() && Ended(Table(), cc') && Grown(t, Whole(Table(), cc'), ch, cc')
      ensures SameData(g, old(disk[..]), disk[..]) && SameReserved(g, old(disk[..]), disk[..])
      ensures next == 0 ==> FreeClusters(Table()) == {} && i + 1 == |cc| && cc' == cc && disk[..] == old(disk[..])
      ensures next != 0 ==> Follow(old(Table()), Table(), cc, cc', i, next, again)
    {
      hide Grown, SameReserved, SameData, DiskOk, FreeClusters, Ended, Whole, LeastFree, Follow;
      ghost var d, t1 := disk[..], Table();
      EndedEntry(t1, cc, i);
      next := ReadEntry(cluster);
      assert disk[..] == d && next == t1[cc[i]];
      cc', again := cc, false;
      SameSelf(g, d);
      if next == 0 || next >= EOC_MIN {
        var free := FindFree();
        assert disk[..] == d;
        LastHere(t, t1, ch, cc, i);
        if free == 0 {
          next := 0;
          return;
        }
        FollowGrown(t, t1, ch, cc, i, free);
        again := free == cluster;
        if !again { cc' := cc + [free]; }
        var ok := WriteEntry(cluster, free);
        ghost var d1 := disk[..];
        ok := WriteEntry(free, EOC);
        SameTrans(g, d, d1, disk[..]);
        next := free;
      } else {
        FollowOn(t, t1, ch, cc, i);
      }
    }

    // The first part of a turn of write_chain: fill cluster i of the chain.
    method FillNext(cluster: nat, buffer: seq<byte>, offset: nat, n: nat, ghost d0: Disk, ghost ch: seq<nat>,
                    ghost cc: seq<nat>, ghost i: nat, ghost data: seq<byte>)
      returns (ok: bool)
      requires Valid() && i < |cc| && cluster == cc[i] && offset < |buffer| && Capacity(g, i) <= |data|
      requires data[Capacity(g, i)..] == buffer[offset..]
      requires n == if |buffer| - offset < ClusterSize(g) then |buffer| - offset else ClusterSize(g)
      requires Progress(g, d0, disk[..], cc, i, data) && (|cc| > |ch| ==> i + 1 == |cc|)
      modifies disk
      ensures ok && n > 0 && Valid() && Table() == old(Table()) && SameReserved(g, old(disk[..]), disk[..])
      ensures offset + n < |buffer| ==> n == ClusterSize(g) && Progress(g, d0, disk[..], cc, i + 1, data)
      ensures offset + n == |buffer| ==> Finished(g, d0, disk[..], ch, cc, data)
    {
      hide SameReserved, Finished, HasClusters, ClusterBytes, ClusterSector;
      ghost var d := disk[..];
      SameSuffix(data, buffer, Capacity(g, i), offset, n);
      ok := WriteCluster(cluster, buffer, offset, n);
      if !ok { return; }
      AfterWrite(g, d0, d, disk[..], ch, cc, i, data, n);
    }

    // write_chain of all of `buffer` to the chain ch that begins at `start` and
    // whose last entry is an end mark or 0. The chain becomes ch'; `done` tells a
    // complete write from a full disk, which the C result -1 alone does not for
    // sizes of 2^31 and more.
    method WriteChain(start: nat, buffer: seq<byte>, ghost ch: seq<nat>)
      returns (r: int, ghost ch': seq<nat>, ghost done: bool)
      requires Valid() && |buffer| < TWO32 && Ended(Table(), ch) && ch[0] == start
      modifies disk
      ensures Valid() && SameReserved(g, old(disk[..]), disk[..])
      ensures ChainWritten(g, old(disk[..]), disk[..], ch, ch', buffer, done)
      ensures r == if done then ToInt(|buffer|) else -1
    {
      hide TableOf, ToInt, Grown, SameReserved, SameData, Finished, Progress, IsChain, FreeClusters, Whole, Skipping,
           ChainWritten, AtTurn, AtEnd, Follow, Ended, ClusterSize;
      ghost var d0, i: nat, base: Disk, data: seq<byte>, back: nat := disk[..], 0, disk[..], buffer, 0;
      StartWrite(g, d0, ch, buffer, start);
      ch', done := ch, true;
      var cluster, offset, size := start, 0, |buffer|;
      while size > 0
        invariant Valid() && 0 <= size && offset + size == |buffer|
        invariant size > 0 ==> AtTurn(g, d0, disk[..], ch, ch', buffer, base, data, back, i, cluster, offset)
        invariant size == 0 ==> AtEnd(g, d0, disk[..], ch, ch', buffer, base, data, back)
      {
        var n := if size < ClusterSize(g) then size else ClusterSize(g);
        ghost var d, cc := disk[..], ch';
        TurnParts(g, d0, d, ch, cc, buffer, base, data, back, i, cluster, offset);
        var ok := FillNext(cluster, buffer, offset, n, base, ch, cc, i, data);
        if !ok { return -1, ch', false; }
        ghost var d1, again := disk[..], false;
        TurnFilled(g, d0, d, d1, ch, cc, buffer, base, data, back, i, cluster, offset, n);
        offset := offset + n;
        size := size - n;
        if size > 0 {
          cluster, ch', again := NextCluster(cluster, ch, cc, i, Whole(TableOf(g, d0), ch));
          if cluster == 0 {
            CourseFails(g, d0, d1, ch, cc, buffer, base, data, back);
            return -1, ch', false;
          }
          i, base, data, back := TurnTaken(g, d0, d, d1, disk[..], ch, cc, ch', buffer, base, data, back, i, cluster,
                                           offset, again);
        }
      }
      CourseEnds(g, d0, disk[..], ch, ch', buffer, base, data, back);
      r := ToInt(offset);
    }

    // out[at..] := the first n bytes of data, byte by byte.
    method CopyBytes(out: array<byte>, at: nat, data: seq<byte>, n: nat)
      requires n <= |data| && at + n <= out.Length
      modifies out
      ensures out[..] == Splice(old(out[..]), at, data[..n])
    {
      var b := 0;
      while b < n
        invariant 0 <= b <= n
        invariant forall i | 0 <= i < out.Length :: out[i] == if at <= i < at + b then data[i - at] else old(out[i])
      {
        out[at + b] := data[b];
        b := b + 1;
      }
    }

    // The loops of read_chain that take n bytes of one cluster into out[off..].
    method ReadCluster(c: nat, out: array<byte>, off: nat, n: nat) returns (ok: bool)
      requires Valid() && IsCluster(g, c) && n <= ClusterSize(g) && off + n <= out.Length
      modifies out
      ensures ok && ClusterSector(g, c) + g.perCluster <= disk.Length
      ensures out[..] == Splice(old(out[..]), off, ClusterBytes(g, disk[..], c)[..n])
    {
      hide ClusterSector, ClusterCount, GeoOk, ClusterBytes, Splice;
      ClusterInside(g, c);
      var sector := ClusterSector(g, c);
      ghost var bytes, before := ClusterBytes(g, disk[..], c), out[..];
      var full := n / SECTOR_SIZE;
      var s := 0;
      SpliceNothing(before, off, bytes);
      while s < full
        invariant 0 <= s <= full
        invariant out[..] == Splice(before, off, bytes[..512 * s])
      {
        var data;
        ok, data := ReadSector(sector + s);
        if !ok { return; }
        SectorOfCluster(g, disk[..], c, s);
        CopyBytes(out, off + s * 512, data, 512);
        SpliceMore(before, off, bytes, 512 * s, 512);
        s := s + 1;
      }
      var rest := n % SECTOR_SIZE;
      if rest > 0 {
        var tmp;
        ok, tmp := ReadSector(sector + full);
        if !ok { return; }
        SectorOfCluster(g, disk[..], c, full);
        CopyBytes(out, off + full * 512, tmp, rest);
        SpliceMore(before, off, bytes, 512 * full, rest);
        SliceOfSlice(bytes, 512 * full, 512 * full + 512, 0, rest);
      }
      ok := true;
    }

    // One turn of read_chain: n bytes of cluster i of the chain, whose bytes are all.
    method ReadNext(cluster: nat, out: array<byte>, offset: nat, n: nat, ghost ch: seq<nat>, ghost i: nat,
                    ghost all: seq<byte>, ghost before: seq<byte>)
      returns (ok: bool)
      requires Valid() && HasClusters(g, disk[..], ch) && i < |ch| && cluster == ch[i] && IsCluster(g, cluster)
      requires all == ChainBytes(g, disk[..], ch)
      requires offset == Capacity(g, i) <= |all| && n <= ClusterSize(g) && offset + n <= out.Length == |before|
      requires ReadSoFar(all, before, out[..], offset)
      modifies out
      ensures ok && offset + n <= |all| && ReadSoFar(all, before, out[..], offset + n)
    {
      hide ClusterSector, ClusterBytes, GeoOk, ChainBytes, Splice;
      ClusterOfChain(g, disk[..], ch, i);
      SpliceNext(all, before, offset, n, ClusterBytes(g, disk[..], cluster), ClusterSize(g));
      ok := ReadCluster(cluster, out, offset, n);
    }

    // read_chain along the clusters ch, which are all that the links from `start`
    // lead to, or as many as `size` bytes need.
    method ReadChain(start: nat, out: array<byte>, size: nat, ghost ch: seq<nat>) returns (r: int)
      requires Valid() && Enough(g, Table(), start, ch, size) && size <= out.Length && size < TWO32
      modifies out
      ensures HasClusters(g, disk[..], ch)
      ensures var n := if size < |ChainBytes(g, disk[..], ch)| then size else |ChainBytes(g, disk[..], ch)|;
              r == ToInt(n) && out[..] == ChainBytes(g, disk[..], ch)[..n] + old(out[..])[n..]
    {
      hide ClusterSector, ClusterBytes, ClusterCount, ClusterSize, IsCluster, GeoOk, HasClusters, Enough, ChainBytes,
           Splice, TableOf, ReadSoFar, Capacity;
      ghost var t, before := Table(), out[..];
      ghost var i := 0;
      StartRead(g, disk[..], start, ch, size);
      ghost var all := ChainBytes(g, disk[..], ch);
      StartSoFar(all, before);
      var cluster: nat, offset: nat := start, 0;
      while cluster >= 2 && cluster < EOC_MIN && offset < size
        invariant 0 <= i <= |ch|
        invariant if i < |ch| then cluster == ch[i] && 2 <= cluster < EOC_MIN
                  else Stops(cluster) || size <= Capacity(g, |ch|)
        invariant 0 <= offset <= size && offset <= |all|
        invariant offset < size ==> offset == Capacity(g, i)
        invariant ReadSoFar(all, before, out[..], offset)
        decreases |ch| - i
      {
        var n := if size - offset < ClusterSize(g) then size - offset else ClusterSize(g);
        NextMet(g, t, start, ch, size, i);
        var ok := ReadNext(cluster, out, offset, n, ch, i, all, before);
        if !ok { return -1; }
        offset := offset + n;
        cluster := ReadEntry(cluster);
        i := i + 1;
      }
      SoFar(all, before, out[..], offset);
      r := ToInt(offset);
    }
  }

  // A chain of one cluster whose entry is 0, and which is the least free one: the
  // write looks complete and only what lies beyond the first cluster is there.
  method LostCluster(vol: Volume, c: nat, buffer: seq<byte>) returns (r: int)
    requires vol.Valid() && LeastFree(vol.Table(), c) && c < |vol.Table()|
    requires ClusterSize(vol.g) < |buffer| <= 2 * ClusterSize(vol.g) && |buffer| < TWO32
    modifies vol.disk
    ensures vol.Valid() && r == ToInt(|buffer|) && vol.Table() == old(vol.Table())[c := EOC]
    ensures HasClusters(vol.g, vol.disk[..], [c])
    ensures buffer[ClusterSize(vol.g)..] <= ChainBytes(vol.g, vol.disk[..], [c])
  {
    hide FreeClusters, ChainBytes, TableOf, SameReserved, Touches, Finished, Whole, Loses, Skipping, Grown,
         Capacity, IsChain, LeastFree, ChainWritten;
    ghost var g, t := vol.g, vol.Table();
    ghost var d := vol.disk[..];
    LostStart(g, t, c, buffer);
    ghost var ch', done;
    r, ch', done := vol.WriteChain(c, buffer, [c]);
    LostEnd(g, d, vol.disk[..], c, ch', buffer, done);
  }

  lemma LostEnd(g: Geo, d: Disk, d': Disk, c: nat, ch': seq<nat>, buffer: seq<byte>, done: bool)
    requires DiskOk(g, d) && DiskOk(g, d') && ChainWritten(g, d, d', [c], ch', buffer, done)
    requires LeastFree(TableOf(g, d), c) && c < |TableOf(g, d)| && ClusterSize(g) < |buffer| <= 2 * ClusterSize(g)
    ensures done && TableOf(g, d') == TableOf(g, d)[c := EOC]
    ensures HasClusters(g, d', [c]) && buffer[ClusterSize(g)..] <= ChainBytes(g, d', [c])
  {
    hide FreeClusters, ChainBytes, TableOf, Touches, Finished, Loses, Skipping, Grown, Spends, Capacity, IsChain,
         LeastFree, Lasting, Whole;
    var t, t' := TableOf(g, d), TableOf(g, d');
    LostStart(g, t, c, buffer);
    OneCluster(g, Whole(t, [c]), Whole(t', ch'), [c], ch', |buffer| - ClusterSize(g), done);
  }

  lemma LostStart(g: Geo, t: Table, c: nat, buffer: seq<byte>)
    requires LeastFree(t, c) && ClusterSize(g) < |buffer|
    ensures c < |t| && Ended(t, [c]) && Whole(t, [c]) == t[c := EOC] && Loses(g, t, [c], |buffer|)
    ensures Capacity(g, 1) == ClusterSize(g) < |buffer| && Skipping(g, [c], buffer) == buffer[ClusterSize(g)..]
    ensures Lasting(g, t, [c], buffer) == buffer[ClusterSize(g)..]
  {
    CapacityStep(g, 0);
  }

  // Bytes that fit one cluster need no other.
  lemma OneCluster(g: Geo, t: Table, t': Table, ch: seq<nat>, ch': seq<nat>, bytes: nat, done: bool)
    requires g.perCluster > 0 && Grown(t, t', ch, ch') && |ch| == 1 && bytes <= ClusterSize(g)
    requires Spends(g, t, t', ch, bytes, done)
    ensures done && ch' == ch && t' == t
  {
    hide FreeClusters, Needed;
    CapacityStep(g, 0);
    NeededBelow(g, 1, bytes);
    CapacityGrows(g, 1, 1 + |FreeClusters(t)|);
    GrownCounts(t, t', ch, ch');
  }

  // The first n bytes of the buffer are those of the chain, the rest is as before.
  ghost predicate ReadSoFar(all: seq<byte>, before: seq<byte>, after: seq<byte>, n: nat) {
    n <= |all| && n <= |before| && after == all[..n] + before[n..]
  }

  lemma StartSoFar(all: seq<byte>, before: seq<byte>)
    ensures ReadSoFar(all, before, before, 0)
  {
    assert before == all[..0] + before[0..];
  }

  lemma SoFar(all: seq<byte>, before: seq<byte>, after: seq<byte>, n: nat)
    requires ReadSoFar(all, before, after, n)
    ensures n <= |all| && n <= |before| && after == all[..n] + before[n..]
  {
  }

  // The clusters ch are all that the links from s lead to, or hold n bytes.
  ghost predicate Enough(g: Geo, t: Table, s: nat, ch: seq<nat>, n: nat) {
    Follows(t, s, ch) && (Stops(After(t, s, ch)) || n <= Capacity(g, |ch|))
  }

  lemma StartRead(g: Geo, d: Disk, s: nat, ch: seq<nat>, n: nat)
    requires DiskOk(g, d) && Enough(g, TableOf(g, d), s, ch, n)
    ensures HasClusters(g, d, ch) && |ChainBytes(g, d, ch)| == Capacity(g, |ch|) && Capacity(g, 0) == 0
    ensures if ch != [] then s == ch[0] && 2 <= s < EOC_MIN else Stops(s) || n <= Capacity(g, |ch|)
    ensures forall i | 0 <= i < |ch| :: IsCluster(g, ch[i])
  {
    ChainHas(g, d, ch);
    ChainLength(g, d, ch);
  }

  // Sector s of a cluster in its bytes.
  lemma SectorOfCluster(g: Geo, d: Disk, c: nat, s: nat)
    requires c >= 2 && ClusterSector(g, c) + g.perCluster <= |d| && s < g.perCluster
    ensures d[ClusterSector(g, c) + s] == ClusterBytes(g, d, c)[512 * s..512 * s + 512]
  {
    var bytes, sector := ClusterBytes(g, d, c), d[ClusterSector(g, c) + s];
    assert forall b | 0 <= b < 512 :: bytes[512 * s + b] == sector[b];
  }

  lemma SpliceNothing<T>(s: seq<T>, at: nat, t: seq<T>)
    requires at <= |s|
    ensures s == Splice(s, at, t[..0])
  {
  }

  lemma SpliceMore<T>(s: seq<T>, at: nat, t: seq<T>, m: nat, n: nat)
    requires m + n <= |t| && at + m + n <= |s|
    ensures Splice(Splice(s, at, t[..m]), at + m, t[m..m + n]) == Splice(s, at, t[..m + n])
  {
  }

  lemma NextMet(g: Geo, t: Table, s: nat, ch: seq<nat>, n: nat, i: nat)
    requires Enough(g, t, s, ch, n) && i < |ch|
    ensures Inside(t, ch[i]) && Capacity(g, i + 1) == Capacity(g, i) + ClusterSize(g)
    ensures if i + 1 < |ch| then t[ch[i]] == ch[i + 1] && 2 <= ch[i + 1] < EOC_MIN
            else Stops(t[ch[i]]) || n <= Capacity(g, |ch|)
  {
    assert i + 1 < |ch| ==> Inside(t, ch[i + 1]);
  }

  // The bytes of cluster i in those of its chain.
  lemma {:induction false} ClusterOfChain(g: Geo, d: Disk, ch: seq<nat>, i: nat)
    requires HasClusters(g, d, ch) && i < |ch|
    ensures Capacity(g, i) + ClusterSize(g) <= |ChainBytes(g, d, ch)|
    ensures ChainBytes(g, d, ch)[Capacity(g, i)..Capacity(g, i) + ClusterSize(g)] == ClusterBytes(g, d, ch[i])
    decreases |ch|
  {
    ChainLength(g, d, ch[..|ch| - 1]);
    if i < |ch| - 1 { ClusterOfChain(g, d, ch[..|ch| - 1], i); }
  }

  lemma SpliceNext<T>(all: seq<T>, rest: seq<T>, at: nat, n: nat, piece: seq<T>, size: nat)
    requires at + size <= |all| && piece == all[at..at + size] && n <= size && at + n <= |rest|
    ensures Splice(all[..at] + rest[at..], at, piece[..n]) == all[..at + n] + rest[at + n..]
  {
  }

  // All of t is in the chain cc, which is longer than ch only as far as t needs.
  ghost predicate Finished(g: Geo, d0: Disk, d: Disk, ch: seq<nat>, cc: seq<nat>, t: seq<byte>) {
    && Touches(g, d0, d, cc) && Wrote(g, d0, d, cc, t)
    && |t| <= Capacity(g, |cc|) && (|cc| > |ch| ==> Capacity(g, |cc| - 1) < |t|)
  }

  lemma FinishedTouches(g: Geo, d0: Disk, d: Disk, ch: seq<nat>, cc: seq<nat>, t: seq<byte>)
    requires Finished(g, d0, d, ch, cc, t)
    ensures Touches(g, d0, d, cc)
    ensures |t| <= Capacity(g, |cc|) && (|cc| > |ch| ==> Capacity(g, |cc| - 1) < |t|)
  {
  }

  // How many clusters a number of bytes takes.
  function Needed(g: Geo, bytes: nat): nat
    requires g.perCluster > 0
  {
    (bytes + ClusterSize(g) - 1) / ClusterSize(g)
  }

  // The clusters that a write to chain ch takes: exactly those that are missing,
  // or all there are if that is too few.
  ghost predicate Spends(g: Geo, t: Table, t': Table, ch: seq<nat>, bytes: nat, done: bool)
    requires g.perCluster > 0
  {
    && (done <==> bytes <= Capacity(g, |ch| + |FreeClusters(t)|))
    && |FreeClusters(t)| - |FreeClusters(t')| ==
         (if !done then |FreeClusters(t)| else if Needed(g, bytes) > |ch| then Needed(g, bytes) - |ch| else 0)
  }

  lemma Accounts(g: Geo, t: Table, t': Table, ch: seq<nat>, ch': seq<nat>, bytes: nat, done: bool)
    requires g.perCluster > 0 && Grown(t, t', ch, ch')
    requires done ==> bytes <= Capacity(g, |ch'|) && (|ch'| > |ch| ==> Capacity(g, |ch'| - 1) < bytes)
    requires !done ==> FreeClusters(t') == {} && Capacity(g, |ch'|) < bytes
    ensures Spends(g, t, t', ch, bytes, done)
  {
    hide FreeClusters, Capacity, Needed, Grown;
    GrownCounts(t, t', ch, ch');
    if done {
      CapacityGrows(g, |ch'|, |ch| + |FreeClusters(t)|);
      if |ch'| > |ch| { NeededIs(g, |ch'|, bytes); } else { NeededBelow(g, |ch|, bytes); }
    }
  }

  lemma GrownCounts(t: Table, t': Table, ch: seq<nat>, ch': seq<nat>)
    requires Grown(t, t', ch, ch')
    ensures |ch| <= |ch'| && |FreeClusters(t)| - |FreeClusters(t')| == |ch'| - |ch|
  {
    GrownFree(t, t', ch, ch');
  }

  lemma NeededIs(g: Geo, n: nat, bytes: nat)
    requires g.perCluster > 0 && n > 0
    ensures (Capacity(g, n - 1) < bytes <= Capacity(g, n)) <==> n == Needed(g, bytes)
  {
    ClustersNeeded(g, n, bytes);
  }

  lemma NeededBelow(g: Geo, n: nat, bytes: nat)
    requires g.perCluster > 0 && bytes <= Capacity(g, n)
    ensures Needed(g, bytes) <= n
  {
    hide Capacity, Needed;
    var q := Needed(g, bytes);
    if q > n {
      NeededIs(g, q, bytes);
      CapacityGrows(g, n, q - 1);
      assert false;
    }
  }

  // Before the first cluster nothing is written, and nothing is all there is of [].
  lemma StartWrite(g: Geo, d: Disk, ch: seq<nat>, buffer: seq<byte>, start: nat)
    requires DiskOk(g, d) && Ended(TableOf(g, d), ch) && ch[0] == start
    ensures buffer != [] ==> AtTurn(g, d, d, ch, ch, buffer, d, buffer, 0, 0, start, 0)
    ensures buffer == [] ==> AtEnd(g, d, d, ch, ch, buffer, d, buffer, 0)
  {
    hide Touches, ClusterSector, Wrote, TableOf, Course, Whole, SameReserved;
    var t := TableOf(g, d);
    StartCourse(g, d, t, ch, buffer);
    SameSelf(g, d);
    NothingWrote(g, d, ch);
    TouchesNone(g, d, ch[..0]);
  }

  lemma StartCourse(g: Geo, d: Disk, t: Table, ch: seq<nat>, buffer: seq<byte>)
    requires DiskOk(g, d) && t == TableOf(g, d) && Ended(t, ch)
    ensures Course(g, d, t, t, ch, ch, buffer, d, buffer, 0)
    ensures HasClusters(g, d, ch) && Distinct(ch) && forall j | 0 <= j < |ch| :: IsCluster(g, ch[j])
  {
    hide Touches, GeoOk, TableOf, ClusterSector;
    GrownRefl(Whole(t, ch), ch);
    TouchesNone(g, d, ch);
    EndedInside(g, d, ch);
    ChainHas(g, d, ch);
  }

  lemma EndedInside(g: Geo, d: Disk, ch: seq<nat>)
    requires DiskOk(g, d) && Ended(TableOf(g, d), ch)
    ensures forall j | 0 <= j < |ch| :: Inside(TableOf(g, d), ch[j]) && IsCluster(g, ch[j])
  {
  }

  lemma NothingWrote(g: Geo, d: Disk, ch: seq<nat>)
    requires HasClusters(g, d, ch)
    ensures Wrote(g, d, d, ch, []) && Touches(g, d, d, ch)
  {
  }

  lemma TouchesNone(g: Geo, d: Disk, ch: seq<nat>)
    ensures Touches(g, d, d, ch)
  {
  }

  // ---- the course of write_chain ----

  // From cluster i of cc the loop goes on to `next`: the next one of cc, a new
  // last one, or, if the last one counts as the least free, that one again.
  ghost predicate Follow(t: Table, t': Table, cc: seq<nat>, cc': seq<nat>, i: nat, next: nat, again: bool) {
    && i < |cc| && Ended(t, cc) && Ended(t', cc')
    && (again <==> i + 1 == |cc| && LeastFree(t, Last(cc)))
    && (again ==> next == Last(cc) && cc' == cc && t' == Whole(t, cc))
    && (!again ==> cc <= cc' && i + 1 < |cc'| && next == cc'[i + 1])
    && (!again && i + 1 < |cc| ==> cc' == cc && t' == t)
    && (!again && i + 1 == |cc| ==> |cc'| == |cc| + 1 && Whole(t', cc') == t')
  }

  lemma EndedEntry(t: Table, cc: seq<nat>, i: nat)
    requires Ended(t, cc) && i < |cc|
    ensures cc[i] < |t| && |Whole(t, cc)| == |t|
  {
    WholeEntry(t, cc, i);
  }

  // The entry of cluster i is an end only in the last one.
  lemma LastHere(t: Table, t1: Table, ch: seq<nat>, cc: seq<nat>, i: nat)
    requires Ended(t1, cc) && Grown(t, Whole(t1, cc), ch, cc) && i < |cc| && cc[i] < |t1|
    requires t1[cc[i]] == 0 || t1[cc[i]] >= EOC_MIN
    ensures i + 1 == |cc|
  {
    hide Grown, IsChain, Whole;
    GrownChain(t, Whole(t1, cc), ch, cc, i);
    WholeEntry(t1, cc, i);
  }

  lemma FollowOn(t: Table, t1: Table, ch: seq<nat>, cc: seq<nat>, i: nat)
    requires Ended(t1, cc) && Grown(t, Whole(t1, cc), ch, cc) && i < |cc| && cc[i] < |t1|
    requires t1[cc[i]] != 0 && t1[cc[i]] < EOC_MIN
    ensures Follow(t1, t1, cc, cc, i, t1[cc[i]], false)
  {
    hide Grown, IsChain, Whole, LeastFree;
    GrownChain(t, Whole(t1, cc), ch, cc, i);
    WholeEntry(t1, cc, i);
  }

  lemma FollowGrown(t: Table, t1: Table, ch: seq<nat>, cc: seq<nat>, i: nat, f: nat)
    requires Ended(t1, cc) && Grown(t, Whole(t1, cc), ch, cc) && i + 1 == |cc| && cc[i] < |t1|
    requires (t1[cc[i]] == 0 || t1[cc[i]] >= EOC_MIN) && LeastFree(t1, f)
    ensures f < |t1| && f >= 2
    ensures var t2, n := t1[cc[i] := f % TWO28][f := EOC % TWO28], if f == cc[i] then cc else cc + [f];
            Ended(t2, n) && Grown(t, Whole(t2, n), ch, n) && Follow(t1, t2, cc, n, i, f, f == cc[i])
  {
    hide Grown, Ended, Whole, LeastFree;
    GrownChain(t, Whole(t1, cc), ch, cc, i);
    WholeEntry(t1, cc, i);
    OneLeast(t1, f, cc[i]);
    AppendIs(t1, cc[i], f);
    if f == cc[i] {
      AppendSelf(t1, cc);
      GrownEnded(t, Whole(t1, cc), ch, cc);
    } else {
      WholeFree(t1, cc, f);
      GrowStep(t, Whole(t1, cc), ch, cc, f);
      GrownEnded(t, Append(t1, cc[i], f), ch, cc + [f]);
    }
  }

  // More is written than the chain holds, and its last cluster counts as free:
  // it is the least free one.
  ghost predicate Loses(g: Geo, t: Table, ch: seq<nat>, bytes: nat) {
    ch != [] && bytes > Capacity(g, |ch|) && LeastFree(t, Last(ch))
  }

  // The buffer without what goes to the last cluster of ch first.
  function Skipping(g: Geo, ch: seq<nat>, buffer: seq<byte>): seq<byte>
    requires ch != [] && Capacity(g, |ch|) <= |buffer|
  {
    buffer[..Capacity(g, |ch| - 1)] + buffer[Capacity(g, |ch|)..]
  }

  // What of the buffer lasts.
  ghost function Lasting(g: Geo, t: Table, ch: seq<nat>, buffer: seq<byte>): seq<byte> {
    if Loses(g, t, ch, |buffer|) then Skipping(g, ch, buffer) else buffer
  }

  // The chain begins with these bytes.
  ghost predicate Begins(g: Geo, d: Disk, ch: seq<nat>, t: seq<byte>) {
    HasClusters(g, d, ch) && t <= ChainBytes(g, d, ch)
  }

  // Where write_chain stands: the table was t0 and is t, the chain ch has become
  // cc. Until the last cluster is taken again `data` is the buffer; from then on
  // it is what lasts, `base` the disk at that time and `back` the bytes lost.
  ghost predicate Course(g: Geo, d0: Disk, t0: Table, t: Table, ch: seq<nat>, cc: seq<nat>, buffer: seq<byte>,
                         base: Disk, data: seq<byte>, back: nat)
  {
    && Ended(t0, ch) && Ended(t, cc) && Grown(Whole(t0, ch), Whole(t, cc), ch, cc)
    && DiskOk(g, base) && TableOf(g, base) != [] && |TableOf(g, base)| == |t0| && Touches(g, d0, base, cc)
    && (back == 0 ==> base == d0 && data == buffer)
    && (back == 0 && |cc| == |ch| ==> cc == ch && t == t0)
    && (back == 0 && |cc| > |ch| ==> Whole(t, cc) == t && !Loses(g, t0, ch, |buffer|))
    && (back != 0 ==> Whole(t, cc) == t && Loses(g, t0, ch, |buffer|) && back == ClusterSize(g))
    && (back != 0 ==> data == Skipping(g, ch, buffer))
  }

  lemma CourseSlice(g: Geo, d0: Disk, t0: Table, t: Table, ch: seq<nat>, cc: seq<nat>, buffer: seq<byte>, base: Disk,
                    data: seq<byte>, back: nat, d: Disk, i: nat)
    requires Course(g, d0, t0, t, ch, cc, buffer, base, data, back) && Progress(g, base, d, cc, i, data)
    requires back != 0 ==> i + 1 >= |ch|
    ensures Capacity(g, i) <= |data| && |data| + back == |buffer|
    ensures data[Capacity(g, i)..] == buffer[Capacity(g, i) + back..]
  {
    hide Ended, Grown, Whole, Touches, LeastFree, DiskOk, HasClusters, ChainBytes, TableOf;
    if back != 0 {
      CapacityGrows(g, |ch| - 1, i);
      SkipSlice(buffer, Capacity(g, |ch| - 1), back, Capacity(g, i));
    }
  }

  lemma SkipSlice<T>(s: seq<T>, a: nat, n: nat, at: nat)
    requires a + n <= |s| && a <= at <= |s| - n
    ensures (s[..a] + s[a + n..])[at..] == s[at + n..]
  {
  }

  lemma CourseParts(g: Geo, d0: Disk, t0: Table, t: Table, ch: seq<nat>, cc: seq<nat>, buffer: seq<byte>, base: Disk,
                    data: seq<byte>, back: nat)
    requires Course(g, d0, t0, t, ch, cc, buffer, base, data, back)
    ensures Ended(t0, ch) && Ended(t, cc) && Grown(Whole(t0, ch), Whole(t, cc), ch, cc)
    ensures |TableOf(g, base)| == |t0| && |Whole(t, cc)| == |t0| && 0 < |ch| <= |cc|
    ensures |data| + back == |buffer|
  {
  }

  // The chain has grown by a cluster, and not by its last one.
  lemma CourseGrown(g: Geo, d0: Disk, t0: Table, t: Table, t': Table, ch: seq<nat>, cc: seq<nat>, cc': seq<nat>,
                    buffer: seq<byte>, base: Disk, data: seq<byte>, back: nat)
    requires Course(g, d0, t0, t, ch, cc, buffer, base, data, back) && !LeastFree(t, Last(cc))
    requires Ended(t', cc') && Grown(Whole(t0, ch), Whole(t', cc'), ch, cc') && Whole(t', cc') == t'
    requires cc <= cc' && |cc'| == |cc| + 1
    ensures Course(g, d0, t0, t', ch, cc', buffer, base, data, back)
  {
    hide IsChain, Touches, Whole, Ended, Skipping;
    assert cc'[..|cc|] == cc;
    TouchesPart(g, d0, base, cc', |cc|);
  }

  // The last cluster has been taken again.
  lemma CourseAgain(g: Geo, d0: Disk, d: Disk, d': Disk, t0: Table, t: Table, t': Table, ch: seq<nat>, cc: seq<nat>,
                    buffer: seq<byte>, base: Disk, data: seq<byte>, back: nat)
    requires Course(g, d0, t0, t, ch, cc, buffer, base, data, back) && LeastFree(t, Last(cc))
    requires Progress(g, base, d, cc, |cc|, data) && Capacity(g, |cc|) + back < |buffer|
    requires SameData(g, d, d') && DiskOk(g, d') && t' == TableOf(g, d') == Whole(t, cc)
    ensures cc == ch && back == 0
    ensures Course(g, d0, t0, t', ch, ch, buffer, d', Skipping(g, ch, buffer), ClusterSize(g))
    ensures Progress(g, d', d', ch, |ch| - 1, Skipping(g, ch, buffer))
    ensures Capacity(g, |ch| - 1) + ClusterSize(g) == Capacity(g, |ch|)
  {
    hide Touches, IsChain, SameData;
    WholeEntry(t, cc, |cc| - 1);
    assert |cc| == |ch|;
    ProgressTable(g, d0, d, d', ch, ch, |ch|, buffer);
    assert ch[..|ch|] == ch;
    AgainProgress(g, d0, d', ch, buffer);
    WholeSame(t', ch);
  }

  // Before a turn of the loop: cluster i of cc is to be filled.
  ghost predicate AtTurn(g: Geo, d0: Disk, d: Disk, ch: seq<nat>, cc: seq<nat>, buffer: seq<byte>, base: Disk,
                         data: seq<byte>, back: nat, i: nat, cluster: nat, offset: nat)
  {
    && DiskOk(g, d0) && DiskOk(g, d) && SameReserved(g, d0, d)
    && Course(g, d0, TableOf(g, d0), TableOf(g, d), ch, cc, buffer, base, data, back) && (back != 0 ==> i + 1 >= |ch|)
    && i < |cc| && cluster == cc[i] && offset == Capacity(g, i) + back && Progress(g, base, d, cc, i, data)
    && (|cc| > |ch| ==> i + 1 == |cc|)
  }

  // After the last one.
  ghost predicate AtEnd(g: Geo, d0: Disk, d: Disk, ch: seq<nat>, cc: seq<nat>, buffer: seq<byte>, base: Disk,
                        data: seq<byte>, back: nat)
  {
    && DiskOk(g, d0) && DiskOk(g, d) && SameReserved(g, d0, d)
    && Course(g, d0, TableOf(g, d0), TableOf(g, d), ch, cc, buffer, base, data, back)
    && Finished(g, base, d, ch, cc, data)
  }

  // What filling the cluster asks for.
  lemma TurnParts(g: Geo, d0: Disk, d: Disk, ch: seq<nat>, cc: seq<nat>, buffer: seq<byte>, base: Disk,
                  data: seq<byte>, back: nat, i: nat, cluster: nat, offset: nat)
    requires AtTurn(g, d0, d, ch, cc, buffer, base, data, back, i, cluster, offset) && offset <= |buffer|
    ensures i < |cc| && cluster == cc[i] && Capacity(g, i) <= |data| && data[Capacity(g, i)..] == buffer[offset..]
    ensures Progress(g, base, d, cc, i, data) && (|cc| > |ch| ==> i + 1 == |cc|)
  {
    hide Course, Progress, TableOf, SameReserved;
    CourseSlice(g, d0, TableOf(g, d0), TableOf(g, d), ch, cc, buffer, base, data, back, d, i);
  }

  // The cluster has been filled: it was the last, or what the next step asks for.
  lemma TurnFilled(g: Geo, d0: Disk, d: Disk, d': Disk, ch: seq<nat>, cc: seq<nat>, buffer: seq<byte>, base: Disk,
                   data: seq<byte>, back: nat, i: nat, cluster: nat, offset: nat, n: nat)
    requires AtTurn(g, d0, d, ch, cc, buffer, base, data, back, i, cluster, offset) && offset + n <= |buffer|
    requires DiskOk(g, d') && TableOf(g, d') == TableOf(g, d) && SameReserved(g, d, d')
    requires offset + n < |buffer| ==> n == ClusterSize(g) && Progress(g, base, d', cc, i + 1, data)
    requires offset + n == |buffer| ==> Finished(g, base, d', ch, cc, data)
    ensures offset + n == |buffer| ==> AtEnd(g, d0, d', ch, cc, buffer, base, data, back)
    ensures var t0, t := TableOf(g, d0), TableOf(g, d');
            && DiskOk(g, d0) && SameReserved(g, d0, d')
            && Course(g, d0, t0, t, ch, cc, buffer, base, data, back)
            && Ended(t0, ch) && Ended(t, cc) && Grown(Whole(t0, ch), Whole(t, cc), ch, cc)
    ensures ch != [] && Last(ch) < |TableOf(g, d0)| && i < |cc| && cluster == cc[i] && |data| + back == |buffer|
    ensures offset + n < |buffer| ==> offset + n == Capacity(g, i + 1) + back
  {
    hide Progress, TableOf, SameReserved, Finished, Grown, Whole, Touches, DiskOk, LeastFree;
    CourseParts(g, d0, TableOf(g, d0), TableOf(g, d'), ch, cc, buffer, base, data, back);
    SameReservedTrans(g, d0, d, d');
    CapacityStep(g, i);
  }

  lemma TurnTaken(g: Geo, d0: Disk, d: Disk, d1: Disk, d': Disk, ch: seq<nat>, cc: seq<nat>, cc': seq<nat>,
                  buffer: seq<byte>, base: Disk, data: seq<byte>, back: nat, i: nat, next: nat, offset: nat,
                  again: bool)
    returns (i': nat, base': Disk, data': seq<byte>, back': nat)
    requires DiskOk(g, d) && DiskOk(g, d1) && TableOf(g, d1) == TableOf(g, d)
    requires i < |cc| && AtTurn(g, d0, d, ch, cc, buffer, base, data, back, i, cc[i], Capacity(g, i) + back)
    requires Progress(g, base, d1, cc, i + 1, data) && offset == Capacity(g, i + 1) + back < |buffer|
    requires SameReserved(g, d0, d1) && SameData(g, d1, d') && SameReserved(g, d1, d') && DiskOk(g, d')
    requires Follow(TableOf(g, d1), TableOf(g, d'), cc, cc', i, next, again) && Ended(TableOf(g, d0), ch)
    requires Grown(Whole(TableOf(g, d0), ch), Whole(TableOf(g, d'), cc'), ch, cc')
    ensures AtTurn(g, d0, d', ch, cc', buffer, base', data', back', i', next, offset)
  {
    hide Course, Progress, SameData, DiskOk, GeoOk, Grown, IsChain, Whole, LeastFree, Skipping, TableOf, Capacity,
         SameReserved;
    var t0, t, t' := TableOf(g, d0), TableOf(g, d1), TableOf(g, d');
    SameReservedTrans(g, d0, d1, d');
    CourseParts(g, d0, t0, t, ch, cc, buffer, base, data, back);
    if again {
      CourseAgain(g, d0, d1, d', t0, t, t', ch, cc, buffer, base, data, back);
      i', base', data', back' := i, d', Skipping(g, ch, buffer), ClusterSize(g);
    } else {
      i', base', data', back' := i + 1, base, data, back;
      if i + 1 == |cc| { CourseGrown(g, d0, t0, t, t', ch, cc, cc', buffer, base, data, back); }
      GrownCounts(Whole(t0, ch), Whole(t', cc'), ch, cc');
      AfterNext(g, base, d1, d', Whole(t0, ch), Whole(t', cc'), ch, cc, cc', i + 1, data);
    }
  }

  lemma AgainProgress(g: Geo, d0: Disk, d: Disk, ch: seq<nat>, buffer: seq<byte>)
    requires ch != [] && DiskOk(g, d) && Progress(g, d0, d, ch, |ch|, buffer)
    ensures Capacity(g, |ch| - 1) + ClusterSize(g) == Capacity(g, |ch|)
    ensures Progress(g, d, d, ch, |ch| - 1, Skipping(g, ch, buffer))
  {
    hide ClusterBytes, ClusterSector;
    var n := |ch| - 1;
    assert ch[..|ch|] == ch;
    ChainLength(g, d, ch[..n]);
    assert ChainBytes(g, d, ch) == ChainBytes(g, d, ch[..n]) + ClusterBytes(g, d, ch[n]);
    assert buffer[..Capacity(g, |ch|)][..Capacity(g, n)] == buffer[..Capacity(g, n)];
    assert Skipping(g, ch, buffer)[..Capacity(g, n)] == buffer[..Capacity(g, n)];
  }

  lemma CourseFails(g: Geo, d0: Disk, d: Disk, ch: seq<nat>, cc: seq<nat>, buffer: seq<byte>,
                    base: Disk, data: seq<byte>, back: nat)
    requires DiskOk(g, d0) && DiskOk(g, d) && FreeClusters(TableOf(g, d)) == {}
    requires Course(g, d0, TableOf(g, d0), TableOf(g, d), ch, cc, buffer, base, data, back)
    requires Progress(g, base, d, cc, |cc|, data) && Capacity(g, |cc|) < |data|
    ensures ChainWritten(g, d0, d, ch, cc, buffer, false)
  {
    hide IsChain, Touches, FreeClusters, Spends, Skipping, TableOf, Grown, HasClusters, ChainBytes, LeastFree, Whole,
         Finished, Begins;
    var t0, t := TableOf(g, d0), TableOf(g, d);
    CourseParts(g, d0, t0, t, ch, cc, buffer, base, data, back);
    NoneFree(t, cc);
    NoneLeast(t, Last(cc));
    CapacityGrows(g, |ch|, |cc|);
    assert cc[..|cc|] == cc;
    TouchesTrans(g, d0, base, d, cc);
    Accounts(g, Whole(t0, ch), t, ch, cc, |data|, false);
  }

  lemma CourseEnds(g: Geo, d0: Disk, d: Disk, ch: seq<nat>, cc: seq<nat>, buffer: seq<byte>,
                   base: Disk, data: seq<byte>, back: nat)
    requires AtEnd(g, d0, d, ch, cc, buffer, base, data, back)
    ensures DiskOk(g, d0) && DiskOk(g, d) && SameReserved(g, d0, d) && ChainWritten(g, d0, d, ch, cc, buffer, true)
  {
    hide IsChain, Touches, FreeClusters, Spends, TableOf, Grown, Finished, LeastFree, Begins, Whole, Skipping, Capacity;
    var t0, t := TableOf(g, d0), TableOf(g, d);
    CourseParts(g, d0, t0, t, ch, cc, buffer, base, data, back);
    FinishedTouches(g, base, d, ch, cc, data);
    TouchesTrans(g, d0, base, d, cc);
    Accounts(g, Whole(t0, ch), Whole(t, cc), ch, cc, |data|, true);
    CapacityStep(g, |cc| - 1);
    if |cc| > |ch| { CapacityGrows(g, |ch|, |cc| - 1); }
    if back != 0 { FinishedBegins(g, base, d, ch, cc, data); }
  }

  lemma CapacityStep(g: Geo, k: nat)
    ensures Capacity(g, k + 1) == Capacity(g, k) + ClusterSize(g)
  {
  }

  lemma FinishedBegins(g: Geo, d: Disk, d': Disk, ch: seq<nat>, cc: seq<nat>, t: seq<byte>)
    requires Finished(g, d, d', ch, cc, t)
    ensures Begins(g, d', cc, t)
  {
    hide ChainBytes;
  }

  // What write_chain of `buffer` makes of the chain ch, whose last entry is an end
  // mark or 0. A complete write is one, or the last cluster has been written
  // twice and what it was given first is lost.
  ghost predicate ChainWritten(g: Geo, d: Disk, d': Disk, ch: seq<nat>, ch': seq<nat>, buffer: seq<byte>, done: bool)
    requires DiskOk(g, d) && DiskOk(g, d')
  {
    var t, t' := TableOf(g, d), TableOf(g, d');
    && Ended(t, ch) && Ended(t', ch') && Grown(Whole(t, ch), Whole(t', ch'), ch, ch') && Touches(g, d, d', ch')
    && (if |buffer| <= Capacity(g, |ch|) then t' == t && ch' == ch else Whole(t', ch') == t')
    && Spends(g, Whole(t, ch), Whole(t', ch'), ch, |Lasting(g, t, ch, buffer)|, done)
    && (!done ==> FreeClusters(t') == {})
    && (done && !Loses(g, t, ch, |buffer|) ==> Finished(g, d, d', ch, ch', buffer))
    && (done && Loses(g, t, ch, |buffer|) ==>
          Capacity(g, |ch'|) < |buffer| && Begins(g, d', ch', Skipping(g, ch, buffer)))
  }

  // On a chain with an end mark nothing is lost.
  lemma PlainChain(g: Geo, d: Disk, d': Disk, ch: seq<nat>, ch': seq<nat>, buffer: seq<byte>, done: bool)
    requires DiskOk(g, d) && DiskOk(g, d') && IsChain(TableOf(g, d), ch)
    requires ChainWritten(g, d, d', ch, ch', buffer, done)
    ensures Grown(TableOf(g, d), TableOf(g, d'), ch, ch') && Touches(g, d, d', ch')
    ensures done ==> Finished(g, d, d', ch, ch', buffer)
    ensures !done ==> FreeClusters(TableOf(g, d')) == {}
    ensures Spends(g, TableOf(g, d), TableOf(g, d'), ch, |buffer|, done)
  {
    hide Spends, Grown, FreeClusters, TableOf, Touches, Finished, Capacity;
    WholeSame(TableOf(g, d), ch);
  }

  lemma TouchesTrans(g: Geo, d: Disk, d1: Disk, d2: Disk, ch: seq<nat>)
    requires Touches(g, d, d1, ch) && Touches(g, d1, d2, ch)
    ensures Touches(g, d, d2, ch)
  {
    forall s | g.firstData <= s < |d| && d[s] != d2[s] ensures InSome(g, ch, s) {
      if d[s] == d1[s] { assert d1[s] != d2[s]; }
    }
  }

  lemma SameSuffix<T>(a: seq<T>, b: seq<T>, i: nat, j: nat, n: nat)
    requires i <= |a| && j <= |b| && a[i..] == b[j..] && j + n <= |b|
    ensures i + n <= |a| && |a| - i == |b| - j && a[i..i + n] == b[j..j + n]
  {
    assert a[i..][..n] == a[i..i + n] && b[j..][..n] == b[j..j + n];
  }

  lemma AfterWrite(g: Geo, d0: Disk, d: Disk, d': Disk, ch: seq<nat>, cc: seq<nat>, i: nat, t: seq<byte>, n: nat)
    requires DiskOk(g, d) && Progress(g, d0, d, cc, i, t) && i < |cc| && |d'| == |d|
    requires n == if |t| - Capacity(g, i) < ClusterSize(g) then |t| - Capacity(g, i) else ClusterSize(g)
    requires n > 0
    requires ClusterBytes(g, d', cc[i]) == t[Capacity(g, i)..Capacity(g, i) + n] + ClusterBytes(g, d, cc[i])[n..]
    requires forall s | 0 <= s < |d| && !(ClusterSector(g, cc[i]) <= s < ClusterSector(g, cc[i]) + g.perCluster) ::
      d'[s] == d[s]
    requires |cc| > |ch| ==> i + 1 == |cc|
    ensures DiskOk(g, d') && TableOf(g, d') == TableOf(g, d) && SameReserved(g, d, d')
    ensures Capacity(g, i) + n < |t| ==> Progress(g, d0, d', cc, i + 1, t)
    ensures Capacity(g, i) + n == |t| ==> Finished(g, d0, d', ch, cc, t)
  {
    hide Touches, Wrote, HasClusters, ClusterBytes, ClusterSector, GeoOk;
    ProgressWrite(g, d0, d, d', cc, i, t, n);
    ClusterInside(g, cc[i]);
    SameTable(g, d, d');
    TouchesPart(g, d0, d', cc, i + 1);
    CapacityGrows(g, i + 1, |cc|);
  }

  lemma {:induction false} CapacityGrows(g: Geo, m: nat, n: nat)
    requires m <= n
    ensures Capacity(g, m) <= Capacity(g, n)
    decreases n
  {
    if m < n { CapacityGrows(g, m, n - 1); }
  }

  lemma SameReservedTrans(g: Geo, d: Disk, d1: Disk, d2: Disk)
    requires DiskOk(g, d) && DiskOk(g, d1) && SameReserved(g, d, d1) && SameReserved(g, d1, d2)
    ensures SameReserved(g, d, d2)
  {
  }

  lemma TouchesPart(g: Geo, d: Disk, d': Disk, ch: seq<nat>, n: nat)
    requires n <= |ch| && Touches(g, d, d', ch[..n])
    ensures Touches(g, d, d', ch)
  {
    forall s | g.firstData <= s < |d| && d[s] != d'[s] ensures InSome(g, ch, s) {
      assert InSome(g, ch[..n], s);
    }
  }

  lemma AfterNext(g: Geo, d0: Disk, d: Disk, d': Disk, t0: Table, t: Table, ch: seq<nat>, cc: seq<nat>, cc': seq<nat>,
                  i: nat, data: seq<byte>)
    requires Progress(g, d0, d, cc, i, data) && SameData(g, d, d') && cc <= cc'
    requires Grown(t0, t, ch, cc') && |t| == |TableOf(g, d0)|
    ensures Progress(g, d0, d', cc', i, data)
  {
    ProgressTable(g, d0, d, d', cc, cc', i, data);
  }

  lemma AppendIs(t: Table, last: nat, f: nat)
    requires last < |t| && f < |t|
    ensures Append(t, last, f) == t[last := f % TWO28][f := EOC % TWO28]
  {
  }

  lemma AppendSelf(t: Table, ch: seq<nat>)
    requires Ended(t, ch) && t[Last(ch)] == 0
    ensures Append(t, Last(ch), Last(ch)) == Whole(t, ch)
  {
  }

  lemma TablePlace(g: Geo, d: Disk, c: nat)
    requires DiskOk(g, d) && c < ClusterCount(g) + 2
    ensures g.fatStart + c / 128 < |d| && 4 * c / SECTOR_SIZE == c / 128 && 4 * c % SECTOR_SIZE == 4 * (c % 128)
  {
    EntryInside(g, c);
  }

  lemma SameSelf(g: Geo, d: Disk)
    requires DiskOk(g, d)
    ensures SameData(g, d, d) && SameReserved(g, d, d)
  {
    forall c: nat | c < ClusterCount(g) + 2 ensures g.fatStart + c / 128 < |d| { EntryInside(g, c); }
  }

  lemma SameTrans(g: Geo, d: Disk, d1: Disk, d2: Disk)
    requires DiskOk(g, d) && DiskOk(g, d1)
    requires SameData(g, d, d1) && SameReserved(g, d, d1) && SameData(g, d1, d2) && SameReserved(g, d1, d2)
    ensures SameData(g, d, d2) && SameReserved(g, d, d2)
  {
  }

  // What ReadEntry finds at cluster i of a grown chain.
  lemma GrownChain(t: Table, t': Table, ch: seq<nat>, cc: seq<nat>, i: nat)
    requires Grown(t, t', ch, cc) && i < |cc|
    ensures |t'| == |t| && Inside(t', cc[i])
    ensures if i + 1 < |cc| then t'[cc[i]] == cc[i + 1] && 2 <= cc[i + 1] < EOC_MIN
            else t'[cc[i]] >= EOC_MIN && cc[i] == Last(cc)
  {
    assert i + 1 < |cc| ==> Inside(t', cc[i + 1]);
  }

  lemma InTable(g: Geo, d: Disk, c: nat)
    requires DiskOk(g, d) && c < ClusterCount(g) + 2
    ensures g.fatStart + 4 * c / SECTOR_SIZE < |d| && 4 * c % SECTOR_SIZE + 4 <= SECTOR_SIZE
    ensures TableOf(g, d)[c] == Field32(d[g.fatStart + 4 * c / SECTOR_SIZE], 4 * c % SECTOR_SIZE) % TWO28
  {
    hide Field32;
    EntryInside(g, c);
    TablePlace(g, d, c);
  }
}
