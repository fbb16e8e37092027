/**
  Where everything is on the disk, byte by byte: table entries, the sectors of
  clusters, the fields of slots, and which slots a search takes.
 */
module FatLayout {
  import opened Widths
  import opened Bytes
  import opened Fat
  import opened FatTable
  import opened FatDriver
  import opened FatNames
  import opened FatSlots
  import opened FatScan
  import opened FatFiles
  import opened FatDirs
  import opened FatMkdir

  // Entry c is 28 bits of the four bytes at 4 * c in the table.
  lemma EntryBytes(g: Geo, d: Disk, c: nat)
    requires DiskOk(g, d) && c < |TableOf(g, d)|
    ensures |TableOf(g, d)| == (g.totalSectors - g.firstData) / g.perCluster + 2
    ensures g.fatStart + c / 128 < |d|
    ensures var s, at := d[g.fatStart + c / 128], 4 * (c % 128);
            TableOf(g, d)[c] == Number(s[at], s[at + 1], s[at + 2], s[at + 3]) % 0x1000_0000
  {
    var s, at := d[g.fatStart + c / 128], 4 * (c % 128);
    assert RawEntry(g, d, c) == Number(s[at], s[at + 1], s[at + 2], s[at + 3]);
  }

  // A chain: different clusters, each entry the number of the next, the last one
  // 0x0FFFFFF8 or more.
  ghost predicate Links(t: Table, ch: seq<nat>) {
    && ch != [] && (forall i | 0 <= i < |ch| :: 2 <= ch[i] < |t|)
    && (forall i, j | 0 <= i < j < |ch| :: ch[i] != ch[j])
    && (forall i | 0 <= i < |ch| - 1 :: t[ch[i]] == ch[i + 1])
    && t[ch[|ch| - 1]] >= 0x0FFF_FFF8
  }

  lemma ChainLinks(t: Table, ch: seq<nat>)
    ensures IsChain(t, ch) <==> Links(t, ch)
  {
    if IsChain(t, ch) {
      forall i | 0 <= i < |ch| ensures 2 <= ch[i] < |t| { assert Inside(t, ch[i]); }
    }
  }

  // The cluster taken: the first one from 2 on whose entry is 0.
  lemma FirstFree(t: Table, f: nat)
    ensures LeastFree(t, f) <==> 2 <= f < |t| && t[f] == 0 && forall c: nat | 2 <= c < f :: t[c] != 0
    ensures FreeClusters(t) == {} <==> forall c: nat | 2 <= c < |t| :: t[c] != 0
  {
    if 2 <= f < |t| && t[f] == 0 && forall c: nat | 2 <= c < f :: t[c] != 0 {
      forall c | IsFree(t, c) ensures f <= c { }
      assert IsFree(t, f);
    }
    if LeastFree(t, f) {
      forall c: nat | 2 <= c < f ensures t[c] != 0 { assert t[c] == 0 ==> IsFree(t, c); }
    }
    forall c: nat | 2 <= c < |t| ensures c in FreeClusters(t) <==> t[c] == 0 { }
  }

  // Byte j of sector s of cluster k of a chain.
  lemma ChainByte(g: Geo, d: Disk, ch: seq<nat>, k: nat, s: nat, j: nat)
    requires HasClusters(g, d, ch) && k < |ch| && s < g.perCluster && j < 512
    ensures |ChainBytes(g, d, ch)| == 512 * g.perCluster * |ch|
    ensures 0 <= g.firstData + (ch[k] - 2) * g.perCluster + s < |d|
    ensures 512 * g.perCluster * k + 512 * s + j < |ChainBytes(g, d, ch)|
    ensures ChainBytes(g, d, ch)[512 * g.perCluster * k + 512 * s + j]
            == d[g.firstData + (ch[k] - 2) * g.perCluster + s][j]
  {
    hide ChainBytes, ClusterBytes;
    ClusterOfChain(g, d, ch, k);
    SectorOfCluster(g, d, ch[k], s);
    ChainLength(g, d, ch);
    CapacityIs(g, k);
    CapacityIs(g, |ch|);
    assert 512 * s + 512 <= ClusterSize(g);
    var b, c := ChainBytes(g, d, ch), ClusterBytes(g, d, ch[k]);
    assert c[512 * s + j] == c[512 * s..512 * s + 512][j];
    assert b[Capacity(g, k) + (512 * s + j)] == b[Capacity(g, k)..Capacity(g, k) + ClusterSize(g)][512 * s + j];
  }

  lemma {:induction false} CapacityIs(g: Geo, n: nat)
    ensures Capacity(g, n) == 512 * g.perCluster * n
  {
    if n > 0 {
      CapacityIs(g, n - 1);
      assert 512 * g.perCluster * n == 512 * g.perCluster * (n - 1) + 512 * g.perCluster;
    }
  }

  // ---- which slots a search takes ----

  // Slot p is in use under these 11 bytes: not the end, not deleted, no long name.
  ghost predicate Bears(b: seq<byte>, p: nat, key: seq<byte>) {
    && 32 * p + 32 <= |b| && |key| == 11
    && b[32 * p] != 0 && b[32 * p] != 0xE5 && b[32 * p + 11] != 0x0F
    && forall j | 0 <= j < 11 :: b[32 * p + j] == key[j]
  }

  lemma NamedIs(b: seq<byte>, p: nat, key: seq<byte>)
    requires |key| == 11 && HasSlot(b, p)
    ensures Judge(Named(key), SlotAt(b, p)) != Skip <==> Bears(b, p, key)
    ensures Judge(Find(key), SlotAt(b, p)) == Take <==> Bears(b, p, key)
    ensures Judge(Find(key), SlotAt(b, p)) == Stop <==> b[32 * p] == 0
    ensures Judge(Unused, SlotAt(b, p)) == Take <==> b[32 * p] == 0 || b[32 * p] == 0xE5
    ensures Judge(Unused, SlotAt(b, p)) != Stop
  {
    var s := SlotAt(b, p);
    assert s[0] == b[32 * p] && s[11] == b[32 * p + 11];
    assert forall j | 0 <= j < 11 :: SlotName(s)[j] == b[32 * p + j];
  }

  // find_entry: the first slot of that name, if no slot before it ends the directory.
  lemma FoundBytes(b: seq<byte>, key: seq<byte>, p: nat, slot: Slot)
    requires |key| == 11
    ensures FoundAt(b, key, p, slot) <==>
      Bears(b, p, key) && slot == b[32 * p..32 * p + 32] && forall q: nat | q < p :: b[32 * q] != 0 && !Bears(b, q, key)
  {
    if HasSlot(b, p) {
      forall q: nat | q <= p ensures HasSlot(b, q) { }
      forall q: nat | q <= p ensures Judge(Find(key), SlotAt(b, q)) == Skip <==> b[32 * q] != 0 && !Bears(b, q, key) {
        NamedIs(b, q, key);
      }
      NamedIs(b, p, key);
    }
  }

  // The name that is listed: the base up to its first blank, and behind a dot the
  // extension up to its own, if both have something.
  lemma PrintedBytes(n: seq<byte>, i: nat, j: nat)
    requires |n| == 11 && i <= 8 && j <= 3
    requires 0x20 !in n[..i] && (i == 8 || n[i] == 0x20) && 0x20 !in n[8..8 + j] && (j == 3 || n[8 + j] == 0x20)
    ensures Printed(n) == if i > 0 && n[8..] != [0x20, 0x20, 0x20] then n[..i] + [0x2E] + n[8..8 + j] else n[..i]
  {
    ToBlank(n[..8], i);
    ToBlank(n[8..], j);
    assert n[..8][..i] == n[..i] && n[8..][..j] == n[8..8 + j];
    assert n[8..] == [n[8], n[9], n[10]];
  }

  lemma {:induction false} ToBlank(s: seq<byte>, i: nat)
    requires i <= |s| && 0x20 !in s[..i] && (i == |s| || s[i] == 0x20)
    ensures UpToBlank(s) == s[..i]
    decreases i
  {
    if i > 0 {
      assert s[0] in s[..i] && s[1..][..i - 1] == s[..i][1..];
      ToBlank(s[1..], i - 1);
    }
  }

  // ---- what is stored in slots ----

  // create_entry_at: name and attribute, no first cluster, no size; times stay.
  lemma FreshBytes(s: Slot, key: seq<byte>, attr: byte)
    requires |key| == 11
    ensures var x := Fresh(s, key, attr);
            && (forall i | 0 <= i < 11 :: x[i] == key[i]) && x[11] == attr
            && (forall i | 12 <= i < 20 || 22 <= i < 26 :: x[i] == s[i])
            && Number(x[26], x[27], x[20], x[21]) == 0 && Number(x[28], x[29], x[30], x[31]) == 0
  {
    hide Number;
    var y := Splice(WithName(s, key), 11, [attr]);
    WithSizeBytes(y, 0);
    WithClusterBytes(WithSize(y, 0), 0);
    WithClusterGet(WithSize(y, 0), 0);
    WithSizeGet(y, 0);
    SlotFields(Fresh(s, key, attr));
  }

  // fat32_create_file: attribute 0x20.
  lemma FileEntryBytes(s: Slot, key: seq<byte>)
    requires |key| == 11
    ensures var x := Fresh(s, key, ATTR_FILE);
            && (forall i | 0 <= i < 11 :: x[i] == key[i]) && x[11] == 0x20
            && (forall i | 12 <= i < 20 || 22 <= i < 26 :: x[i] == s[i])
            && x[20] == x[21] == x[26] == x[27] == 0 && x[28] == x[29] == x[30] == x[31] == 0
  {
    hide Number, Fresh;
    FreshBytes(s, key, ATTR_FILE);
    var x := Fresh(s, key, ATTR_FILE);
    ZeroBytes(x[26], x[27], x[20], x[21]);
    ZeroBytes(x[28], x[29], x[30], x[31]);
  }

  lemma ZeroBytes(a: byte, b: byte, c: byte, d: byte)
    requires Number(a, b, c, d) == 0
    ensures a == b == c == d == 0
  {
  }

  // fat32_mkdir: attribute 0x10, and the new cluster.
  lemma DirEntryBytes(s: Slot, key: seq<byte>, f: nat)
    requires |key| == 11 && f < TWO32
    ensures var x := DirEntry(s, key, f);
            && (forall i | 0 <= i < 11 :: x[i] == key[i]) && x[11] == 0x10
            && (forall i | 12 <= i < 20 || 22 <= i < 26 :: x[i] == s[i])
            && Number(x[26], x[27], x[20], x[21]) == f && Number(x[28], x[29], x[30], x[31]) == 0
  {
    hide Number;
    var y := Fresh(s, key, ATTR_DIR);
    FreshBytes(s, key, ATTR_DIR);
    WithClusterBytes(y, f);
  }

  // The first sector of a new directory: "." with its own cluster, ".." with the
  // parent's, both directories, the rest zeros.
  lemma DirSectorBytes(self: nat, parent: nat)
    requires self < TWO32 && parent < TWO32
    ensures var s := DirSector(self, parent);
            && s[0] == 0x2E && (forall i | 1 <= i < 11 :: s[i] == 0x20) && s[11] == 0x10
            && Number(s[26], s[27], s[20], s[21]) == self
            && s[32] == s[33] == 0x2E && (forall i | 34 <= i < 43 :: s[i] == 0x20) && s[43] == 0x10
            && Number(s[58], s[59], s[52], s[53]) == parent
            && (forall i | 12 <= i < 20 || 22 <= i < 26 || 28 <= i < 32 :: s[i] == 0)
            && (forall i | 44 <= i < 52 || 54 <= i < 58 || 60 <= i < 512 :: s[i] == 0)
  {
    hide Number, Name83;
    DotBytes([DOT], self);
    DotBytes([DOT, DOT], parent);
    NameBytes([DOT]);
    NameBytes([DOT, DOT]);
    var s, a, b := DirSector(self, parent), DotSlot([DOT], self), DotSlot([DOT, DOT], parent);
    assert s[..32] == a && s[32..64] == b && s[64..] == Zeros(448);
    assert forall i | 0 <= i < 32 :: s[i] == a[i] && s[32 + i] == b[i];
    assert forall i | 64 <= i < 512 :: s[i] == Zeros(448)[i - 64];
    assert forall i | 32 <= i < 64 :: s[i] == b[i - 32];
  }

  lemma DotBytes(dots: seq<byte>, c: nat)
    requires IsDots(dots) && c < TWO32
    ensures var x := DotSlot(dots, c);
            && (forall i | 0 <= i < 11 :: x[i] == Name83(dots)[i]) && x[11] == 0x10
            && Number(x[26], x[27], x[20], x[21]) == c
            && forall i | 12 <= i < 20 || 22 <= i < 26 || 28 <= i < 32 :: x[i] == 0
  {
    hide Number, Name83;
    WithClusterBytes(Splice(WithName(Zeros(32), Name83(dots)), 11, [ATTR_DIR]), c);
  }

  // fat32_rename stores the name and nothing else.
  lemma RenamedBytes(s: Slot, key: seq<byte>)
    requires |key| == 11
    ensures var x := WithName(s, key);
            (forall i | 0 <= i < 11 :: x[i] == key[i]) && forall i | 11 <= i < 32 :: x[i] == s[i]
  {
  }

  // PutSlot changes the 32 bytes of slot p.
  lemma StoredBytes(b: seq<byte>, p: nat, x: Slot, i: nat)
    requires HasSlot(b, p) && i < |b|
    ensures 32 * p + 32 <= |b|
    ensures PutSlot(b, p, x)[i] == if 32 * p <= i < 32 * p + 32 then x[i - 32 * p] else b[i]
  {
  }

  // What no call may change: the sectors before the table, and the upper half of
  // the last byte of every entry.
  lemma ReservedBytes(g: Geo, d: Disk, d': Disk, c: nat)
    requires DiskOk(g, d) && SameReserved(g, d, d') && c < |TableOf(g, d)|
    ensures forall s | 0 <= s < g.fatStart :: d'[s] == d[s]
    ensures g.fatStart + c / 128 < |d|
    ensures d'[g.fatStart + c / 128][4 * (c % 128) + 3] / 16 == d[g.fatStart + c / 128][4 * (c % 128) + 3] / 16
  {
    var s, s', at := d[g.fatStart + c / 128], d'[g.fatStart + c / 128], 4 * (c % 128);
    TopHalf(s[at..at + 4]);
    TopHalf(s'[at..at + 4]);
    assert RawEntry(g, d, c) / TWO28 == RawEntry(g, d', c) / TWO28;
  }

  lemma TopHalf(b: seq<byte>)
    requires |b| == 4
    ensures Le32(b) / TWO28 == b[3] as nat / 16
  {
  }

  // fat32_change_dir: byte 11 of the slot says whether it is a directory, bytes 26,
  // 27, 20 and 21 where that begins, with 0 for the root.
  lemma EnteredBytes(g: Geo, b: seq<byte>, key: seq<byte>, from: nat, r: int, cwd: nat, p: nat, slot: Slot)
    requires DirChanged(g, b, key, from, r, cwd) && FoundAt(b, key, p, slot)
    ensures slot[11] / 16 % 2 == 0 ==> r == -5 && cwd == from
    ensures slot[11] / 16 % 2 == 1 ==> r == 0
    ensures slot[11] / 16 % 2 == 1 ==>
      cwd == if Number(slot[26], slot[27], slot[20], slot[21]) == 0 then g.root
             else Number(slot[26], slot[27], slot[20], slot[21])
  {
    SlotFields(slot);
  }
}
