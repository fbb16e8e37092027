/** What the loader takes from an image, and what it leaves in memory, byte by byte. */
module MachOBytes {
  import opened Options
  import opened Widths
  import opened Bytes
  import opened Words
  import opened MachO
  import opened MachOPlaces

  // Eight bytes, the lowest first.
  function Long(s: seq<byte>, at: nat): nat
    requires at + 8 <= |s|
  {
    Number(s[at], s[at + 1], s[at + 2], s[at + 3])
    + 0x1_0000_0000 * Number(s[at + 4], s[at + 5], s[at + 6], s[at + 7])
  }

  function Word(s: seq<byte>, at: nat): nat
    requires at + 4 <= |s|
  {
    Number(s[at], s[at + 1], s[at + 2], s[at + 3])
  }

  lemma FieldIs(s: seq<byte>, at: nat)
    requires at + 4 <= |s|
    ensures Field32(s, at) == Word(s, at)
    ensures at + 8 <= |s| ==> Field64(s, at) == Long(s, at)
  {
  }

  // The magic is CF FA ED FE, or those bytes backwards.
  lemma MagicBytes(data: seq<byte>)
    requires |data| >= 32
    ensures IsImage(data) <==> data[..4] == [0xCF, 0xFA, 0xED, 0xFE] || data[..4] == [0xFE, 0xED, 0xFA, 0xCF]
  {
    FieldIs(data, 0);
    var m := data[..4];
    assert m == [data[0], data[1], data[2], data[3]];
  }

  // Where command i begins: the first behind the 32-byte header, each of the others
  // where its predecessor's size says.
  function OffsetOf(data: seq<byte>, off: nat, i: nat): nat {
    if i == 0 then off
    else var o := OffsetOf(data, off, i - 1); if o + 8 <= |data| then o + Word(data, o + 4) else o
  }

  lemma {:induction false} OffsetStep(data: seq<byte>, off: nat, i: nat)
    requires off + 8 <= |data|
    ensures OffsetOf(data, off + Word(data, off + 4), i) == OffsetOf(data, off, i + 1)
  {
    if i > 0 { OffsetStep(data, off, i - 1); }
  }

  lemma FirstOffset(data: seq<byte>, off: nat)
    ensures OffsetOf(data, off, 0) == off
  {
  }

  lemma Heads(data: seq<byte>, off: nat)
    requires CmdInside(data, off)
    ensures off + 8 <= |data|
  {
  }

  lemma {:induction false} CmdsAt(data: seq<byte>, off: nat, n: nat, i: nat)
    requires CmdsInside(data, off, n) && i < n
    ensures CmdInside(data, OffsetOf(data, off, i)) && CmdsFrom(data, off, n)[i] == CmdAt(data, OffsetOf(data, off, i))
    decreases n
  {
    hide CmdAt, Word, CmdInside, CmdsInside, CmdsFrom, OffsetOf, Field32;
    CmdsNext(data, off, n);
    Heads(data, off);
    FieldIs(data, off + 4);
    if i == 0 {
      FirstOffset(data, off);
    } else {
      CmdsAt(data, off + Field32(data, off + 4), n - 1, i - 1);
      OffsetStep(data, off, i - 1);
      assert CmdsFrom(data, off, n)[1..][i - 1] == CmdsFrom(data, off, n)[i];
    }
  }

  // Command i of an image, as many as bytes 16 to 19 say: 0x19 is a segment, 0x80000028
  // an entry point, 5 a thread, of which the long at byte 48 counts.
  lemma CmdBytes(data: seq<byte>, i: nat)
    requires ImageOk(data) && IsImage(data) && i < Word(data, 16)
    ensures |Cmds(data)| == Word(data, 16)
    ensures var o := OffsetOf(data, 32, i);
            && o + 8 <= |data|
            && (Word(data, o) == 0x19 ==>
                  && o + 72 <= |data|
                  && Cmds(data)[i] ==
                       Segment(Long(data, o + 24), Long(data, o + 32), Long(data, o + 40), Long(data, o + 48)))
            && (Word(data, o) == 0x8000_0028 ==> o + 24 <= |data| && Cmds(data)[i] == EntryAt(Long(data, o + 8)))
            && (Word(data, o) == 5 ==> o + 56 <= |data| && Cmds(data)[i] == Thread(Long(data, o + 48)))
            && (Word(data, o) != 0x19 && Word(data, o) != 0x8000_0028 && Word(data, o) != 5 ==> Cmds(data)[i] == Other)
  {
    hide Word, Long, CmdsInside, CmdsFrom, Field32, Field64;
    FieldIs(data, 16);
    CmdsAt(data, 32, Field32(data, 16), i);
    var o := OffsetOf(data, 32, i);
    FieldIs(data, o);
    if Word(data, o) == 0x19 {
      FieldIs(data, o + 24);
      FieldIs(data, o + 32);
      FieldIs(data, o + 40);
      FieldIs(data, o + 48);
    } else if Word(data, o) == 0x8000_0028 {
      FieldIs(data, o + 8);
    } else if Word(data, o) == 5 {
      FieldIs(data, o + 48);
    }
  }

  predicate SaysEntry(c: Cmd) { c.EntryAt? || c.Thread? }

  // The entry point is that of the last command that says one: an offset from
  // 0x2000000, or an address that moves with the segments seen so far; or 0.
  lemma {:induction false} LastEntry(cs: seq<Cmd>, k: nat)
    requires k <= |cs| && forall i | k < i < |cs| :: !SaysEntry(cs[i])
    ensures k == |cs| && (forall i | 0 <= i < |cs| :: !SaysEntry(cs[i])) ==> Entry(cs) == 0
    ensures k < |cs| && cs[k].EntryAt? ==> Entry(cs) == (0x200_0000 + cs[k].entryoff) % 0x1_0000_0000_0000_0000
    ensures k < |cs| && cs[k].Thread? ==>
      Entry(cs) == if Base(cs[..k + 1]) == 0 then cs[k].start
                   else (cs[k].start - Base(cs[..k + 1]) + 0x200_0000) % 0x1_0000_0000_0000_0000
    decreases |cs|
  {
    hide Base;
    if cs != [] {
      var n := |cs| - 1;
      var u := cs[..n];
      NextValues(cs);
      if k < n {
        LastEntry(u, k);
        assert u[..k + 1] == cs[..k + 1] && !SaysEntry(cs[n]);
      } else if k == n {
        assert cs[..k + 1] == cs;
      } else {
        LastEntry(u, n);
      }
    }
  }

  // Byte j of segment k, in plain numbers: at vmaddr - first vmaddr + 0x2000000 + j lies
  // the file's byte, or zero behind the file's part.
  lemma LandsBytes(cs: seq<Cmd>, data: seq<byte>, m: Bytemap, f: nat, k: nat, j: nat)
    requires FilesInside(cs, data) && FirstLoaded(cs, f) && cs[f].vmaddr != 0 && DisjointSegs(cs)
    requires k < |cs| && cs[k].Segment? && cs[k].filesize > 0 && (j < cs[k].filesize || j < cs[k].vmsize)
    ensures j < cs[k].filesize ==> cs[k].fileoff + j < |data|
    ensures ByteAt(cs, data, m, (cs[k].vmaddr - cs[f].vmaddr + 0x200_0000 + j) % 0x1_0000_0000_0000_0000)
            == Some(if j < cs[k].filesize then data[cs[k].fileoff + j] else 0)
  {
    hide ByteAt, Base, DisjointSegs, FirstLoaded;
    assert FileInside(cs[k], data);
    SegmentLands(cs, data, m, f, k, j, |cs|);
    assert cs[..|cs|] == cs;
  }

  // The packer's image in plain bytes: header, one segment command, one entry command
  // and the code from byte 128 on.
  lemma PackBytes(code: seq<byte>, entry: nat)
    requires entry < TWO64 && |code| < TWO64
    ensures var p := Pack(code, entry);
            && p.Packed? && |p.data| == 128 + |code| && (forall i | 0 <= i < |code| :: p.data[128 + i] == code[i])
            && p.data[..64] == Preface() && p.data[88..104] == SegmentEnd()
            && Long(p.data, 64) == |code| && Long(p.data, 72) == 128 && Long(p.data, 80) == |code|
            && Word(p.data, 104) == 0x8000_0028 && Word(p.data, 108) == 24
            && Long(p.data, 112) == entry && Long(p.data, 120) == 0
  {
    hide Field32, Field64, Header, SegmentBytes, MainBytes, Word, Long;
    var n := |code|;
    var h, s, m := Header(), SegmentBytes(n), MainBytes(entry);
    var data := Pack(code, entry).data;
    PackedCmds(code, entry);
    HeaderFields(s + m + code);
    SegmentFields(h, n, m + code);
    MainFields(h + s, entry, code);
    assert data == h + (s + m + code) && data == h + s + (m + code) && data == (h + s) + m + code;
    forall i | 0 <= i < |code| ensures data[128 + i] == code[i] { assert data[128..][i] == code[i]; }
    FieldIs(data, 64);
    FieldIs(data, 72);
    FieldIs(data, 80);
    FieldIs(data, 104);
    FieldIs(data, 108);
    FieldIs(data, 112);
    FieldIs(data, 120);
    PrefaceBytes(n);
    assert data[..64] == h + s[..32] && data[88..104] == s[56..];
  }

  // All bytes of the commands that are not lengths or offsets.
  function Preface(): seq<byte> {
    [0xCF, 0xFA, 0xED, 0xFE] + [7, 0, 0, 1] + [3, 0, 0, 0x80] + [2, 0, 0, 0] + [2, 0, 0, 0]
    + [96, 0, 0, 0] + [0x85, 0, 0x20, 0] + [0, 0, 0, 0] + SegmentStart()
  }

  function SegmentStart(): seq<byte> {
    [0x19, 0, 0, 0] + [72, 0, 0, 0]
    + [0x5F, 0x5F, 0x54, 0x45, 0x58, 0x54, 0, 0, 0, 0, 0, 0, 0, 0, 0, 0] + [0, 0, 0, 2, 0, 0, 0, 0]
  }

  function SegmentEnd(): seq<byte> {
    [7, 0, 0, 0] + [5, 0, 0, 0] + [0, 0, 0, 0] + [0, 0, 0, 0]
  }

  lemma PrefaceBytes(n: nat)
    requires n < TWO64
    ensures |SegmentBytes(n)| == 72 && |Header()| == 32
    ensures Header() + SegmentBytes(n)[..32] == Preface() && SegmentBytes(n)[56..] == SegmentEnd()
  {
    Constants();
    hide Put32, Put64;
    var a, b := Put32(0x19) + Put32(72) + SEGNAME + Put64(0x2000000), Put64(n) + Put64(128) + Put64(n);
    assert SegmentBytes(n) == a + b + (Put32(7) + Put32(5) + Put32(0) + Put32(0));
    assert a == SegmentStart();
  }

  lemma Constants()
    ensures Put32(0xFEEDFACF) == [0xCF, 0xFA, 0xED, 0xFE] && Put32(0x01000007) == [7, 0, 0, 1]
    ensures Put32(0x80000003) == [3, 0, 0, 0x80] && Put32(2) == [2, 0, 0, 0] && Put32(96) == [96, 0, 0, 0]
    ensures Put32(0x200085) == [0x85, 0, 0x20, 0] && Put32(0) == [0, 0, 0, 0] && Put32(0x19) == [0x19, 0, 0, 0]
    ensures Put32(72) == [72, 0, 0, 0] && Put32(7) == [7, 0, 0, 0] && Put32(5) == [5, 0, 0, 0]
    ensures Put64(0x2000000) == [0, 0, 0, 2, 0, 0, 0, 0] && Put64(0) == [0, 0, 0, 0, 0, 0, 0, 0]
  {
  }
}
