/** Where the segments of an image end up, and the packer whose images the loader undoes. */
module MachOPlaces {
  import opened Options
  import opened Widths
  import opened Bytes
  import opened Words
  import opened MachO

  ghost predicate FirstLoaded(cs: seq<Cmd>, f: nat) {
    f < |cs| && Loaded(cs[f]) && forall k | 0 <= k < f :: !Loaded(cs[k])
  }

  lemma {:induction false} BaseStays(cs: seq<Cmd>, f: nat, n: nat)
    requires FirstLoaded(cs, f) && n <= |cs|
    ensures n <= f ==> Base(cs[..n]) == 0
    ensures n > f && cs[f].vmaddr != 0 ==> Base(cs[..n]) == cs[f].vmaddr
    ensures n > f && cs[f].vmaddr == 0 ==>
      (Base(cs[..n]) == 0 <==> forall k | 0 <= k < n && Loaded(cs[k]) :: cs[k].vmaddr == 0)
  {
    if n > 0 {
      BaseStays(cs, f, n - 1);
      assert cs[..n][..n - 1] == cs[..n - 1];
    }
  }

  // All segments are placed relative to the first one loaded exactly if its
  // address is not 0, or every address is 0.
  lemma OneBaseIff(cs: seq<Cmd>, f: nat)
    requires FirstLoaded(cs, f)
    ensures (forall n | 0 < n <= |cs| && Loaded(cs[n - 1]) :: Base(cs[..n]) == cs[f].vmaddr)
            <==> cs[f].vmaddr != 0 || forall k | 0 <= k < |cs| && Loaded(cs[k]) :: cs[k].vmaddr == 0
  {
    forall n: nat | n <= |cs|
      ensures n > f && cs[f].vmaddr != 0 ==> Base(cs[..n]) == cs[f].vmaddr
    {
      BaseStays(cs, f, n);
    }
    forall n: nat | n <= |cs| ensures n > f && cs[f].vmaddr == 0 ==>
      (Base(cs[..n]) == 0 <==> forall k | 0 <= k < n && Loaded(cs[k]) :: cs[k].vmaddr == 0) { BaseStays(cs, f, n); }
    if k: nat :| k < |cs| && Loaded(cs[k]) && cs[k].vmaddr != 0 && cs[f].vmaddr == 0 {
      assert Base(cs[..k + 1]) != 0;
      assert Loaded(cs[k + 1 - 1]);
    }
  }

  // Address 0 first: the second segment is loaded over the first.
  lemma ZeroFirst(data: seq<byte>, m: Bytemap)
    requires |data| >= 2
    ensures var cs := [Segment(0, 1, 0, 1), Segment(0x1000, 1, 1, 1)];
            && FilesInside(cs, data) && ByteAt(cs, data, m, SLIDE) == Some(data[1])
            && ByteAt(cs, data, m, SLIDE + 0x1000) == Read(m, SLIDE + 0x1000)
  {
    hide Base, ByteAt, Offset, SegByte;
    var c, e := Segment(0, 1, 0, 1), Segment(0x1000, 1, 1, 1);
    assert [] + [c] == [c] && [c] + [e] == [c, e];
    Offsets();
    StartValues();
    NextValues([c]);
    OneMore([], c, data, m, SLIDE + 0x1000);
    NextValues([c, e]);
    OneMore([c], e, data, m, SLIDE);
    OneMore([c], e, data, m, SLIDE + 0x1000);
    ByteOne(data, e);
    NoCommands(data, m, SLIDE + 0x1000);
  }

  lemma NoCommands(data: seq<byte>, m: Bytemap, a: nat)
    ensures ByteAt([], data, m, a) == Read(m, a)
  {
  }

  lemma ByteOne(data: seq<byte>, e: Cmd)
    requires e == Segment(0x1000, 1, 1, 1) && |data| >= 2
    ensures FileInside(e, data) && SegByte(data, e, 0) == data[1]
  {
  }

  // The last command decides about the bytes that its segment covers.
  lemma OneMore(cs: seq<Cmd>, c: Cmd, data: seq<byte>, m: Bytemap, a: nat)
    requires FilesInside(cs, data) && (Loaded(c) ==> FileInside(c, data))
    ensures FilesInside(cs + [c], data)
    ensures ByteAt(cs + [c], data, m, a)
      == if Loaded(c) && Offset(c.vmaddr, Base(cs + [c]), a) < Extent(c)
         then Some(SegByte(data, c, Offset(c.vmaddr, Base(cs + [c]), a)))
         else ByteAt(cs, data, m, a)
  {
    assert (cs + [c])[..|cs|] == cs;
  }

  lemma Offsets()
    ensures Offset(0, 0, SLIDE + 0x1000) == 0x1000 && Offset(0x1000, 0x1000, SLIDE + 0x1000) == 0x1000
    ensures Offset(0x1000, 0x1000, SLIDE) == 0
  {
  }

  ghost predicate SegsApart(c: Cmd, d: Cmd)
    requires c.Segment? && d.Segment?
  {
    c.vmaddr + Extent(c) <= d.vmaddr || d.vmaddr + Extent(d) <= c.vmaddr
  }

  ghost predicate DisjointSegs(cs: seq<Cmd>) {
    && (forall k | 0 <= k < |cs| && Loaded(cs[k]) :: cs[k].vmaddr + Extent(cs[k]) <= TWO64)
    && forall i, k | 0 <= i < k < |cs| && Loaded(cs[i]) && Loaded(cs[k]) :: SegsApart(cs[i], cs[k])
  }

  // Addresses that differ stay different when both are moved.
  lemma ApartPlaces(v: nat, w: nat, base: nat, j: nat, i: nat)
    requires v + j < TWO64 && w + i < TWO64 && Place(v, base, j) == Place(w, base, i)
    ensures v + j == w + i
  {
    var a, b := v - base + SLIDE + j, w - base + SLIDE + i;
    assert a == TWO64 * (a / TWO64) + a % TWO64 && b == TWO64 * (b / TWO64) + b % TWO64;
    assert a - b == TWO64 * (a / TWO64 - b / TWO64);
  }

  lemma NotReached(c: Cmd, d: Cmd, base: nat, j: nat)
    requires Loaded(c) && Loaded(d) && SegsApart(c, d) && j < Extent(c)
    requires c.vmaddr + Extent(c) <= TWO64 && d.vmaddr + Extent(d) <= TWO64
    ensures Offset(d.vmaddr, base, Place(c.vmaddr, base, j)) >= Extent(d)
  {
    hide Place, Offset;
    var a := Place(c.vmaddr, base, j);
    PlaceOffset(c.vmaddr, base, j, 0);
    var i := Offset(d.vmaddr, base, a);
    if 0 <= i < Extent(d) {
      PlaceOffset(d.vmaddr, base, i, a);
      ApartPlaces(c.vmaddr, d.vmaddr, base, j, i);
    }
  }

  // Segments that do not overlap keep their distances: byte j of each lands at
  // its address, moved by SLIDE minus the first one's address.
  lemma {:induction false} SegmentLands(cs: seq<Cmd>, data: seq<byte>, m: Bytemap, f: nat, k: nat, j: nat, n: nat)
    requires FilesInside(cs, data) && FirstLoaded(cs, f) && cs[f].vmaddr != 0 && DisjointSegs(cs)
    requires k < n <= |cs| && Loaded(cs[k]) && j < Extent(cs[k])
    ensures FileInside(cs[k], data) && FilesInside(cs[..n], data)
    ensures ByteAt(cs[..n], data, m, Place(cs[k].vmaddr, cs[f].vmaddr, j)) == Some(SegByte(data, cs[k], j))
  {
    hide Place, Offset, Base, Extent, FileInside, SegsApart;
    var c, base, u := cs[k], cs[f].vmaddr, cs[..n];
    var a := Place(c.vmaddr, base, j);
    BaseStays(cs, f, n);
    Segments(c, data);
    PlaceOffset(c.vmaddr, base, j, 0);
    PlaceOffset(c.vmaddr, base, j, a);
    assert u[..n - 1] == cs[..n - 1];
    if n - 1 > k {
      SegmentLands(cs, data, m, f, k, j, n - 1);
      if Loaded(cs[n - 1]) {
        assert SegsApart(cs[k], cs[n - 1]);
        NotReached(c, cs[n - 1], base, j);
      }
    }
  }

  // Everything else stays as it was, for any list of commands.
  lemma {:induction false} RestStays(cs: seq<Cmd>, data: seq<byte>, m: Bytemap, a: nat)
    requires FilesInside(cs, data)
    requires forall n: nat | 0 < n <= |cs| && Loaded(cs[n - 1]) ::
      Offset(cs[n - 1].vmaddr, Base(cs[..n]), a) >= Extent(cs[n - 1])
    ensures ByteAt(cs, data, m, a) == Read(m, a)
    decreases |cs|
  {
    hide Offset, Base, Extent;
    if cs != [] {
      var u := cs[..|cs| - 1];
      assert cs[..|cs|] == cs;
      forall n: nat | 0 < n <= |u| && Loaded(u[n - 1])
        ensures Offset(u[n - 1].vmaddr, Base(u[..n]), a) >= Extent(u[n - 1])
      {
        assert u[..n] == cs[..n];
      }
      RestStays(u, data, m, a);
    }
  }

  // ---- the packer ----

  datatype Packed = Packed(data: seq<byte>, size: nat) | StructError

  const SEGNAME: seq<byte> := [0x5F, 0x5F, 0x54, 0x45, 0x58, 0x54, 0, 0, 0, 0, 0, 0, 0, 0, 0, 0]

  function Header(): seq<byte> {
    Put32(0xFEEDFACF) + Put32(0x01000007) + Put32(0x80000003) + Put32(2) + Put32(2)
    + Put32(96) + Put32(0x200085) + Put32(0)
  }

  function SegmentBytes(n: nat): seq<byte>
    requires n < TWO64
  {
    Put32(0x19) + Put32(72) + SEGNAME + Put64(0x2000000) + Put64(n) + Put64(128) + Put64(n)
    + Put32(7) + Put32(5) + Put32(0) + Put32(0)
  }

  function MainBytes(entry: nat): seq<byte>
    requires entry < TWO64
  {
    Put32(0x80000028) + Put32(24) + Put64(entry) + Put64(0)
  }

  // pack(code, entry_offset). struct.pack refuses what does not fit a 64-bit field.
  function Pack(code: seq<byte>, entry: int): Packed {
    if 0 <= entry < TWO64 && |code| < TWO64 then
      var data := Header() + SegmentBytes(|code|) + MainBytes(entry) + code;
      Packed(data, |data|)
    else StructError
  }

  lemma HeaderFields(rest: seq<byte>)
    ensures |Header()| == 32 && Field32(Header() + rest, 0) == MH_MAGIC_64 && Field32(Header() + rest, 16) == 2
  {
    hide Put32, Field32;
    assert Header()[0..4] == Put32(MH_MAGIC_64) && Header()[16..20] == Put32(2);
    InContext([], Header(), rest, 0, 4);
    InContext([], Header(), rest, 16, 4);
    assert [] + Header() + rest == Header() + rest;
    FieldOf32(Header() + rest, 0, MH_MAGIC_64);
    FieldOf32(Header() + rest, 16, 2);
  }

  lemma SegmentParts(n: nat)
    requires n < TWO64
    ensures var s := SegmentBytes(n);
            && |s| == 72 && s[0..4] == Put32(0x19) && s[4..8] == Put32(72)
            && s[24..32] == Put64(0x2000000) && s[32..40] == Put64(n) && s[40..48] == Put64(128)
            && s[48..56] == Put64(n)
  {
    hide Put32, Put64;
  }

  lemma SegmentFields(pre: seq<byte>, n: nat, rest: seq<byte>)
    requires n < TWO64
    ensures |SegmentBytes(n)| == 72
    ensures var s := pre + SegmentBytes(n) + rest; var o := |pre|;
            && Field32(s, o) == LC_SEGMENT_64 && Field32(s, o + 4) == 72
            && Field64(s, o + 24) == 0x2000000 && Field64(s, o + 32) == n && Field64(s, o + 40) == 128
            && Field64(s, o + 48) == n
  {
    hide Put32, Field32, Put64, Field64, SegmentBytes;
    SegmentParts(n);
    var m := SegmentBytes(n);
    var s, o := pre + m + rest, |pre|;
    InContext(pre, m, rest, 0, 4);
    FieldOf32(s, o, 0x19);
    InContext(pre, m, rest, 4, 4);
    FieldOf32(s, o + 4, 72);
    InContext(pre, m, rest, 24, 8);
    FieldOf64(s, o + 24, 0x2000000);
    InContext(pre, m, rest, 32, 8);
    FieldOf64(s, o + 32, n);
    InContext(pre, m, rest, 40, 8);
    FieldOf64(s, o + 40, 128);
    InContext(pre, m, rest, 48, 8);
    FieldOf64(s, o + 48, n);
  }

  lemma MainFields(pre: seq<byte>, entry: nat, rest: seq<byte>)
    requires entry < TWO64
    ensures |MainBytes(entry)| == 24
    ensures var s := pre + MainBytes(entry) + rest; var o := |pre|;
            Field32(s, o) == LC_MAIN && Field32(s, o + 4) == 24 && Field64(s, o + 8) == entry && Field64(s, o + 16) == 0
  {
    hide Put32, Field32, Put64, Field64;
    var m := MainBytes(entry);
    var s, o := pre + m + rest, |pre|;
    assert m[0..4] == Put32(0x80000028) && m[4..8] == Put32(24) && m[8..16] == Put64(entry) && m[16..24] == Put64(0);
    InContext(pre, m, rest, 0, 4);
    FieldOf32(s, o, 0x80000028);
    InContext(pre, m, rest, 4, 4);
    FieldOf32(s, o + 4, 24);
    InContext(pre, m, rest, 8, 8);
    FieldOf64(s, o + 8, entry);
    InContext(pre, m, rest, 16, 8);
    FieldOf64(s, o + 16, 0);
  }

  // The loader finds in a packed image what went into it.
  lemma PackedCmds(code: seq<byte>, entry: nat)
    requires entry < TWO64 && |code| < TWO64
    ensures var p := Pack(code, entry);
            && p.Packed? && p.size == |p.data| == 128 + |code| && p.data[128..] == code
            && ImageOk(p.data) && IsImage(p.data)
            && Cmds(p.data) == [Segment(0x2000000, |code|, 128, |code|), EntryAt(entry)]
  {
    hide Header, SegmentBytes, MainBytes, Field32, Field64;
    var n := |code|;
    var h, s, m := Header(), SegmentBytes(n), MainBytes(entry);
    var data := Pack(code, entry).data;
    HeaderFields(s + m + code);
    SegmentFields(h, n, m + code);
    MainFields(h + s, entry, code);
    assert data == h + (s + m + code) && data == h + s + (m + code) && data == (h + s) + m + code;
    assert CmdInside(data, 32) && CmdInside(data, 104);
    assert CmdsInside(data, 128, 0) && CmdsInside(data, 104, 1) && CmdsInside(data, 32, 2);
    assert CmdsFrom(data, 104, 1) == [CmdAt(data, 104)] + CmdsFrom(data, 128, 0);
    assert CmdsFrom(data, 32, 2) == [CmdAt(data, 32)] + CmdsFrom(data, 104, 1);
  }

  // Packing and then loading puts the code at SLIDE, byte for byte, changes no
  // other address and returns SLIDE plus the offset.
  method PackThenLoad(mem: Memory, code: seq<byte>, offset: nat) returns (entry: nat)
    requires offset < TWO64 && |code| < TWO64
    modifies mem
    ensures entry == (0x200_0000 + offset) % TWO64
    ensures forall a: nat | a < TWO64 ::
      Read(mem.bytes, a) ==
        if (a - 0x200_0000) % TWO64 < |code| then Some(code[(a - 0x200_0000) % TWO64]) else Read(old(mem.bytes), a)
  {
    hide ImageOk, IsImage, Cmds, Pack, ByteAt, Entry;
    PackedCmds(code, offset);
    var data := Pack(code, offset).data;
    entry := mem.Load(data);
    PackedEffect(code, offset, data, old(mem.bytes));
  }

  lemma PackedEffect(code: seq<byte>, entry: nat, data: seq<byte>, m: Bytemap)
    requires |data| == 128 + |code| && data[128..] == code
    ensures var cs := [Segment(0x2000000, |code|, 128, |code|), EntryAt(entry)];
            && Entry(cs) == (SLIDE + entry) % TWO64
            && (FilesInside(cs, data) ==> forall a: nat | a < TWO64 ::
                  ByteAt(cs, data, m, a) ==
                    if (a - SLIDE) % TWO64 < |code| then Some(code[(a - SLIDE) % TWO64]) else Read(m, a))
  {
    var c := Segment(0x2000000, |code|, 128, |code|);
    var cs := [c, EntryAt(entry)];
    assert cs[..1] == [c] && [c][..0] == [];
    assert Loaded(c) ==> Base([c]) == 0x2000000;
    if FilesInside(cs, data) {
      forall a: nat | a < TWO64
        ensures ByteAt(cs, data, m, a) ==
          if (a - SLIDE) % TWO64 < |code| then Some(code[(a - SLIDE) % TWO64]) else Read(m, a)
      {
        assert ByteAt(cs, data, m, a) == ByteAt([c], data, m, a);
        var i := (a - SLIDE) % TWO64;
        if i < |code| {
          assert Offset(c.vmaddr, Base([c]), a) == i;
          assert data[128..][i] == data[128 + i];
        } else {
          assert ByteAt([c], data, m, a) == ByteAt([c][..0], data, m, a);
        }
      }
    }
  }
}
