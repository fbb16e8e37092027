/** The loader of 64-bit Mach-O images: load commands, and what they do to memory. */
module MachO {
  import opened Options
  import opened Widths
  import opened Bytes
  import opened Words

  const MH_MAGIC_64: nat := 0xFEEDFACF
  const MH_CIGAM_64: nat := 0xCFFAEDFE
  const LC_SEGMENT_64: nat := 0x19
  const LC_MAIN: nat := 0x80000028
  const LC_UNIXTHREAD: nat := 0x05
  const SLIDE: nat := 0x2000000

  datatype Cmd =
    | Segment(vmaddr: nat, vmsize: nat, fileoff: nat, filesize: nat)
    | EntryAt(entryoff: nat)
    | Thread(start: nat)
    | Other

  // Whether everything that is read of the command at `off` lies in the image.
  predicate CmdInside(data: seq<byte>, off: nat) {
    && off + 8 <= |data|
    && (Field32(data, off) == LC_SEGMENT_64 ==>
          && off + 72 <= |data|
          && (Field64(data, off + 48) > 0 ==> Field64(data, off + 40) + Field64(data, off + 48) <= |data|))
    && (Field32(data, off) == LC_MAIN ==> off + 24 <= |data|)
    && (Field32(data, off) == LC_UNIXTHREAD ==> off + 56 <= |data|)
  }

  // The command at `off`. The entry of a thread is read 32 bytes into its state.
  function CmdAt(data: seq<byte>, off: nat): Cmd
    requires CmdInside(data, off)
  {
    var cmd := Field32(data, off);
    if cmd == LC_SEGMENT_64 then
      Segment(Field64(data, off + 24), Field64(data, off + 32), Field64(data, off + 40), Field64(data, off + 48))
    else if cmd == LC_MAIN then EntryAt(Field64(data, off + 8))
    else if cmd == LC_UNIXTHREAD then Thread(Field64(data, off + 48))
    else Other
  }

  predicate CmdsInside(data: seq<byte>, off: nat, n: nat)
    decreases n
  {
    n > 0 ==> CmdInside(data, off) && CmdsInside(data, off + Field32(data, off + 4), n - 1)
  }

  function CmdsFrom(data: seq<byte>, off: nat, n: nat): (cs: seq<Cmd>)
    requires CmdsInside(data, off, n)
    ensures |cs| == n
    decreases n
  {
    if n == 0 then [] else [CmdAt(data, off)] + CmdsFrom(data, off + Field32(data, off + 4), n - 1)
  }

  predicate IsImage(data: seq<byte>)
    requires |data| >= 32
  {
    Field32(data, 0) == MH_MAGIC_64 || Field32(data, 0) == MH_CIGAM_64
  }

  predicate ImageOk(data: seq<byte>) {
    |data| >= 32 && (IsImage(data) ==> CmdsInside(data, 32, Field32(data, 16)))
  }

  function Cmds(data: seq<byte>): seq<Cmd>
    requires ImageOk(data) && IsImage(data)
  {
    CmdsFrom(data, 32, Field32(data, 16))
  }

  // Whether the file bytes of every segment that is loaded lie in the image.
  predicate FilesInside(cs: seq<Cmd>, data: seq<byte>) {
    forall k | 0 <= k < |cs| && Loaded(cs[k]) :: FileInside(cs[k], data)
  }

  predicate FileInside(c: Cmd, data: seq<byte>)
    requires Loaded(c)
  {
    c.fileoff + c.filesize <= |data| && c.vmaddr < TWO64 && c.vmsize < TWO64 && c.filesize < TWO64
  }

  lemma {:induction false} CmdsGood(data: seq<byte>, off: nat, n: nat)
    requires CmdsInside(data, off, n)
    ensures FilesInside(CmdsFrom(data, off, n), data)
    decreases n
  {
    if n > 0 { CmdsGood(data, off + Field32(data, off + 4), n - 1); }
  }

  predicate Loaded(c: Cmd) { c.Segment? && c.filesize > 0 }

  // file_base once the commands are done: the first address other than 0.
  function Base(cs: seq<Cmd>): nat {
    if cs == [] then 0
    else NextBase(Base(cs[..|cs| - 1]), cs[|cs| - 1])
  }

  // Base and entry point after one more command.
  function NextBase(base: nat, c: Cmd): nat {
    if base == 0 && Loaded(c) then c.vmaddr else base
  }

  function NextEntry(entry: nat, base: nat, c: Cmd): nat {
    match c
    case EntryAt(o) => (SLIDE + o) % TWO64
    case Thread(start) => if base == 0 then start else (start - base + SLIDE) % TWO64
    case _ => entry
  }

  // Where byte j of a segment goes, and which byte address a gets; 64-bit arithmetic.
  function Place(vmaddr: nat, base: nat, j: nat): nat {
    (vmaddr - base + SLIDE + j) % TWO64
  }

  function Offset(vmaddr: nat, base: nat, a: nat): nat {
    (a - (vmaddr - base + SLIDE)) % TWO64
  }

  lemma PlaceOffset(vmaddr: nat, base: nat, j: nat, a: nat)
    requires j < TWO64 && a < TWO64
    ensures Place(vmaddr, base, j) == a <==> Offset(vmaddr, base, a) == j
    ensures Place(vmaddr, base, j) < TWO64
  {
  }

  function Entry(cs: seq<Cmd>): nat {
    if cs == [] then 0
    else NextEntry(Entry(cs[..|cs| - 1]), Base(cs), cs[|cs| - 1])
  }

  function Extent(c: Cmd): nat
    requires c.Segment?
  {
    if c.vmsize > c.filesize then c.vmsize else c.filesize
  }

  // Byte j of a segment in memory: from the file, then zero.
  function SegByte(data: seq<byte>, c: Cmd, j: nat): byte
    requires Loaded(c) && FileInside(c, data)
  {
    if j < c.filesize then data[c.fileoff + j] else 0
  }

  type Bytemap = map<nat, byte>

  function Read(m: Bytemap, a: nat): Option<byte> {
    if a in m then Some(m[a]) else None
  }

  // What address a holds after the commands: the last segment that reaches it counts.
  function ByteAt(cs: seq<Cmd>, data: seq<byte>, m: Bytemap, a: nat): Option<byte>
    requires FilesInside(cs, data)
  {
    if cs == [] then Read(m, a)
    else
      var c := cs[|cs| - 1];
      if Loaded(c) && Offset(c.vmaddr, Base(cs), a) < Extent(c) then
        Some(SegByte(data, c, Offset(c.vmaddr, Base(cs), a)))
      else ByteAt(cs[..|cs| - 1], data, m, a)
  }

  // m' is m with the first n bytes of segment c in place.
  ghost predicate Copied(m: Bytemap, m': Bytemap, data: seq<byte>, c: Cmd, base: nat, n: nat)
    requires Loaded(c) && FileInside(c, data)
  {
    forall a: nat | a < TWO64 :: Read(m', a) ==
      if Offset(c.vmaddr, base, a) < n then Some(SegByte(data, c, Offset(c.vmaddr, base, a))) else Read(m, a)
  }

  lemma CopyNext(m: Bytemap, m': Bytemap, data: seq<byte>, c: Cmd, base: nat, n: nat)
    requires Loaded(c) && FileInside(c, data) && n < TWO64 && Copied(m, m', data, c, base, n)
    ensures Copied(m, m'[Place(c.vmaddr, base, n) := SegByte(data, c, n)], data, c, base, n + 1)
  {
    hide Place, Offset;
    forall a: nat | a < TWO64 ensures Place(c.vmaddr, base, n) == a <==> Offset(c.vmaddr, base, a) == n {
      PlaceOffset(c.vmaddr, base, n, a);
    }
  }

  lemma CmdsNext(data: seq<byte>, off: nat, n: nat)
    requires CmdsInside(data, off, n) && n > 0
    ensures CmdInside(data, off) && CmdsInside(data, off + Field32(data, off + 4), n - 1)
    ensures CmdsFrom(data, off, n)[0] == CmdAt(data, off)
    ensures CmdsFrom(data, off, n)[1..] == CmdsFrom(data, off + Field32(data, off + 4), n - 1)
  {
  }

  class Memory {
    var bytes: Bytemap

    // The two copy loops for one segment.
    method Copy(data: seq<byte>, c: Cmd, base: nat)
      requires Loaded(c) && FileInside(c, data)
      modifies this
      ensures Copied(old(bytes), bytes, data, c, base, Extent(c))
    {
      hide Place, Offset, Copied, FileInside;
      Segments(c, data);
      CopyNone(bytes, data, c, base);
      var j := 0;
      while j < c.filesize
        invariant 0 <= j <= c.filesize && Copied(old(bytes), bytes, data, c, base, j)
      {
        CopyNext(old(bytes), bytes, data, c, base, j);
        bytes := bytes[Place(c.vmaddr, base, j) := data[c.fileoff + j]];
        j := j + 1;
      }
      while j < c.vmsize
        invariant c.filesize <= j <= Extent(c) && Copied(old(bytes), bytes, data, c, base, j)
      {
        CopyNext(old(bytes), bytes, data, c, base, j);
        bytes := bytes[Place(c.vmaddr, base, j) := 0];
        j := j + 1;
      }
    }

    // One load command: the address of the first segment loaded is the base.
    method LoadOne(data: seq<byte>, cmd: Cmd, base: nat, entry: nat) returns (b: nat, e: nat)
      requires Loaded(cmd) ==> FileInside(cmd, data)
      modifies this
      ensures b == NextBase(base, cmd) && e == NextEntry(entry, b, cmd)
      ensures if Loaded(cmd) then Copied(old(bytes), bytes, data, cmd, b, Extent(cmd)) else bytes == old(bytes)
    {
      hide Copied, FileInside, Extent;
      b, e := base, entry;
      match cmd {
        case Segment(vmaddr, vmsize, fileoff, filesize) =>
          if filesize > 0 {
            if b == 0 { b := vmaddr; }
            Copy(data, cmd, b);
          }
        case EntryAt(o) => e := (SLIDE + o) % TWO64;
        case Thread(start) => e := if b == 0 then start else (start - b + SLIDE) % TWO64;
        case Other =>
      }
    }

    // mach_o_load
    method Load(data: seq<byte>) returns (entry: nat)
      requires ImageOk(data)
      modifies this
      ensures !IsImage(data) ==> entry == 0 && bytes == old(bytes)
      ensures IsImage(data) ==> FilesInside(Cmds(data), data) && entry == Entry(Cmds(data))
      ensures IsImage(data) ==> forall a: nat | a < TWO64 :: Read(bytes, a) == ByteAt(Cmds(data), data, old(bytes), a)
    {
      hide CmdsInside, CmdInside, CmdsFrom, CmdAt, Copied, Place, Offset, Base, Entry, FileInside, NextBase, NextEntry;
      if !IsImage(data) { return 0; }
      ghost var cs := Cmds(data);
      CmdsGood(data, 32, Field32(data, 16));
      StartValues();
      var n := Field32(data, 16);
      var i: nat, off: nat, base: nat := 0, 32, 0;
      entry := 0;
      while i < n
        invariant 0 <= i <= n == |cs| && CmdsInside(data, off, n - i) && cs[i..] == CmdsFrom(data, off, n - i)
        invariant base == Base(cs[..i]) && entry == Entry(cs[..i])
        invariant forall a: nat | a < TWO64 :: Read(bytes, a) == ByteAt(cs[..i], data, old(bytes), a)
      {
        CmdsNext(data, off, n - i);
        var cmd := CmdAt(data, off);
        assert cs[i] == cs[i..][0] == cmd && cs[i + 1..] == cs[i..][1..];
        assert cs[..i + 1][..i] == cs[..i];
        ghost var before := bytes;
        NextValues(cs[..i + 1]);
        base, entry := LoadOne(data, cmd, base, entry);
        AfterOne(cs[..i + 1], data, old(bytes), before, bytes);
        off := off + Field32(data, off + 4);
        i := i + 1;
      }
      assert cs[..n] == cs;
    }
  }

  lemma StartValues()
    ensures Base([]) == 0 && Entry([]) == 0
  {
  }

  lemma NextValues(cs: seq<Cmd>)
    requires cs != []
    ensures var front, c := cs[..|cs| - 1], cs[|cs| - 1];
            Base(cs) == NextBase(Base(front), c) && Entry(cs) == NextEntry(Entry(front), Base(cs), c)
  {
  }

  lemma Segments(c: Cmd, data: seq<byte>)
    requires Loaded(c) && FileInside(c, data)
    ensures c.fileoff + c.filesize <= |data| && Extent(c) < TWO64
  {
  }

  lemma CopyNone(m: Bytemap, data: seq<byte>, c: Cmd, base: nat)
    requires Loaded(c) && FileInside(c, data)
    ensures Copied(m, m, data, c, base, 0)
  {
  }

  lemma AfterOne(cs: seq<Cmd>, data: seq<byte>, m0: Bytemap, before: Bytemap, after: Bytemap)
    requires cs != [] && FilesInside(cs, data)
    requires forall a: nat | a < TWO64 :: Read(before, a) == ByteAt(cs[..|cs| - 1], data, m0, a)
    requires var c := cs[|cs| - 1];
             if Loaded(c) then Copied(before, after, data, c, Base(cs), Extent(c)) else after == before
    ensures forall a: nat | a < TWO64 :: Read(after, a) == ByteAt(cs, data, m0, a)
  {
    hide Offset;
  }
}
