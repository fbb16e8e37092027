/**
  The physical layout of the kernel heap: 2^14 frames of 4096 bytes from
  HEAP_PHYS on, seen here as 512 words of 64 bits per frame.
 */
module Layout {
  import opened Widths
  import opened Dyadic

  const HEAP_PHYS: nat := 0x900000
  const FRAME_SIZE: nat := 4096
  const FRAME_WORDS: nat := 512
  const MAX_ORDER: nat := 14
  const FRAME_COUNT: nat := 16384
  const HEAP_SIZE: nat := 67108864

  const NULL: nat := 0

  function FrameToAddr(f: nat): nat {
    HEAP_PHYS + FRAME_SIZE * f
  }

  // Unsigned 64-bit subtraction and shift: an address below the heap gives a huge index.
  function AddrToFrame(addr: nat): nat {
    ((addr - HEAP_PHYS) % TWO64) / FRAME_SIZE
  }

  lemma AddrRoundTrip(f: nat)
    requires f < FRAME_COUNT
    ensures AddrToFrame(FrameToAddr(f)) == f
  {
  }

  lemma AddrInside(f: nat, d: nat)
    requires f < FRAME_COUNT && d < FRAME_SIZE
    ensures AddrToFrame(FrameToAddr(f) + d) == f && (FrameToAddr(f) + d) % FRAME_SIZE == d
  {
  }

  // One byte per frame: FRAME_ALLOC is 0x80, FRAME_USER 0x40, FRAME_ORDER 0x3F.
  datatype Tag = Tag(alloc: bool, user: bool, order: nat)

  // The byte that stands for a tag whose order field is k.
  function TagByte(alloc: bool, user: bool, k: bv8): bv8 {
    (if alloc then 0x80 else 0) | (if user then 0x40 else 0) | k
  }

  // Reading a field of a Tag is the masking that the source does on the byte.
  lemma TagMasks(alloc: bool, user: bool, k: bv8, o: bv8)
    requires k < 64 && o < 64
    ensures TagByte(alloc, user, k) & 0x80 != 0 <==> alloc
    ensures TagByte(alloc, user, k) & 0xC0 == 0xC0 <==> alloc && user
    ensures TagByte(alloc, user, k) & 0x3F == k
    ensures TagByte(alloc, user, k) & 0xBF == o <==> !alloc && k == o
  {
  }

  lemma FrameCountIsPow2()
    ensures Pow2(MAX_ORDER) == FRAME_COUNT
    ensures forall o: nat :: o <= MAX_ORDER ==> Pow2(o) <= FRAME_COUNT
  {
    assert Pow2(4) == 16 && Pow2(8) == 256 && Pow2(12) == 4096;
    forall o: nat | o <= MAX_ORDER ensures Pow2(o) <= Pow2(MAX_ORDER) {
      Pow2Monotone(o, MAX_ORDER);
    }
  }
}
