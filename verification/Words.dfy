/** Little-endian 64-bit numbers in a string of bytes. */
module Words {
  import opened Widths
  import opened Bytes

  function Field64(s: seq<byte>, at: nat): (v: nat)
    requires at + 8 <= |s|
    ensures v < TWO64
  {
    Field32(s, at) + TWO32 * Field32(s, at + 4)
  }

  function Put64(v: nat): (s: seq<byte>)
    requires v < TWO64
    ensures |s| == 8
  {
    Put32(v % TWO32) + Put32(v / TWO32)
  }

  lemma FieldOf32(s: seq<byte>, at: nat, v: nat)
    requires v < TWO32 && at + 4 <= |s| && s[at..at + 4] == Put32(v)
    ensures Field32(s, at) == v
  {
  }

  lemma FieldOf64(s: seq<byte>, at: nat, v: nat)
    requires v < TWO64 && at + 8 <= |s| && s[at..at + 8] == Put64(v)
    ensures Field64(s, at) == v
  {
    hide Put32, Field32;
    SliceOfSlice(s, at, at + 8, 0, 4);
    SliceOfSlice(s, at, at + 8, 4, 8);
    assert Put64(v)[0..4] == Put32(v % TWO32) && Put64(v)[4..8] == Put32(v / TWO32);
    FieldOf32(s, at, v % TWO32);
    FieldOf32(s, at + 4, v / TWO32);
  }

  // A slice of the middle part is a slice of the whole.
  lemma InContext(pre: seq<byte>, mid: seq<byte>, post: seq<byte>, at: nat, len: nat)
    requires at + len <= |mid|
    ensures (pre + mid + post)[|pre| + at..|pre| + at + len] == mid[at..at + len]
  {
  }
}
