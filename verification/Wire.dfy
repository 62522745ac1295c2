/** Frames, and little-endian fields in byte strings. */
module Wire {

  const FRAME_LEN: nat := 1514   // ETHERNET_MAX_FRAME_LEN
  const HEADER_LEN: nat := 42    // eiu_hdr_len

  type Byte = b: nat | b < 0x100 witness 0

  type Half = v: nat | v < 0x1_0000 witness 0

  type Quad = v: nat | v < 0x1_0000_0000 witness 0

  function Put16(v: Half): (s: seq<Byte>)
    ensures |s| == 2
  {
    [v % 0x100, v / 0x100]
  }

  function Put32(v: Quad): (s: seq<Byte>)
    ensures |s| == 4
  {
    Put16(v % 0x1_0000) + Put16(v / 0x1_0000)
  }

  function Get16(s: seq<Byte>, at: nat): (v: Half)
    requires at + 2 <= |s|
  {
    (s[at] as int) + 0x100 * (s[at + 1] as int)
  }

  function Get32(s: seq<Byte>, at: nat): (v: Quad)
    requires at + 4 <= |s|
  {
    (Get16(s, at) as int) + 0x1_0000 * (Get16(s, at + 2) as int)
  }

  /** A field written between two strings is read back at its place. */
  lemma Read16(a: seq<Byte>, v: Half, b: seq<Byte>)
    ensures Get16(a + Put16(v) + b, |a|) == v
  {
    var s := a + Put16(v) + b;
    assert s[|a|] == Put16(v)[0] && s[|a| + 1] == Put16(v)[1];
  }

  lemma Read32(a: seq<Byte>, v: Quad, b: seq<Byte>)
    ensures Get32(a + Put32(v) + b, |a|) == v
  {
    var lo, hi := Put16(v % 0x1_0000), Put16(v / 0x1_0000);
    assert a + Put32(v) + b == a + lo + (hi + b);
    assert a + Put32(v) + b == (a + lo) + hi + b;
    Read16(a, v % 0x1_0000, hi + b);
    Read16(a + lo, v / 0x1_0000, b);
  }
}
