/**
 * Byte-level vocabulary of the 2JCIE-BU common frame: the byte type, the
 * little-endian reads and writes of Node's Buffer, Buffer.slice and
 * Buffer.concat, and the constants of the frame format.
 */
module Wire {

  /** One element of a Node.js Buffer: an integer in 0..255. */
  type byte = b: int | 0 <= b < 0x100

  /** The frame header, written little-endian: the first two bytes of a frame are 52 42. */
  const Header: nat := 0x4252
  /** Opcodes at payload offset 0 of a request. */
  const ReadCommand: byte := 0x01
  const WriteCommand: byte := 0x02
  /** Register addresses at payload offsets 1..2. */
  const LatestDataLongAddress: nat := 0x5021
  const MountingOrientationAddress: nat := 0x5402
  const DeviceInformationAddress: nat := 0x180A
  const LedSettingAddress: nat := 0x5111

  /** Buffer.readUInt16LE(offset). */
  function ReadUInt16LE(s: seq<byte>, offset: nat): (v: nat)
    requires offset + 2 <= |s|
    ensures v < 0x10000
  {
    s[offset] as int + 0x100 * s[offset + 1] as int
  }

  /** The two bytes Buffer.writeUInt16LE(v, offset) stores; they read back as `v`. */
  function UInt16LE(v: nat): (s: seq<byte>)
    requires v < 0x10000
    ensures |s| == 2 && ReadUInt16LE(s, 0) == v
  {
    [v % 0x100, v / 0x100]
  }

  /** Buffer.readInt16LE(offset): a two's complement 16-bit value. */
  function ReadInt16LE(s: seq<byte>, offset: nat): (v: int)
    requires offset + 2 <= |s|
    ensures -0x8000 <= v < 0x8000
    ensures v >= 0 <==> s[offset + 1] < 0x80
  {
    var u := ReadUInt16LE(s, offset);
    if u < 0x8000 then u else u - 0x10000
  }

  /** The two bytes of a signed 16-bit value, as a device stores them; they read back as `v`. */
  function Int16LE(v: int): (s: seq<byte>)
    requires -0x8000 <= v < 0x8000
    ensures |s| == 2 && ReadInt16LE(s, 0) == v
  {
    UInt16LE(if v < 0 then v + 0x10000 else v)
  }

  /** Buffer.readInt32LE(offset): a two's complement 32-bit value. */
  function ReadInt32LE(s: seq<byte>, offset: nat): (v: int)
    requires offset + 4 <= |s|
    ensures -0x8000_0000 <= v < 0x8000_0000
    ensures v >= 0 <==> s[offset + 3] < 0x80
  {
    var u := ReadUInt16LE(s, offset) + 0x10000 * ReadUInt16LE(s, offset + 2);
    if u < 0x8000_0000 then u else u - 0x1_0000_0000
  }

  /** The four bytes of a signed 32-bit value, as a device stores them; they read back as `v`. */
  function Int32LE(v: int): (s: seq<byte>)
    requires -0x8000_0000 <= v < 0x8000_0000
    ensures |s| == 4 && ReadInt32LE(s, 0) == v
  {
    var u := if v < 0 then v + 0x1_0000_0000 else v;
    var s := UInt16LE(u % 0x10000) + UInt16LE(u / 0x10000);
    assert ReadUInt16LE(s, 2) == u / 0x10000 by {
      assert s[2..] == UInt16LE(u / 0x10000);
    }
    s
  }

  /** The length of `s.slice(start, end)` for a buffer of the given length. */
  function SliceLength(length: nat, start: nat, end: nat): nat
  {
    if end <= start || length <= start then 0
    else if end <= length then end - start
    else length - start
  }

  /**
   * Buffer.slice(start, end) for a start that is not negative: the end is
   * clamped to the length, and an end at or before the start gives nothing.
   */
  function Slice(s: seq<byte>, start: nat, end: nat): (r: seq<byte>)
    ensures |r| == SliceLength(|s|, start, end)
    ensures forall i :: 0 <= i < |r| ==> r[i] == s[start + i]
    ensures start <= end <= |s| ==> r == s[start..end]
  {
    var e := if end < |s| then end else |s|;
    if e <= start then [] else s[start..e]
  }

  /** The summed length of a list of chunks (the reduce in parseResponse). */
  function TotalLength(chunks: seq<seq<byte>>): nat
  {
    if chunks == [] then 0 else TotalLength(chunks[..|chunks| - 1]) + |chunks[|chunks| - 1]|
  }

  /** Buffer.concat: the chunks laid end to end. */
  function Concat(chunks: seq<seq<byte>>): (r: seq<byte>)
    ensures |r| == TotalLength(chunks)
  {
    if chunks == [] then [] else Concat(chunks[..|chunks| - 1]) + chunks[|chunks| - 1]
  }

  lemma {:induction false} ConcatAppend(a: seq<seq<byte>>, b: seq<seq<byte>>)
    ensures Concat(a + b) == Concat(a) + Concat(b)
    ensures TotalLength(a + b) == TotalLength(a) + TotalLength(b)
    decreases |b|
  {
    if b == [] {
      assert a + b == a;
    } else {
      var b' := b[..|b| - 1];
      assert (a + b)[..|a + b| - 1] == a + b';
      ConcatAppend(a, b');
    }
  }

  /** Array.prototype.reduce summing the chunk lengths, as parseResponse does. */
  method SumLengths(chunks: seq<seq<byte>>) returns (total: nat)
    ensures total == TotalLength(chunks)
  {
    total := 0;
    for i := 0 to |chunks|
      invariant total == TotalLength(chunks[..i])
    {
      assert chunks[..i + 1][..i] == chunks[..i];
      total := total + |chunks[i]|;
    }
    assert chunks[..|chunks|] == chunks;
  }

  /** Buffer.concat: copies each chunk in turn into one buffer. */
  method ConcatChunks(chunks: seq<seq<byte>>) returns (msg: seq<byte>)
    ensures msg == Concat(chunks)
  {
    msg := [];
    for i := 0 to |chunks|
      invariant msg == Concat(chunks[..i])
    {
      assert chunks[..i + 1][..i] == chunks[..i];
      msg := msg + chunks[i];
    }
    assert chunks[..|chunks|] == chunks;
  }
}
