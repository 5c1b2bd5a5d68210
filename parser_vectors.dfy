/**
 * The frames of the parser's unit tests, byte for byte: two error responses
 * and a "latest data long" response, whole and split in two. Each frame is
 * written as the pieces over which crc16 is evaluated, one piece at a time
 * as for the request frames; laid end to end they are the bytes of the
 * tests.
 */
module ParserVectors {
  import opened Wrappers
  import opened Wire
  import opened Checksum
  import opened PayloadFrame
  import opened PacketBuilder
  import opened PacketParser
  import opened Reassembly

  /** The register after 52 42 06 00, the start of a response with a four-byte payload. */
  lemma ErrorResponseHeadCrc()
    ensures RegisterFrom(0xffff, [0x52, 0x42, 0x06, 0x00]) == 0x28b3
  {
    var s: seq<byte> := [];
    CrcStep(0xffff, s, 0x52, 0xffff, 0xbd3e); s := s + [0x52];
    CrcStep(0xffff, s, 0x42, 0xbd3e, 0xe1bc); s := s + [0x42];
    CrcStep(0xffff, s, 0x06, 0xe1bc, 0xb360); s := s + [0x06];
    CrcStep(0xffff, s, 0x00, 0xb360, 0x28b3); s := s + [0x00];
    assert s == [0x52, 0x42, 0x06, 0x00];
  }

  /** The register once the payload 81 21 50 01 follows. */
  lemma ReadErrorPayloadCrc()
    ensures RegisterFrom(0x28b3, [0x81, 0x21, 0x50, 0x01]) == 0x7a23
  {
    var s: seq<byte> := [];
    CrcStep(0x28b3, s, 0x81, 0x28b3, 0xd5a9); s := s + [0x81];
    CrcStep(0x28b3, s, 0x21, 0xd5a9, 0x66d5); s := s + [0x21];
    CrcStep(0x28b3, s, 0x50, 0x66d5, 0xa3a7); s := s + [0x50];
    CrcStep(0x28b3, s, 0x01, 0xa3a7, 0x7a23); s := s + [0x01];
    assert s == [0x81, 0x21, 0x50, 0x01];
  }

  /** The register once the payload 82 21 50 01 follows. */
  lemma WriteErrorPayloadCrc()
    ensures RegisterFrom(0x28b3, [0x82, 0x21, 0x50, 0x01]) == 0x3e23
  {
    var s: seq<byte> := [];
    CrcStep(0x28b3, s, 0x82, 0x28b3, 0xd4e9); s := s + [0x82];
    CrcStep(0x28b3, s, 0x21, 0xd4e9, 0x96d5); s := s + [0x21];
    CrcStep(0x28b3, s, 0x50, 0x96d5, 0xa357); s := s + [0x50];
    CrcStep(0x28b3, s, 0x01, 0xa357, 0x3e23); s := s + [0x01];
    assert s == [0x82, 0x21, 0x50, 0x01];
  }

  /** The register after 52 42 36 00, the start of a response with a 52-byte payload. */
  lemma LongResponseHeadCrc()
    ensures RegisterFrom(0xffff, [0x52, 0x42, 0x36, 0x00]) == 0x28a7
  {
    var s: seq<byte> := [];
    CrcStep(0xffff, s, 0x52, 0xffff, 0xbd3e); s := s + [0x52];
    CrcStep(0xffff, s, 0x42, 0xbd3e, 0xe1bc); s := s + [0x42];
    CrcStep(0xffff, s, 0x36, 0xe1bc, 0xa760); s := s + [0x36];
    CrcStep(0xffff, s, 0x00, 0xa760, 0x28a7); s := s + [0x00];
    assert s == [0x52, 0x42, 0x36, 0x00];
  }

  /** The register once payload bytes 0..3 of the long response follow. */
  lemma LongPayloadCrc1()
    ensures RegisterFrom(0x28a7, [0x01, 0x21, 0x50, 0x37]) == 0x5c8f
  {
    var s: seq<byte> := [];
    CrcStep(0x28a7, s, 0x01, 0x28a7, 0x7aa8); s := s + [0x01];
    CrcStep(0x28a7, s, 0x21, 0x7aa8, 0xa6bb); s := s + [0x21];
    CrcStep(0x28a7, s, 0x50, 0xa6bb, 0x4fe6); s := s + [0x50];
    CrcStep(0x28a7, s, 0x37, 0x4fe6, 0x5c8f); s := s + [0x37];
    assert s == [0x01, 0x21, 0x50, 0x37];
  }

  /** The register once payload bytes 4..7 of the long response follow. */
  lemma LongPayloadCrc2()
    ensures RegisterFrom(0x5c8f, [0x29, 0x07, 0x5c, 0x1d]) == 0x52aa
  {
    var s: seq<byte> := [];
    CrcStep(0x5c8f, s, 0x29, 0x5c8f, 0x7adc); s := s + [0x29];
    CrcStep(0x5c8f, s, 0x07, 0x7adc, 0x5b3a); s := s + [0x07];
    CrcStep(0x5c8f, s, 0x5c, 0x5b3a, 0x2adb); s := s + [0x5c];
    CrcStep(0x5c8f, s, 0x1d, 0x2adb, 0x52aa); s := s + [0x1d];
    assert s == [0x29, 0x07, 0x5c, 0x1d];
  }

  /** The register once payload bytes 8..11 of the long response follow. */
  lemma LongPayloadCrc3()
    ensures RegisterFrom(0x52aa, [0x5b, 0x00, 0xfe, 0x4b]) == 0x7a93
  {
    var s: seq<byte> := [];
    CrcStep(0x52aa, s, 0x5b, 0x52aa, 0x8493); s := s + [0x5b];
    CrcStep(0x52aa, s, 0x00, 0x8493, 0x6dc4); s := s + [0x00];
    CrcStep(0x52aa, s, 0xfe, 0x6dc4, 0x13ed); s := s + [0xfe];
    CrcStep(0x52aa, s, 0x4b, 0x13ed, 0x7a93); s := s + [0x4b];
    assert s == [0x5b, 0x00, 0xfe, 0x4b];
  }

  /** The register once payload bytes 12..15 of the long response follow. */
  lemma LongPayloadCrc4()
    ensures RegisterFrom(0x7a93, [0x0f, 0x00, 0x4d, 0x1c]) == 0x103b
  {
    var s: seq<byte> := [];
    CrcStep(0x7a93, s, 0x0f, 0x7a93, 0x697a); s := s + [0x0f];
    CrcStep(0x7a93, s, 0x00, 0x697a, 0xe3e8); s := s + [0x00];
    CrcStep(0x7a93, s, 0x4d, 0xe3e8, 0x7b23); s := s + [0x4d];
    CrcStep(0x7a93, s, 0x1c, 0x7b23, 0x103b); s := s + [0x1c];
    assert s == [0x0f, 0x00, 0x4d, 0x1c];
  }

  /** The register once payload bytes 16..19 of the long response follow. */
  lemma LongPayloadCrc5()
    ensures RegisterFrom(0x103b, [0x00, 0x00, 0x90, 0x01]) == 0x21a1
  {
    var s: seq<byte> := [];
    CrcStep(0x103b, s, 0x00, 0x103b, 0xd351); s := s + [0x00];
    CrcStep(0x103b, s, 0x00, 0xd351, 0xfc12); s := s + [0x00];
    CrcStep(0x103b, s, 0x90, 0xfc12, 0x617c); s := s + [0x90];
    CrcStep(0x103b, s, 0x01, 0x617c, 0x21a1); s := s + [0x01];
    assert s == [0x00, 0x00, 0x90, 0x01];
  }

  /** The register once payload bytes 20..23 of the long response follow. */
  lemma LongPayloadCrc6()
    ensures RegisterFrom(0x21a1, [0x03, 0x19, 0x67, 0x07]) == 0x87c9
  {
    var s: seq<byte> := [];
    CrcStep(0x21a1, s, 0x03, 0x21a1, 0xb9a0); s := s + [0x03];
    CrcStep(0x21a1, s, 0x19, 0xb9a0, 0xb278); s := s + [0x19];
    CrcStep(0x21a1, s, 0x67, 0xb278, 0xc8f3); s := s + [0x67];
    CrcStep(0x21a1, s, 0x07, 0xc8f3, 0x87c9); s := s + [0x07];
    assert s == [0x03, 0x19, 0x67, 0x07];
  }

  /** The register once payload bytes 24..26 of the long response follow. */
  lemma LongPayloadCrc7()
    ensures RegisterFrom(0x87c9, [0x00, 0x00, 0x00]) == 0xceb3
  {
    var s: seq<byte> := [];
    CrcStep(0x87c9, s, 0x00, 0x87c9, 0x5647); s := s + [0x00];
    CrcStep(0x87c9, s, 0x00, 0x5647, 0x3216); s := s + [0x00];
    CrcStep(0x87c9, s, 0x00, 0x3216, 0xceb3); s := s + [0x00];
    assert s == [0x00, 0x00, 0x00];
  }

  /** The register once payload bytes 27..30 of the long response follow. */
  lemma LongPayloadCrc8()
    ensures RegisterFrom(0xceb3, [0x00, 0x00, 0x00, 0x00]) == 0x7b47
  {
    var s: seq<byte> := [];
    CrcStep(0xceb3, s, 0x00, 0xceb3, 0xb58f); s := s + [0x00];
    CrcStep(0xceb3, s, 0x00, 0xb58f, 0xa4f4); s := s + [0x00];
    CrcStep(0xceb3, s, 0x00, 0xa4f4, 0x87a5); s := s + [0x00];
    CrcStep(0xceb3, s, 0x00, 0x87a5, 0x7b47); s := s + [0x00];
    assert s == [0x00, 0x00, 0x00, 0x00];
  }

  /** The register once payload bytes 31..34 of the long response follow. */
  lemma LongPayloadCrc9()
    ensures RegisterFrom(0x7b47, [0x00, 0x00, 0x00, 0x00]) == 0xad64
  {
    var s: seq<byte> := [];
    CrcStep(0x7b47, s, 0x00, 0x7b47, 0x323b); s := s + [0x00];
    CrcStep(0x7b47, s, 0x00, 0x323b, 0xd373); s := s + [0x00];
    CrcStep(0x7b47, s, 0x00, 0xd373, 0xe592); s := s + [0x00];
    CrcStep(0x7b47, s, 0x00, 0xe592, 0xad64); s := s + [0x00];
    assert s == [0x00, 0x00, 0x00, 0x00];
  }

  /** The register once payload bytes 35..38 of the long response follow. */
  lemma LongPayloadCrc10()
    ensures RegisterFrom(0xad64, [0x00, 0x00, 0x00, 0x00]) == 0xd18e
  {
    var s: seq<byte> := [];
    CrcStep(0xad64, s, 0x00, 0xad64, 0xebac); s := s + [0x00];
    CrcStep(0xad64, s, 0x00, 0xebac, 0x7deb); s := s + [0x00];
    CrcStep(0xad64, s, 0x00, 0x7deb, 0x4f3d); s := s + [0x00];
    CrcStep(0xad64, s, 0x00, 0x4f3d, 0xd18e); s := s + [0x00];
    assert s == [0x00, 0x00, 0x00, 0x00];
  }

  /** The register once payload bytes 39..42 of the long response follow. */
  lemma LongPayloadCrc11()
    ensures RegisterFrom(0xd18e, [0x00, 0x00, 0x00, 0x00]) == 0x117b
  {
    var s: seq<byte> := [];
    CrcStep(0xd18e, s, 0x00, 0xd18e, 0x6451); s := s + [0x00];
    CrcStep(0xd18e, s, 0x00, 0x6451, 0xfca5); s := s + [0x00];
    CrcStep(0xd18e, s, 0x00, 0xfca5, 0x7b3c); s := s + [0x00];
    CrcStep(0xd18e, s, 0x00, 0x7b3c, 0x117b); s := s + [0x00];
    assert s == [0x00, 0x00, 0x00, 0x00];
  }

  /** The register once payload bytes 43..46 of the long response follow. */
  lemma LongPayloadCrc12()
    ensures RegisterFrom(0x117b, [0x00, 0x00, 0x00, 0x00]) == 0xe148
  {
    var s: seq<byte> := [];
    CrcStep(0x117b, s, 0x00, 0x117b, 0x2351); s := s + [0x00];
    CrcStep(0x117b, s, 0x00, 0x2351, 0xfce2); s := s + [0x00];
    CrcStep(0x117b, s, 0x00, 0xfce2, 0x497c); s := s + [0x00];
    CrcStep(0x117b, s, 0x00, 0x497c, 0xe148); s := s + [0x00];
    assert s == [0x00, 0x00, 0x00, 0x00];
  }

  /** The register once payload bytes 47..51 of the long response follow. */
  lemma LongPayloadCrc13()
    ensures RegisterFrom(0xe148, [0x00, 0x00, 0x00, 0x00, 0x00]) == 0x32d6
  {
    var s: seq<byte> := [];
    CrcStep(0xe148, s, 0x00, 0xe148, 0x36e1); s := s + [0x00];
    CrcStep(0xe148, s, 0x00, 0x36e1, 0x48f6); s := s + [0x00];
    CrcStep(0xe148, s, 0x00, 0x48f6, 0x46c8); s := s + [0x00];
    CrcStep(0xe148, s, 0x00, 0x46c8, 0x9647); s := s + [0x00];
    CrcStep(0xe148, s, 0x00, 0x9647, 0x32d6); s := s + [0x00];
    assert s == [0x00, 0x00, 0x00, 0x00, 0x00];
  }

  // ---------------------------------------------------------------------------
  // Frames, pieces and chunks

  /** A frame whose head, CRC and CRC bytes are known. */
  lemma KnownFrame(payload: seq<byte>, head: seq<byte>, crc: nat, tail: seq<byte>)
    requires |payload| + 2 < 0x10000 && head == UInt16LE(Header) + UInt16LE(|payload| + 2)
    requires Crc16(head + payload) == crc && crc < 0x10000 && tail == UInt16LE(crc)
    ensures Frame(payload) == head + payload + tail
  {
    FrameOfKnownCrc(payload, head + payload, crc);
  }

  /** Two chunks laid end to end. */
  lemma ConcatPair(a: seq<byte>, b: seq<byte>)
    ensures Concat([a, b]) == a + b
  {
    assert [a, b][..1] == [a];
    TotalLengthSingle(a);
  }

  /** A single pending answer before the last one. */
  lemma PendingsOne(last: Result<Output, ParseError>)
    ensures Pendings(1) + [last] == [Success(Pending), last]
  {
  }

  /**
   * A frame from the builder, split in two chunks the first of which holds
   * the header and the length field and fed to a parser in two calls not a
   * ttl apart, answers pending and then the decoded payload.
   */
  lemma TwoChunkResponse(payload: seq<byte>, first: seq<byte>, second: seq<byte>, record: Record,
                         ttl: nat, now1: int, now2: int)
    requires |payload| + 2 < 0x10000 && first + second == Frame(payload)
    requires |first| >= 4 && second != [] && ParsePayloadFrame(payload) == Success(record)
    requires ttl == 0 || now2 - now1 < ttl
    ensures Feed(Initial, ttl, [first, second], [now1, now2])
      == (Initial, [Success(Pending), Success(Finished(record))])
  {
    var chunks, times := [first, second], [now1, now2];
    ConcatPair(first, second);
    assert NonEmptyChunks(chunks) by {
      assert chunks[0] == first && chunks[1] == second;
    }
    assert Timely(ttl, times[0], times[1..]) by {
      assert times[1..] == [now2];
    }
    FragmentedFrame(payload, ttl, chunks, times);
    PendingsOne(Decoded(payload));
  }

  // ---------------------------------------------------------------------------
  // Error responses

  /** The "Read" error response of the tests: 52 42 06 00 81 21 50 01 23 7a. */
  const ReadErrorResponse: seq<byte> := [0x52, 0x42, 0x06, 0x00] + [0x81, 0x21, 0x50, 0x01] + [0x23, 0x7a]

  /** The "Write" error response of the tests: 52 42 06 00 82 21 50 01 23 3e. */
  const WriteErrorResponse: seq<byte> := [0x52, 0x42, 0x06, 0x00] + [0x82, 0x21, 0x50, 0x01] + [0x23, 0x3e]

  /** crc16 of 52 42 06 00 81 21 50 01. */
  lemma ReadErrorCrc(head: seq<byte>, payload: seq<byte>)
    requires head == [0x52, 0x42, 0x06, 0x00] && payload == [0x81, 0x21, 0x50, 0x01]
    ensures Crc16(head + payload) == 0x7a23
  {
    ErrorResponseHeadCrc();
    ReadErrorPayloadCrc();
    CrcSegments(0xffff, head, payload, 0x28b3, 0x7a23);
  }

  /** crc16 of 52 42 06 00 82 21 50 01. */
  lemma WriteErrorCrc(head: seq<byte>, payload: seq<byte>)
    requires head == [0x52, 0x42, 0x06, 0x00] && payload == [0x82, 0x21, 0x50, 0x01]
    ensures Crc16(head + payload) == 0x3e23
  {
    ErrorResponseHeadCrc();
    WriteErrorPayloadCrc();
    CrcSegments(0xffff, head, payload, 0x28b3, 0x3e23);
  }

  /** The "Read" error response is the frame around the payload 81 21 50 01. */
  lemma ReadErrorFrame(head: seq<byte>, payload: seq<byte>, tail: seq<byte>)
    requires head == [0x52, 0x42, 0x06, 0x00] && payload == [0x81, 0x21, 0x50, 0x01] && tail == [0x23, 0x7a]
    ensures Frame(payload) == head + payload + tail
  {
    ReadErrorCrc(head, payload);
    KnownFrame(payload, head, 0x7a23, tail);
  }

  /** The "Write" error response is the frame around the payload 82 21 50 01. */
  lemma WriteErrorFrame(head: seq<byte>, payload: seq<byte>, tail: seq<byte>)
    requires head == [0x52, 0x42, 0x06, 0x00] && payload == [0x82, 0x21, 0x50, 0x01] && tail == [0x23, 0x3e]
    ensures Frame(payload) == head + payload + tail
  {
    WriteErrorCrc(head, payload);
    KnownFrame(payload, head, 0x3e23, tail);
  }

  /** The record of a "CRC Error" (code 0x01) response from register 0x5021. */
  function CrcErrorRecord(status: byte): (r: Record)
    requires status >= 0x80
    ensures r.statusCode == status && r.address == LatestDataLongAddress && r.data == NoData
    ensures r.errorInfo == Some(ErrorDetail(Some("CRC Error"), Some(0x01)))
  {
    Record(StatusText(status), status, LatestDataLongAddress, NoData, Some(ErrorDetail(Some("CRC Error"), Some(0x01))))
  }

  /** The status texts of the two error responses. */
  lemma ErrorStatusTexts()
    ensures CrcErrorRecord(0x81).status == Some("Read Error")
    ensures CrcErrorRecord(0x82).status == Some("Write Error")
  {
  }

  /** The payload of an error response for register 0x5021 with the code 0x01. */
  lemma CrcErrorPayloadDecodes(status: byte, payload: seq<byte>)
    requires status >= 0x80 && payload == [status, 0x21, 0x50, 0x01]
    ensures ParsePayloadFrame(payload) == Success(CrcErrorRecord(status))
  {
    assert payload == ResponseHead(status, LatestDataLongAddress) + [0x01] + [];
    ErrorResponseRoundTrip(status, LatestDataLongAddress, 0x01, []);
  }

  /** A whole frame from the builder, given to an idle parser, decodes to `record`. */
  lemma WholeResponse(payload: seq<byte>, msg: seq<byte>, record: Record, ttl: nat, now: int)
    requires |payload| + 2 < 0x10000 && msg == Frame(payload)
    requires ParsePayloadFrame(payload) == Success(record)
    ensures Step(Initial, ttl, msg, now) == Transition(Initial, Success(Finished(record)))
  {
    FrameRoundTrip(payload, ttl, now);
  }

  /**
   * The "Read" error response, given whole to a parser: status "Read Error"
   * (0x81), address 0x5021, error "CRC Error" (code 0x01), and the parser is
   * idle again.
   */
  lemma ReadErrorResponseDecodes(ttl: nat, now: int)
    ensures Step(Initial, ttl, ReadErrorResponse, now) == Transition(Initial, Success(Finished(CrcErrorRecord(0x81))))
  {
    ReadErrorFrame([0x52, 0x42, 0x06, 0x00], [0x81, 0x21, 0x50, 0x01], [0x23, 0x7a]);
    CrcErrorPayloadDecodes(0x81, [0x81, 0x21, 0x50, 0x01]);
    WholeResponse([0x81, 0x21, 0x50, 0x01], ReadErrorResponse, CrcErrorRecord(0x81), ttl, now);
  }

  /**
   * The "Read" error response with its first chunk cut after three bytes:
   * the first call throws a RangeError reading the length field, and the
   * second call reads `06 00` as a header and refuses it, so the response is
   * lost.
   */
  lemma ReadErrorResponseCutShort(ttl: nat, now1: int, now2: int)
    ensures ReadErrorResponse == [0x52, 0x42, 0x06] + [0x00, 0x81, 0x21, 0x50, 0x01, 0x23, 0x7a]
    ensures Feed(Initial, ttl, [[0x52, 0x42, 0x06], [0x00, 0x81, 0x21, 0x50, 0x01, 0x23, 0x7a]], [now1, now2])
            == (Initial, [Failure(RangeError), Failure(FormatError(UnsupportedFormat))])
  {
    ShortFirstChunkLost([0x52, 0x42, 0x06], [0x00, 0x81, 0x21, 0x50, 0x01, 0x23, 0x7a], ttl, now1, now2);
  }

  /**
   * The "Write" error response, given whole to a parser: status "Write
   * Error" (0x82), address 0x5021, error "CRC Error" (code 0x01), and the
   * parser is idle again.
   */
  lemma WriteErrorResponseDecodes(ttl: nat, now: int)
    ensures Step(Initial, ttl, WriteErrorResponse, now) == Transition(Initial, Success(Finished(CrcErrorRecord(0x82))))
  {
    WriteErrorFrame([0x52, 0x42, 0x06, 0x00], [0x82, 0x21, 0x50, 0x01], [0x23, 0x3e]);
    CrcErrorPayloadDecodes(0x82, [0x82, 0x21, 0x50, 0x01]);
    WholeResponse([0x82, 0x21, 0x50, 0x01], WriteErrorResponse, CrcErrorRecord(0x82), ttl, now);
  }

  // ---------------------------------------------------------------------------
  // The "latest data long" response

  /** The first 31 bytes of the long response, as the tests split it ... */
  const LongResponseFirst: seq<byte> :=
    [0x52, 0x42, 0x36, 0x00] +
    [0x01, 0x21, 0x50, 0x37] +
    [0x29, 0x07, 0x5c, 0x1d] +
    [0x5b, 0x00, 0xfe, 0x4b] +
    [0x0f, 0x00, 0x4d, 0x1c] +
    [0x00, 0x00, 0x90, 0x01] +
    [0x03, 0x19, 0x67, 0x07] +
    [0x00, 0x00, 0x00]

  /** ... and the remaining 27, the last two of which are the CRC d6 32. */
  const LongResponseSecond: seq<byte> :=
    [0x00, 0x00, 0x00, 0x00] +
    [0x00, 0x00, 0x00, 0x00] +
    [0x00, 0x00, 0x00, 0x00] +
    [0x00, 0x00, 0x00, 0x00] +
    [0x00, 0x00, 0x00, 0x00] +
    [0x00, 0x00, 0x00, 0x00, 0x00] +
    [0xd6, 0x32]

  /** The payload of the long response: the 31 bytes the decoder reads, then 21 zero bytes. */
  const LongPayload: seq<byte> :=
    [0x01, 0x21, 0x50, 0x37] +
    [0x29, 0x07, 0x5c, 0x1d] +
    [0x5b, 0x00, 0xfe, 0x4b] +
    [0x0f, 0x00, 0x4d, 0x1c] +
    [0x00, 0x00, 0x90, 0x01] +
    [0x03, 0x19, 0x67, 0x07] +
    [0x00, 0x00, 0x00] +
    [0x00, 0x00, 0x00, 0x00] +
    [0x00, 0x00, 0x00, 0x00] +
    [0x00, 0x00, 0x00, 0x00] +
    [0x00, 0x00, 0x00, 0x00] +
    [0x00, 0x00, 0x00, 0x00] +
    [0x00, 0x00, 0x00, 0x00, 0x00]

  /** The long response of the tests, whole. */
  const LongResponse: seq<byte> := [0x52, 0x42, 0x36, 0x00] + LongPayload + [0xd6, 0x32]

  /** The readings of the long response: 18.33 degrees, 1002.494 hPa, eCO2 400 ppm, no vibration. */
  const LongReadings := LatestData(
    id := 0x37, temperature := 1833, humidity := 7516, illuminance := 91, barometricPressure := 1002494,
    soundNoise := 7245, etvoc := 0, eco2 := 400, discomfortIndex := 6403, heatStroke := 1895,
    vibrationStatus := "None", spectralIntensity := 0, seismicIntensity := 0)

  /** The record the long response decodes to: "Read OK" (0x01) from register 0x5021. */
  const LongRecord := Record(Some("Read OK"), 0x01, 0x5021, Latest(LongReadings), None)

  /** The register once the first 31 bytes of the long response are consumed. */
  lemma LongResponseFirstCrc(head: seq<byte>, q1: seq<byte>, q2: seq<byte>, q3: seq<byte>, q4: seq<byte>, q5: seq<byte>, q6: seq<byte>, q7: seq<byte>)
    requires head == [0x52, 0x42, 0x36, 0x00]
    requires q1 == [0x01, 0x21, 0x50, 0x37]
    requires q2 == [0x29, 0x07, 0x5c, 0x1d]
    requires q3 == [0x5b, 0x00, 0xfe, 0x4b]
    requires q4 == [0x0f, 0x00, 0x4d, 0x1c]
    requires q5 == [0x00, 0x00, 0x90, 0x01]
    requires q6 == [0x03, 0x19, 0x67, 0x07]
    requires q7 == [0x00, 0x00, 0x00]
    ensures RegisterFrom(0xffff, head + q1 + q2 + q3 + q4 + q5 + q6 + q7) == 0xceb3
  {
    LongResponseHeadCrc();
    LongPayloadCrc1();
    LongPayloadCrc2();
    LongPayloadCrc3();
    LongPayloadCrc4();
    LongPayloadCrc5();
    LongPayloadCrc6();
    LongPayloadCrc7();
    CrcSegments(0xffff, head, q1, 0x28a7, 0x5c8f);
    CrcSegments(0xffff, head + q1, q2, 0x5c8f, 0x52aa);
    CrcSegments(0xffff, head + q1 + q2, q3, 0x52aa, 0x7a93);
    CrcSegments(0xffff, head + q1 + q2 + q3, q4, 0x7a93, 0x103b);
    CrcSegments(0xffff, head + q1 + q2 + q3 + q4, q5, 0x103b, 0x21a1);
    CrcSegments(0xffff, head + q1 + q2 + q3 + q4 + q5, q6, 0x21a1, 0x87c9);
    CrcSegments(0xffff, head + q1 + q2 + q3 + q4 + q5 + q6, q7, 0x87c9, 0xceb3);
  }

  /** The register the remaining payload bytes lead to from there. */
  lemma LongResponseSecondCrc(q8: seq<byte>, q9: seq<byte>, q10: seq<byte>, q11: seq<byte>, q12: seq<byte>, q13: seq<byte>)
    requires q8 == [0x00, 0x00, 0x00, 0x00]
    requires q9 == [0x00, 0x00, 0x00, 0x00]
    requires q10 == [0x00, 0x00, 0x00, 0x00]
    requires q11 == [0x00, 0x00, 0x00, 0x00]
    requires q12 == [0x00, 0x00, 0x00, 0x00]
    requires q13 == [0x00, 0x00, 0x00, 0x00, 0x00]
    ensures RegisterFrom(0xceb3, q8 + q9 + q10 + q11 + q12 + q13) == 0x32d6
  {
    LongPayloadCrc8();
    LongPayloadCrc9();
    LongPayloadCrc10();
    LongPayloadCrc11();
    LongPayloadCrc12();
    LongPayloadCrc13();
    CrcSegments(0xceb3, q8, q9, 0x7b47, 0xad64);
    CrcSegments(0xceb3, q8 + q9, q10, 0xad64, 0xd18e);
    CrcSegments(0xceb3, q8 + q9 + q10, q11, 0xd18e, 0x117b);
    CrcSegments(0xceb3, q8 + q9 + q10 + q11, q12, 0x117b, 0xe148);
    CrcSegments(0xceb3, q8 + q9 + q10 + q11 + q12, q13, 0xe148, 0x32d6);
  }

  /** Thirteen pieces regrouped: the chunks of the tests and the payload between head and CRC. */
  lemma Regroup(head: seq<byte>, q1: seq<byte>, q2: seq<byte>, q3: seq<byte>, q4: seq<byte>, q5: seq<byte>, q6: seq<byte>, q7: seq<byte>, q8: seq<byte>, q9: seq<byte>, q10: seq<byte>, q11: seq<byte>, q12: seq<byte>, q13: seq<byte>, tail: seq<byte>)
    ensures var first := head + q1 + q2 + q3 + q4 + q5 + q6 + q7;
      var second := q8 + q9 + q10 + q11 + q12 + q13;
      var payload := q1 + q2 + q3 + q4 + q5 + q6 + q7 + q8 + q9 + q10 + q11 + q12 + q13;
      first + second == head + payload && first + (second + tail) == head + payload + tail
  {
  }

  /** crc16 of the long response up to its CRC. */
  lemma LongResponseCrc(head: seq<byte>, q1: seq<byte>, q2: seq<byte>, q3: seq<byte>, q4: seq<byte>, q5: seq<byte>, q6: seq<byte>, q7: seq<byte>, q8: seq<byte>, q9: seq<byte>, q10: seq<byte>, q11: seq<byte>, q12: seq<byte>, q13: seq<byte>)
    requires head == [0x52, 0x42, 0x36, 0x00]
    requires q1 == [0x01, 0x21, 0x50, 0x37]
    requires q2 == [0x29, 0x07, 0x5c, 0x1d]
    requires q3 == [0x5b, 0x00, 0xfe, 0x4b]
    requires q4 == [0x0f, 0x00, 0x4d, 0x1c]
    requires q5 == [0x00, 0x00, 0x90, 0x01]
    requires q6 == [0x03, 0x19, 0x67, 0x07]
    requires q7 == [0x00, 0x00, 0x00]
    requires q8 == [0x00, 0x00, 0x00, 0x00]
    requires q9 == [0x00, 0x00, 0x00, 0x00]
    requires q10 == [0x00, 0x00, 0x00, 0x00]
    requires q11 == [0x00, 0x00, 0x00, 0x00]
    requires q12 == [0x00, 0x00, 0x00, 0x00]
    requires q13 == [0x00, 0x00, 0x00, 0x00, 0x00]
    ensures Crc16(head + (q1 + q2 + q3 + q4 + q5 + q6 + q7 + q8 + q9 + q10 + q11 + q12 + q13)) == 0x32d6
  {
    LongResponseFirstCrc(head, q1, q2, q3, q4, q5, q6, q7);
    LongResponseSecondCrc(q8, q9, q10, q11, q12, q13);
    CrcSegments(0xffff, head + q1 + q2 + q3 + q4 + q5 + q6 + q7, q8 + q9 + q10 + q11 + q12 + q13, 0xceb3, 0x32d6);
    Regroup(head, q1, q2, q3, q4, q5, q6, q7, q8, q9, q10, q11, q12, q13, []);
  }

  /** The long response is the frame the builder would put around its payload. */
  lemma LongResponseFrame(payload: seq<byte>)
    requires payload == LongPayload
    ensures Frame(payload) == LongResponse
  {
    var head: seq<byte> := [0x52, 0x42, 0x36, 0x00];
    var q1: seq<byte> := [0x01, 0x21, 0x50, 0x37];
    var q2: seq<byte> := [0x29, 0x07, 0x5c, 0x1d];
    var q3: seq<byte> := [0x5b, 0x00, 0xfe, 0x4b];
    var q4: seq<byte> := [0x0f, 0x00, 0x4d, 0x1c];
    var q5: seq<byte> := [0x00, 0x00, 0x90, 0x01];
    var q6: seq<byte> := [0x03, 0x19, 0x67, 0x07];
    var q7: seq<byte> := [0x00, 0x00, 0x00];
    var q8: seq<byte> := [0x00, 0x00, 0x00, 0x00];
    var q9: seq<byte> := [0x00, 0x00, 0x00, 0x00];
    var q10: seq<byte> := [0x00, 0x00, 0x00, 0x00];
    var q11: seq<byte> := [0x00, 0x00, 0x00, 0x00];
    var q12: seq<byte> := [0x00, 0x00, 0x00, 0x00];
    var q13: seq<byte> := [0x00, 0x00, 0x00, 0x00, 0x00];
    LongResponseCrc(head, q1, q2, q3, q4, q5, q6, q7, q8, q9, q10, q11, q12, q13);
    KnownFrame(payload, head, 0x32d6, [0xd6, 0x32]);
  }

  /** The two chunks of the tests, laid end to end, are the long response. */
  lemma LongResponseSplit()
    ensures LongResponseFirst + LongResponseSecond == LongResponse
  {
    var head: seq<byte> := [0x52, 0x42, 0x36, 0x00];
    var q1: seq<byte> := [0x01, 0x21, 0x50, 0x37];
    var q2: seq<byte> := [0x29, 0x07, 0x5c, 0x1d];
    var q3: seq<byte> := [0x5b, 0x00, 0xfe, 0x4b];
    var q4: seq<byte> := [0x0f, 0x00, 0x4d, 0x1c];
    var q5: seq<byte> := [0x00, 0x00, 0x90, 0x01];
    var q6: seq<byte> := [0x03, 0x19, 0x67, 0x07];
    var q7: seq<byte> := [0x00, 0x00, 0x00];
    var q8: seq<byte> := [0x00, 0x00, 0x00, 0x00];
    var q9: seq<byte> := [0x00, 0x00, 0x00, 0x00];
    var q10: seq<byte> := [0x00, 0x00, 0x00, 0x00];
    var q11: seq<byte> := [0x00, 0x00, 0x00, 0x00];
    var q12: seq<byte> := [0x00, 0x00, 0x00, 0x00];
    var q13: seq<byte> := [0x00, 0x00, 0x00, 0x00, 0x00];
    Regroup(head, q1, q2, q3, q4, q5, q6, q7, q8, q9, q10, q11, q12, q13, [0xd6, 0x32]);
  }

  /** Payload bytes 0..7 (status, address, id, temperature, humidity) of the long response. */
  lemma LongPayloadBytes1()
    ensures |LongPayload| == 52
    ensures LongPayload[0] == 0x01 && LongPayload[1] == 0x21 && LongPayload[2] == 0x50 && LongPayload[3] == 0x37
    ensures LongPayload[4] == 0x29 && LongPayload[5] == 0x07 && LongPayload[6] == 0x5c && LongPayload[7] == 0x1d
  {
  }

  /** Payload bytes 8..15 (illuminance, pressure, noise) of the long response. */
  lemma LongPayloadBytes2()
    ensures LongPayload[8] == 0x5b && LongPayload[9] == 0x00 && LongPayload[10] == 0xfe && LongPayload[11] == 0x4b
    ensures LongPayload[12] == 0x0f && LongPayload[13] == 0x00 && LongPayload[14] == 0x4d && LongPayload[15] == 0x1c
  {
  }

  /** Payload bytes 16..23 (eTVOC, eCO2, discomfort index, heat stroke) of the long response. */
  lemma LongPayloadBytes3()
    ensures LongPayload[16] == 0x00 && LongPayload[17] == 0x00 && LongPayload[18] == 0x90 && LongPayload[19] == 0x01
    ensures LongPayload[20] == 0x03 && LongPayload[21] == 0x19 && LongPayload[22] == 0x67 && LongPayload[23] == 0x07
  {
  }

  /** Payload bytes 24..30 the decoder reads (vibration, SI value, PGA) of the long response. */
  lemma LongPayloadBytes4()
    ensures LongPayload[24] == 0x00 && LongPayload[25] == 0x00 && LongPayload[26] == 0x00 && LongPayload[29] == 0x00
    ensures LongPayload[30] == 0x00
  {
  }

  /** The long payload decodes to the readings of the tests. */
  lemma LongPayloadDecodes()
    ensures ParsePayloadFrame(LongPayload) == Success(LongRecord)
  {
    LongPayloadBytes1();
    LongPayloadBytes2();
    LongPayloadBytes3();
    LongPayloadBytes4();
  }

  /** The long response, given whole to a parser, decodes to the readings; the parser is idle again. */
  lemma LongResponseDecodes(ttl: nat, now: int)
    ensures Step(Initial, ttl, LongResponse, now) == Transition(Initial, Success(Finished(LongRecord)))
  {
    LongResponseFrame(LongPayload);
    LongPayloadDecodes();
    WholeResponse(LongPayload, LongResponse, LongRecord, ttl, now);
  }

  /**
   * The split long response, fed to a parser in two calls that are not a
   * ttl apart: the first answers pending, the second the decoded readings,
   * and the parser is idle again.
   */
  lemma SplitLongResponseDecodes(ttl: nat, now1: int, now2: int)
    requires ttl == 0 || now2 - now1 < ttl
    ensures Feed(Initial, ttl, [LongResponseFirst, LongResponseSecond], [now1, now2])
      == (Initial, [Success(Pending), Success(Finished(LongRecord))])
  {
    LongResponseSplit();
    LongResponseFrame(LongPayload);
    LongPayloadDecodes();
    TwoChunkResponse(LongPayload, LongResponseFirst, LongResponseSecond, LongRecord, ttl, now1, now2);
  }

  /**
   * The test of the split long response, on the parser object: a parser
   * made without a ttl answers pending to the first chunk and the decoded
   * readings to the second, whenever the two calls come.
   */
  method ParseSplitLongResponse(now1: int, now2: int)
    returns (output1: Result<Output, ParseError>, output2: Result<Output, ParseError>)
    ensures output1 == Success(Pending)
    ensures output2 == Success(Finished(LongRecord))
  {
    var parser := new Parser(0);
    output1 := parser.ParseResponse(LongResponseFirst, now1);
    ghost var state1 := parser.State();
    output2 := parser.ParseResponse(LongResponseSecond, now2);
    SplitLongResponseDecodes(0, now1, now2);
    FeedTwo(Initial, 0, LongResponseFirst, LongResponseSecond, now1, now2);
  }
}
