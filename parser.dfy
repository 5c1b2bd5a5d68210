/**
 * Omron2jcieBuPacketParser: reassembles a response frame from the chunks a
 * serial port delivers, checks its header and CRC, and decodes its payload.
 *
 * The parser is a class with the source's three mutable fields and its
 * constant `ttl`. `State()` reads those fields as a `ParserState` value, and
 * `Step` says, as a function of that value, what one parseResponse call does:
 * the new state and the result. The method is proved to do exactly `Step`,
 * and the properties of `Step` are lemmas in module Reassembly.
 *
 * Date.now() is the parameter `now`; a `ttl` of 0 stands for an absent or
 * zero ttl, which switches the staleness check off.
 */
module PacketParser {
  import opened Wrappers
  import opened Wire
  import opened Checksum
  import opened PayloadFrame

  /**
   * The fields bufferArray, expectedLength and lastBuffered. A null
   * bufferArray is the empty list: the source holds null exactly when
   * expectedLength is 0, and it never reads the array then.
   */
  datatype ParserState = ParserState(chunks: seq<seq<byte>>, expectedLength: nat, lastBuffered: int)
  {
    /** No frame is being buffered. */
    predicate Idle()
    {
      expectedLength == 0
    }

    /**
     * What every call leaves behind: an idle parser holds nothing; a
     * buffering one holds the chunks of a frame whose first chunk carried
     * the header and the length field, and has not yet reached that length.
     */
    predicate Valid()
    {
      if expectedLength == 0 then
        chunks == [] && lastBuffered == 0
      else
        chunks != [] && |chunks[0]| >= 4 && ReadUInt16LE(chunks[0], 0) == Header
        && expectedLength == ReadUInt16LE(chunks[0], 2) + 4
        && TotalLength(chunks) != expectedLength
    }
  }

  /** The state after the constructor and after reset(). */
  const Initial := ParserState([], 0, 0)

  /** `{finished: false}`, or a decoded record with `finished: true`. */
  datatype Output = Pending | Finished(record: Record)

  /** One parseResponse call: the state it leaves and what it returns or throws. */
  datatype Transition = Transition(state: ParserState, result: Result<Output, ParseError>)

  /** The partial frame is discarded: one is buffered, ttl is set and it has run out. */
  predicate Stale(s: ParserState, ttl: nat, now: int)
  {
    s.expectedLength > 0 && ttl != 0 && now - s.lastBuffered >= ttl
  }

  /**
   * The decoded payload as parseResponse returns it: never pending; a
   * finished record exactly when parsePayloadFrame succeeds, and otherwise
   * parsePayloadFrame's own error.
   */
  function Decoded(payload: seq<byte>): (r: Result<Output, ParseError>)
    ensures r != Success(Pending)
    ensures r.Success? ==> r.value.Finished? && ParsePayloadFrame(payload) == Success(r.value.record)
    ensures r.Failure? ==> ParsePayloadFrame(payload) == Failure(r.error)
  {
    match ParsePayloadFrame(payload)
    case Success(record) => Success(Finished(record))
    case Failure(e) => Failure(e)
  }

  /**
   * A complete message: the word in its last two bytes must be crc16 of
   * everything before it; the payload is what lies between the length field
   * and the CRC. A record comes back only from a message whose CRC matches;
   * an error is either the CRC mismatch, naming both values, or the
   * payload's own decoding error.
   */
  function CheckedMessage(msg: seq<byte>): (r: Result<Output, ParseError>)
    requires |msg| >= 4
    ensures r != Success(Pending)
    ensures var n := |msg| - 2;
      r.Success? ==> Crc16(msg[..n]) == ReadUInt16LE(msg, n)
                     && ParsePayloadFrame(Slice(msg, 4, n)) == Success(r.value.record)
    ensures var n := |msg| - 2;
      r.Failure? ==>
        (Crc16(msg[..n]) != ReadUInt16LE(msg, n)
         && r.error == FormatError(CrcCheckFailed(Crc16(msg[..n]), ReadUInt16LE(msg, n))))
        || (Crc16(msg[..n]) == ReadUInt16LE(msg, n) && ParsePayloadFrame(Slice(msg, 4, n)) == Failure(r.error))
  {
    var crcIndex := |msg| - 2;
    var actual := ReadUInt16LE(msg, crcIndex);
    var expected := Crc16(Slice(msg, 0, crcIndex));
    assert Slice(msg, 0, crcIndex) == msg[..crcIndex];
    if expected != actual then Failure(FormatError(CrcCheckFailed(expected, actual)))
    else Decoded(Slice(msg, 4, crcIndex))
  }

  /**
   * After the chunk is buffered: once the buffered length equals the
   * expected length the chunks are joined, the parser is reset, and only then
   * is the message checked. Any other total, short or past the expected
   * length, waits for more.
   */
  function Accumulate(s: ParserState): (t: Transition)
    requires s.expectedLength >= 4
    ensures t.result == Success(Pending) ==> t == Transition(s, Success(Pending))
    ensures t.result != Success(Pending) ==> t.state == Initial
  {
    if TotalLength(s.chunks) == s.expectedLength then Transition(Initial, CheckedMessage(Concat(s.chunks)))
    else Transition(s, Success(Pending))
  }

  /**
   * parseResponse(chunk) at time `now`, from the state `s`. Every call keeps
   * the invariant, and the parser is left buffering exactly when the answer
   * is `{finished: false}`: any other answer, a decoded record or an error
   * (a bad header, a short chunk, a CRC mismatch, a decoding error), leaves
   * it idle.
   */
  function Step(s: ParserState, ttl: nat, chunk: seq<byte>, now: int): (t: Transition)
    requires s.Valid()
    ensures t.state.Valid()
    ensures t.result == Success(Pending) ==> !t.state.Idle() && t.state.lastBuffered == now
    ensures t.result != Success(Pending) ==> t.state == Initial
  {
    var s1 := if Stale(s, ttl, now) then Initial else s;
    if s1.expectedLength > 0 then
      var s2 := ParserState(s1.chunks + [chunk], s1.expectedLength, now);
      assert s2.chunks[0] == s1.chunks[0];
      assert s2.chunks[..|s2.chunks| - 1] == s1.chunks;
      Accumulate(s2)
    else if |chunk| < 2 then
      Transition(s1, Failure(RangeError))
    else if ReadUInt16LE(chunk, 0) != Header then
      Transition(s1, Failure(FormatError(UnsupportedFormat)))
    else if |chunk| < 4 then
      Transition(s1, Failure(RangeError))
    else
      var s2 := ParserState([chunk], ReadUInt16LE(chunk, 2) + 4, now);
      assert s2.chunks[..0] == [];
      Accumulate(s2)
  }

  /** The CRC check and decoding at the end of parseResponse. */
  method CheckMessage(msg: seq<byte>) returns (result: Result<Output, ParseError>)
    requires |msg| >= 4
    ensures result == CheckedMessage(msg)
  {
    var crcIndex := |msg| - 2;
    var payload := Slice(msg, 4, crcIndex);
    var actual := ReadUInt16LE(msg, crcIndex);
    var expected := ComputeCrc16(Slice(msg, 0, crcIndex));
    if expected != actual {
      result := Failure(FormatError(CrcCheckFailed(expected, actual)));
    } else {
      var output := ParsePayloadFrame(payload);
      if output.Success? {
        result := Success(Finished(output.value));
      } else {
        result := Failure(output.error);
      }
    }
  }

  /** The parser, with the fields the source updates in place. */
  class Parser {
    var bufferArray: seq<seq<byte>>
    var expectedLength: nat
    var lastBuffered: int
    const ttl: nat

    /** The fields as a value. */
    function State(): ParserState
      reads this
    {
      ParserState(bufferArray, expectedLength, lastBuffered)
    }

    predicate Valid()
      reads this
    {
      State().Valid()
    }

    /** new Omron2jcieBuPacketParser(ttl). */
    constructor(ttl: nat)
      ensures Valid() && State() == Initial && this.ttl == ttl
    {
      bufferArray := [];
      expectedLength := 0;
      lastBuffered := 0;
      this.ttl := ttl;
    }

    /** reset(): back to idle. */
    method Reset()
      modifies this
      ensures Valid() && State() == Initial
    {
      bufferArray := [];
      expectedLength := 0;
      lastBuffered := 0;
    }

    /**
     * parseResponse(chunk): discard a stale partial frame; buffer the chunk
     * (a first chunk must carry the header and the length field); once the
     * expected length is reached, reset and check and decode the message.
     */
    method ParseResponse(chunk: seq<byte>, now: int) returns (result: Result<Output, ParseError>)
      requires Valid()
      modifies this
      ensures Valid()
      ensures Transition(State(), result) == Step(old(State()), ttl, chunk, now)
    {
      if expectedLength > 0 && ttl != 0 && now - lastBuffered >= ttl {
        Reset();
      }
      if expectedLength > 0 {
        bufferArray := bufferArray + [chunk];
        lastBuffered := now;
      } else {
        if |chunk| < 2 {
          return Failure(RangeError);
        }
        if ReadUInt16LE(chunk, 0) != Header {
          return Failure(FormatError(UnsupportedFormat));
        }
        if |chunk| < 4 {
          return Failure(RangeError);
        }
        expectedLength := ReadUInt16LE(chunk, 2) + 4;
        bufferArray := [chunk];
        lastBuffered := now;
      }
      var total := SumLengths(bufferArray);
      if total == expectedLength {
        var msg := ConcatChunks(bufferArray);
        Reset();
        result := CheckMessage(msg);
      } else {
        result := Success(Pending);
      }
    }
  }
}
