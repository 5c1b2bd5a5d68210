/**
 * What parseResponse promises over one call and over a run of calls: a
 * frame from the builder comes back as its payload, however it is split
 * into chunks; a stale partial frame is dropped; a bad header or CRC is
 * refused; a parser that has buffered past the expected length stays stuck.
 */
module Reassembly {
  import opened Wrappers
  import opened Wire
  import opened Checksum
  import opened PayloadFrame
  import opened PacketBuilder
  import opened PacketParser

  /**
   * parseResponse called once per chunk, chunk `i` at time `times[i]`: the
   * state after the last call and the result of every call.
   */
  function Feed(s: ParserState, ttl: nat, chunks: seq<seq<byte>>, times: seq<int>)
    : (r: (ParserState, seq<Result<Output, ParseError>>))
    requires s.Valid() && |times| == |chunks|
    ensures r.0.Valid() && |r.1| == |chunks|
    decreases |chunks|
  {
    if chunks == [] then (s, [])
    else
      var t := Step(s, ttl, chunks[0], times[0]);
      var rest := Feed(t.state, ttl, chunks[1..], times[1..]);
      (rest.0, [t.result] + rest.1)
  }

  /** `n` results of `{finished: false}`. */
  function Pendings(n: nat): (r: seq<Result<Output, ParseError>>)
    ensures |r| == n && forall i :: 0 <= i < n ==> r[i] == Success(Pending)
  {
    seq(n, _ => Success(Pending))
  }

  lemma TotalLengthSingle(c: seq<byte>)
    ensures TotalLength([c]) == |c| && Concat([c]) == c
  {
    assert [c][..0] == [];
  }

  lemma TotalLengthAppend(chunks: seq<seq<byte>>, c: seq<byte>)
    ensures TotalLength(chunks + [c]) == TotalLength(chunks) + |c|
    ensures Concat(chunks + [c]) == Concat(chunks) + c
  {
    assert (chunks + [c])[..|chunks|] == chunks;
  }

  /** A frame from the builder passes the CRC check, and the payload handed on is the one framed. */
  lemma FrameChecks(payload: seq<byte>)
    requires |payload| + 2 < 0x10000
    ensures CheckedMessage(Frame(payload)) == Decoded(payload)
  {
    var frame := Frame(payload);
    var n := |payload| + 4;
    FrameCrc(payload);
    assert Slice(frame, 4, n) == payload;
  }

  /**
   * Framing round trip: an idle parser given a whole frame from the builder
   * accepts the header, expects exactly the frame's length, passes the CRC
   * check and decodes the very payload that was framed; it is idle again
   * afterwards.
   */
  lemma FrameRoundTrip(payload: seq<byte>, ttl: nat, now: int)
    requires |payload| + 2 < 0x10000
    ensures Step(Initial, ttl, Frame(payload), now) == Transition(Initial, Decoded(payload))
  {
    var frame := Frame(payload);
    TotalLengthSingle(frame);
    FrameChecks(payload);
  }

  /** A stale partial frame is dropped: the chunk is read as the start of a new frame. */
  lemma StaleFrameDropped(s: ParserState, ttl: nat, chunk: seq<byte>, now: int)
    requires s.Valid() && Stale(s, ttl, now)
    ensures Step(s, ttl, chunk, now) == Step(Initial, ttl, chunk, now)
  {
  }

  /** With no ttl a partial frame is never dropped: the chunk is always added to it. */
  lemma NoTtlNeverDrops(s: ParserState, chunk: seq<byte>, now: int)
    requires s.Valid() && !s.Idle()
    ensures var t := Step(s, 0, chunk, now);
      var chunks := s.chunks + [chunk];
      t == (if TotalLength(chunks) == s.expectedLength then Transition(Initial, CheckedMessage(Concat(chunks)))
            else Transition(ParserState(chunks, s.expectedLength, now), Success(Pending)))
  {
  }

  /** A frame start without the header 52 42 is refused, and the parser stays idle. */
  lemma HeaderMismatch(s: ParserState, ttl: nat, chunk: seq<byte>, now: int)
    requires s.Valid() && (s.Idle() || Stale(s, ttl, now))
    requires |chunk| >= 2 && ReadUInt16LE(chunk, 0) != Header
    ensures Step(s, ttl, chunk, now) == Transition(Initial, Failure(FormatError(UnsupportedFormat)))
  {
  }

  /**
   * A whole message whose last word is not crc16 of the bytes before it is
   * refused with both values, and the parser is idle.
   */
  lemma CrcMismatch(msg: seq<byte>, ttl: nat, now: int)
    requires |msg| >= 4 && ReadUInt16LE(msg, 0) == Header && ReadUInt16LE(msg, 2) + 4 == |msg|
    requires Crc16(msg[..|msg| - 2]) != ReadUInt16LE(msg, |msg| - 2)
    ensures Step(Initial, ttl, msg, now)
      == Transition(Initial, Failure(FormatError(CrcCheckFailed(Crc16(msg[..|msg| - 2]),
                                                                ReadUInt16LE(msg, |msg| - 2)))))
  {
    TotalLengthSingle(msg);
  }

  /** While the buffered length stays short of the expected length, the chunk is kept and the answer is pending. */
  lemma ShortOfExpected(s: ParserState, ttl: nat, chunk: seq<byte>, now: int)
    requires s.Valid() && !s.Idle() && !Stale(s, ttl, now)
    requires TotalLength(s.chunks) + |chunk| < s.expectedLength
    ensures Step(s, ttl, chunk, now)
      == Transition(ParserState(s.chunks + [chunk], s.expectedLength, now), Success(Pending))
  {
    TotalLengthAppend(s.chunks, chunk);
  }

  /** A first chunk longer than the length its header announces leaves the parser past the expected length. */
  lemma OverlongStart(chunk: seq<byte>, ttl: nat, now: int)
    requires |chunk| >= 4 && ReadUInt16LE(chunk, 0) == Header && |chunk| > ReadUInt16LE(chunk, 2) + 4
    ensures var t := Step(Initial, ttl, chunk, now);
      t.result == Success(Pending) && TotalLength(t.state.chunks) > t.state.expectedLength > 0
  {
    TotalLengthSingle(chunk);
  }

  /**
   * Once the buffered length is past the expected length it can never equal
   * it again: every further call answers pending and buffers the chunk, until
   * the ttl drops the whole frame.
   */
  lemma OverrunSticks(s: ParserState, ttl: nat, chunk: seq<byte>, now: int)
    requires s.Valid() && !s.Idle() && !Stale(s, ttl, now)
    requires TotalLength(s.chunks) > s.expectedLength
    ensures var t := Step(s, ttl, chunk, now);
      t == Transition(ParserState(s.chunks + [chunk], s.expectedLength, now), Success(Pending))
      && TotalLength(t.state.chunks) > t.state.expectedLength
  {
    TotalLengthAppend(s.chunks, chunk);
  }

  /** No two consecutive calls are a ttl apart (a ttl of 0 never expires). */
  ghost predicate Timely(ttl: nat, last: int, times: seq<int>)
  {
    ttl == 0
    || ((|times| > 0 ==> times[0] - last < ttl)
        && forall i :: 0 < i < |times| ==> times[i] - times[i - 1] < ttl)
  }

  /** An overrun parser fed in time answers pending to every chunk. */
  lemma {:induction false} OverrunFeedsPending(s: ParserState, ttl: nat, chunks: seq<seq<byte>>, times: seq<int>)
    requires s.Valid() && !s.Idle() && TotalLength(s.chunks) > s.expectedLength
    requires |times| == |chunks| && Timely(ttl, s.lastBuffered, times)
    ensures Feed(s, ttl, chunks, times).1 == Pendings(|chunks|)
    ensures !Feed(s, ttl, chunks, times).0.Idle()
    decreases |chunks|
  {
    if chunks != [] {
      OverrunSticks(s, ttl, chunks[0], times[0]);
      FeedFirst(s, ttl, chunks, times);
      TimelyTail(ttl, s.lastBuffered, times);
      var t := Step(s, ttl, chunks[0], times[0]);
      OverrunFeedsPending(t.state, ttl, chunks[1..], times[1..]);
      assert [Success(Pending)] + Pendings(|chunks| - 1) == Pendings(|chunks|);
    }
  }

  /** One more pending answer in front. */
  lemma PendingsCons(n: nat, last: Result<Output, ParseError>)
    ensures [Success(Pending)] + (Pendings(n) + [last]) == Pendings(n + 1) + [last]
  {
    assert [Success(Pending)] + Pendings(n) == Pendings(n + 1);
  }

  /** Every chunk of the list holds at least one byte. */
  ghost predicate NonEmptyChunks(chunks: seq<seq<byte>>)
  {
    forall i :: 0 <= i < |chunks| ==> chunks[i] != []
  }

  /** The chunks after the first, laid end to end. */
  lemma ConcatFirst(chunks: seq<seq<byte>>)
    requires chunks != []
    ensures Concat(chunks) == chunks[0] + Concat(chunks[1..])
    ensures TotalLength(chunks) == |chunks[0]| + TotalLength(chunks[1..])
  {
    ConcatAppend([chunks[0]], chunks[1..]);
    TotalLengthSingle(chunks[0]);
    assert [chunks[0]] + chunks[1..] == chunks;
  }

  /** The calls after the first are in time too. */
  lemma TimelyTail(ttl: nat, last: int, times: seq<int>)
    requires times != [] && Timely(ttl, last, times)
    ensures Timely(ttl, times[0], times[1..])
  {
    if ttl != 0 {
      forall i | 0 < i < |times[1..]|
        ensures times[1..][i] - times[1..][i - 1] < ttl
      {
        assert times[1..][i] == times[i + 1] && times[1..][i - 1] == times[i];
      }
    }
  }

  /** The chunk that brings a buffering parser to the expected length ends the frame. */
  lemma LastChunk(s: ParserState, msg: seq<byte>, ttl: nat, chunk: seq<byte>, now: int)
    requires s.Valid() && !s.Idle() && s.expectedLength == |msg| && !Stale(s, ttl, now)
    requires Concat(s.chunks) + chunk == msg
    ensures Step(s, ttl, chunk, now) == Transition(Initial, CheckedMessage(msg))
  {
    TotalLengthAppend(s.chunks, chunk);
  }

  /** The tail of a list of nonempty chunks is one too. */
  lemma NonEmptyTail(chunks: seq<seq<byte>>)
    requires chunks != [] && NonEmptyChunks(chunks)
    ensures NonEmptyChunks(chunks[1..])
  {
    forall i | 0 <= i < |chunks[1..]|
      ensures chunks[1..][i] != []
    {
      assert chunks[1..][i] == chunks[i + 1];
    }
  }

  /** One call, as a run. */
  lemma FeedSingle(s: ParserState, ttl: nat, chunk: seq<byte>, now: int)
    requires s.Valid()
    ensures var t := Step(s, ttl, chunk, now);
      Feed(s, ttl, [chunk], [now]) == (t.state, [t.result])
  {
    FeedFirst(s, ttl, [chunk], [now]);
    assert [chunk][1..] == [] && [now][1..] == [];
    var t := Step(s, ttl, chunk, now);
    assert Feed(t.state, ttl, [], []) == (t.state, []);
    assert [t.result] + [] == [t.result];
  }

  /** A run is its first call followed by the run of the rest. */
  lemma FeedFirst(s: ParserState, ttl: nat, chunks: seq<seq<byte>>, times: seq<int>)
    requires s.Valid() && |times| == |chunks| && chunks != []
    ensures var t := Step(s, ttl, chunks[0], times[0]);
      t.state.Valid()
      && Feed(s, ttl, chunks, times) == (Feed(t.state, ttl, chunks[1..], times[1..]).0,
                                         [t.result] + Feed(t.state, ttl, chunks[1..], times[1..]).1)
  {
  }

  /** The one remaining chunk of a message ends it. */
  lemma FeedLast(s: ParserState, msg: seq<byte>, ttl: nat, rest: seq<seq<byte>>, times: seq<int>)
    requires s.Valid() && !s.Idle() && s.expectedLength == |msg|
    requires |rest| == 1 && Concat(s.chunks) + Concat(rest) == msg
    requires |times| == 1 && Timely(ttl, s.lastBuffered, times)
    ensures Feed(s, ttl, rest, times) == (Initial, [CheckedMessage(msg)])
  {
    var chunk, now := rest[0], times[0];
    assert rest == [chunk] && times == [now];
    TotalLengthSingle(chunk);
    LastChunk(s, msg, ttl, chunk, now);
    FeedSingle(s, ttl, chunk, now);
  }

  /** A chunk that is not the last of a message is buffered, and the rest is still to come. */
  lemma FeedMore(s: ParserState, msg: seq<byte>, ttl: nat, rest: seq<seq<byte>>, times: seq<int>)
    returns (s2: ParserState)
    requires s.Valid() && !s.Idle() && s.expectedLength == |msg|
    requires |rest| >= 2 && NonEmptyChunks(rest) && Concat(s.chunks) + Concat(rest) == msg
    requires |times| == |rest| && Timely(ttl, s.lastBuffered, times)
    ensures s2.Valid() && !s2.Idle() && s2.expectedLength == |msg|
    ensures Concat(s2.chunks) + Concat(rest[1..]) == msg
    ensures NonEmptyChunks(rest[1..]) && Timely(ttl, s2.lastBuffered, times[1..])
    ensures Step(s, ttl, rest[0], times[0]) == Transition(s2, Success(Pending))
  {
    ConcatFirst(rest);
    ConcatFirst(rest[1..]);
    assert rest[1..][0] == rest[1];
    NonEmptyTail(rest);
    TotalLengthAppend(s.chunks, rest[0]);
    ShortOfExpected(s, ttl, rest[0], times[0]);
    s2 := ParserState(s.chunks + [rest[0]], s.expectedLength, times[0]);
    TimelyTail(ttl, s.lastBuffered, times);
  }

  /**
   * The rest of a message arrives in nonempty chunks on a buffering parser:
   * every chunk but the last answers pending, and the last one answers
   * with the checked message.
   */
  lemma {:induction false} FeedRest(s: ParserState, msg: seq<byte>, ttl: nat, rest: seq<seq<byte>>,
                                    times: seq<int>)
    requires s.Valid() && !s.Idle() && s.expectedLength == |msg|
    requires Concat(s.chunks) + Concat(rest) == msg
    requires rest != [] && NonEmptyChunks(rest)
    requires |times| == |rest| && Timely(ttl, s.lastBuffered, times)
    ensures Feed(s, ttl, rest, times) == (Initial, Pendings(|rest| - 1) + [CheckedMessage(msg)])
    decreases |rest|
  {
    if |rest| == 1 {
      FeedLast(s, msg, ttl, rest, times);
      assert Pendings(0) + [CheckedMessage(msg)] == [CheckedMessage(msg)];
    } else {
      var s2 := FeedMore(s, msg, ttl, rest, times);
      FeedFirst(s, ttl, rest, times);
      FeedRest(s2, msg, ttl, rest[1..], times[1..]);
      PendingsCons(|rest| - 2, CheckedMessage(msg));
    }
  }

  /** A message that carries the header and, in its length field, its own length less four. */
  ghost predicate WellFramed(msg: seq<byte>)
  {
    |msg| >= 4 && ReadUInt16LE(msg, 0) == Header && ReadUInt16LE(msg, 2) + 4 == |msg|
  }

  /**
   * The first of several chunks of a message, when it holds the header and
   * the length field, starts buffering the message.
   */
  lemma FirstChunk(msg: seq<byte>, ttl: nat, chunks: seq<seq<byte>>, times: seq<int>)
    returns (s: ParserState)
    requires WellFramed(msg) && Concat(chunks) == msg
    requires |chunks| >= 2 && |chunks[0]| >= 4 && NonEmptyChunks(chunks) && |times| == |chunks|
    ensures s.Valid() && !s.Idle() && s.expectedLength == |msg| && s.lastBuffered == times[0]
    ensures Step(Initial, ttl, chunks[0], times[0]) == Transition(s, Success(Pending))
    ensures Concat(s.chunks) + Concat(chunks[1..]) == msg && NonEmptyChunks(chunks[1..])
  {
    var first := chunks[0];
    ConcatFirst(chunks);
    ConcatFirst(chunks[1..]);
    assert chunks[1..][0] == chunks[1];
    NonEmptyTail(chunks);
    assert first == msg[..|first|];
    assert first[0] == msg[0] && first[1] == msg[1] && first[2] == msg[2] && first[3] == msg[3];
    TotalLengthSingle(first);
    s := ParserState([first], |msg|, times[0]);
  }

  /** A well-framed message in a single chunk is checked at once. */
  lemma WholeMessage(msg: seq<byte>, ttl: nat, chunks: seq<seq<byte>>, times: seq<int>)
    requires WellFramed(msg) && Concat(chunks) == msg
    requires |chunks| == 1 && |times| == 1
    ensures Feed(Initial, ttl, chunks, times) == (Initial, [CheckedMessage(msg)])
  {
    var now := times[0];
    TotalLengthSingle(chunks[0]);
    assert chunks == [msg] && times == [now];
    TotalLengthSingle(msg);
    FeedSingle(Initial, ttl, msg, now);
  }

  /**
   * A well-framed message split into nonempty chunks, the first of which
   * holds at least the header and the length field, and fed to an idle
   * parser with no two calls a ttl apart: every chunk but the last answers
   * pending, and the last answers what the whole message in one chunk would.
   */
  lemma FeedMessage(msg: seq<byte>, ttl: nat, chunks: seq<seq<byte>>, times: seq<int>)
    requires WellFramed(msg) && Concat(chunks) == msg
    requires chunks != [] && |chunks[0]| >= 4 && NonEmptyChunks(chunks)
    requires |times| == |chunks| && Timely(ttl, times[0], times[1..])
    ensures Feed(Initial, ttl, chunks, times) == (Initial, Pendings(|chunks| - 1) + [CheckedMessage(msg)])
    ensures Step(Initial, ttl, msg, times[0]) == Transition(Initial, CheckedMessage(msg))
  {
    TotalLengthSingle(msg);
    if |chunks| == 1 {
      WholeMessage(msg, ttl, chunks, times);
      assert Pendings(0) + [CheckedMessage(msg)] == [CheckedMessage(msg)];
    } else {
      var s := FirstChunk(msg, ttl, chunks, times);
      FeedFirst(Initial, ttl, chunks, times);
      FeedRest(s, msg, ttl, chunks[1..], times[1..]);
      PendingsCons(|chunks| - 2, CheckedMessage(msg));
    }
  }

  /**
   * Fragmentation: a frame from the builder split into nonempty chunks, the
   * first of which holds at least the header and the length field, and fed
   * to an idle parser with no two calls a ttl apart, answers pending to
   * every chunk but the last and the decoded payload to the last, just as
   * the whole frame in one chunk does.
   */
  lemma FragmentedFrame(payload: seq<byte>, ttl: nat, chunks: seq<seq<byte>>, times: seq<int>)
    requires |payload| + 2 < 0x10000
    requires Concat(chunks) == Frame(payload)
    requires chunks != [] && |chunks[0]| >= 4 && NonEmptyChunks(chunks)
    requires |times| == |chunks| && Timely(ttl, times[0], times[1..])
    ensures Feed(Initial, ttl, chunks, times) == (Initial, Pendings(|chunks| - 1) + [Decoded(payload)])
  {
    FeedMessage(Frame(payload), ttl, chunks, times);
    FrameChecks(payload);
  }

  /** Two calls, as a run. */
  lemma FeedTwo(s: ParserState, ttl: nat, a: seq<byte>, b: seq<byte>, now1: int, now2: int)
    requires s.Valid()
    ensures var t1 := Step(s, ttl, a, now1);
      t1.state.Valid()
      && var t2 := Step(t1.state, ttl, b, now2);
      Feed(s, ttl, [a, b], [now1, now2]) == (t2.state, [t1.result, t2.result])
  {
    FeedFirst(s, ttl, [a, b], [now1, now2]);
    var t1 := Step(s, ttl, a, now1);
    assert [a, b][1..] == [b] && [now1, now2][1..] == [now2];
    FeedSingle(t1.state, ttl, b, now2);
    var t2 := Step(t1.state, ttl, b, now2);
    assert [t1.result] + [t2.result] == [t1.result, t2.result];
  }

  /**
   * A first chunk shorter than the header and the length field loses the
   * frame: reading the length field throws a RangeError and nothing is
   * buffered, so the next chunk is taken as the start of a new frame and
   * refused for its header.
   */
  lemma ShortFirstChunkLost(first: seq<byte>, rest: seq<byte>, ttl: nat, now1: int, now2: int)
    requires |first| < 4 && (|first| >= 2 ==> ReadUInt16LE(first, 0) == Header)
    requires |rest| >= 2 && ReadUInt16LE(rest, 0) != Header
    ensures Feed(Initial, ttl, [first, rest], [now1, now2])
            == (Initial, [Failure(RangeError), Failure(FormatError(UnsupportedFormat))])
  {
    FeedTwo(Initial, ttl, first, rest, now1, now2);
  }
}
