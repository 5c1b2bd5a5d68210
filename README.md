# OMRON 2JCIE-BU frame codec, in Dafny

This project models the frame codec that the Node-RED nodes for the OMRON
2JCIE-BU USB environment sensor use (`src/2jcie-bu-common.js`), and proves
properties of it. The codec has three parts:

- `crc16`, the frame checksum. It is CRC-16/MODBUS (section 6.2.2 of the
  Modbus over Serial Line Specification and Implementation Guide V1.02).
- `Omron2jcieBuPacketBuilder` builds request frames. A frame is the header
  `52 42`, the little-endian length of the payload plus 2, the payload, and
  the little-endian crc16 of everything before it. There are three read
  requests and one LED write request.
- `Omron2jcieBuPacketParser` is a small state machine. It reassembles a
  response frame from the chunks the serial port delivers and drops a stale
  partial frame. It checks the header and the CRC, then decodes the payload
  according to the status byte and the register address.

Modules, one per file:

| file | module | contents |
|---|---|---|
| `wrappers.dfy` | `Wrappers` | `Option` and `Result` |
| `wire.dfy` | `Wire` | bytes; Node's little-endian buffer reads and writes, `slice`, `concat`; the frame constants |
| `checksum.dfy` | `Checksum` | crc16, as a loop (`ComputeCrc16`) and as functions; its equality with CRC-16/MODBUS |
| `builder.dfy` | `PacketBuilder` | the builder; the request frames of the unit tests, byte for byte |
| `payload.dfy` | `PayloadFrame` | the lookup tables, `parsePayloadFrame` and its readers; payload encoders used as their partners |
| `parser.dfy` | `PacketParser` | the parser class; `Step`, a function of the state that specifies one `parseResponse` call |
| `reassembly.dfy` | `Reassembly` | properties of one call and of runs of calls: round trip, fragmentation, staleness, errors, overrun |
| `parser_vectors.dfy` | `ParserVectors` | the response frames of the unit tests, byte for byte |

The builder methods fill a buffer in place, as the source does. Their
contracts tie the result to the function `Frame` and to the payload
functions. The properties are then proved about those functions.

The parser is a class with the source's mutable fields. `ParseResponse` is
proved to do exactly what `Step` says on the value of those fields. The
reassembly properties are lemmas about `Step`, and about `Feed`, which runs
`Step` over a list of chunks.

Decoding is a family of functions that build a `Record` value, which stands
for the `output` object. Each decoder has an encoder as its partner: a
lemma shows that decoding what the encoder laid out gives back what it was
given.

## Model

| member | source | states |
|---|---|---|
| Wire.ReadUInt16LE | src/2jcie-bu-common.js:216 | `readUInt16LE` is below 0x10000 |
| Wire.UInt16LE | src/2jcie-bu-common.js:72-74 | the two bytes `writeUInt16LE` stores read back as the value written |
| Wire.ReadInt16LE | src/2jcie-bu-common.js:262-264 | `readInt16LE` is a signed 16-bit value, negative exactly when the high byte has its top bit set |
| Wire.Int16LE | src/2jcie-bu-common.js:262-264 | a signed 16-bit value, stored as the device stores it, reads back as itself |
| Wire.ReadInt32LE | src/2jcie-bu-common.js:268 | `readInt32LE` is a signed 32-bit value, negative exactly when the top byte has its top bit set |
| Wire.Int32LE | src/2jcie-bu-common.js:268 | a signed 32-bit value, stored little-endian, reads back as itself |
| Wire.Slice | src/2jcie-bu-common.js:198-200 | `slice(start, end)` has the clamped length `SliceLength` and holds the bytes from `start` on; within bounds it is the subsequence |
| Wire.Concat | src/2jcie-bu-common.js:195 | `Buffer.concat` is as long as the summed chunk lengths |
| Wire.TotalLength | src/2jcie-bu-common.js:193 | the summed chunk lengths that the `reduce` computes; `SumLengths` is proved to return it and `Concat` to be that long |
| Wire.ConcatAppend | src/2jcie-bu-common.js:193-195 | concatenating and summing lengths distribute over splitting the chunk list |
| Wire.SumLengths | src/2jcie-bu-common.js:193 | the `reduce` loop returns the summed length of the buffered chunks |
| Wire.ConcatChunks | src/2jcie-bu-common.js:195 | the copying loop returns the chunks laid end to end |
| Checksum.ShiftByte | src/2jcie-bu-common.js:54-60 | the inner loop performs eight shift-and-XOR passes and keeps a 16-bit register within 16 bits |
| Checksum.RegisterFrom | src/2jcie-bu-common.js:52-61 | the outer loop from a given register: a register within 16 bits stays within 16 bits after any bytes |
| Checksum.Register | src/2jcie-bu-common.js:51-61 | the register after crc16 has consumed the buffer, starting from 0xFFFF, is below 0x10000 |
| Checksum.Crc16 | src/2jcie-bu-common.js:50-63 | crc16 of any buffer, the low 16 bits of the register `Register(buf)`, is a 16-bit value; `Crc16IsModbus` proves it equals `Low16(ModbusCrc(buf))`, the CRC-16/MODBUS value |
| Checksum.ComputeCrc16 | src/2jcie-bu-common.js:50-63 | the nested loops return crc16 of the buffer; this equals CRC-16/MODBUS and is below 0x10000 for every input |
| Checksum.RegisterFromAppend | src/2jcie-bu-common.js:52-61 | consuming `a + b` is consuming `a`, then `b` from the register `a` left |
| Checksum.CrcSegments | src/2jcie-bu-common.js:52-61 | registers known for two pieces give the register of the whole |
| Checksum.ShiftIsModbusShift | src/2jcie-bu-common.js:55-59 | on a 16-bit register the `0x7ffff` mask removes nothing: one pass is the Modbus shift |
| Checksum.ShiftsAreModbusShifts | src/2jcie-bu-common.js:54-60 | any number of passes agree with the Modbus shifts |
| Checksum.Crc16IsModbus | src/2jcie-bu-common.js:50-63 | for every buffer, the crc16 register is the CRC-16/MODBUS register |
| PacketBuilder.Frame | src/2jcie-bu-common.js:70-83 | a frame is `|p| + 6` bytes: `52 42`, then `|p| + 2` little-endian, then the payload `p` at bytes 4.. |
| PacketBuilder.FrameCrc | src/2jcie-bu-common.js:78-81 | the last two bytes of a frame are crc16 of all bytes before them, little-endian |
| PacketBuilder.FrameLayoutDetermines | src/2jcie-bu-common.js:70-83 | conversely, any buffer with header, length, payload and CRC in place is the frame of that payload |
| PacketBuilder.WriteUInt16LE | src/2jcie-bu-common.js:72 | `writeUInt16LE` changes exactly the two bytes at the offset |
| PacketBuilder.BuildRequest | src/2jcie-bu-common.js:70-83 | `buildRequest` fills header and length in place, appends payload and CRC, and returns `Frame(payload)` |
| PacketBuilder.ReadPayload | src/2jcie-bu-common.js:85-104 | a read payload is three bytes: the read opcode 0x01, then the register address little-endian |
| PacketBuilder.FillReadPayload | src/2jcie-bu-common.js:86-88 | the buffer filled in place is the read payload |
| PacketBuilder.BuildReadLatestDataLongRequest | src/2jcie-bu-common.js:85-90 | the frame for register 0x5021 is `52 42 05 00 01 21 50 e2 4b` |
| PacketBuilder.BuildReadMountingOrientationRequest | src/2jcie-bu-common.js:92-97 | the frame for register 0x5402 is `52 42 05 00 01 02 54 fa b8` |
| PacketBuilder.BuildReadDeviceInformationRequest | src/2jcie-bu-common.js:99-104 | the frame for register 0x180A is `52 42 05 00 01 0a 18 fc 8d` |
| PacketBuilder.ResolveDisplayRule | src/2jcie-bu-common.js:124-130 | a listed rule name gives its code; any other name gives 0x0000 (OFF) |
| PacketBuilder.DisplayRulesDistinct | src/2jcie-bu-common.js:38-48 | a fact about the constant table: no two listed rule names share a code, so the device can tell every rule apart |
| PacketBuilder.HexValue | src/2jcie-bu-common.js:136-138 | the value of `n` hexadecimal digits is below 16^n |
| PacketBuilder.HexValueAppend | src/2jcie-bu-common.js:136-138 | one more digit multiplies the value by 16 and adds the digit |
| PacketBuilder.TrimStart | src/2jcie-bu-common.js:136-138 | parseInt drops exactly the leading white space |
| PacketBuilder.SkipSign | src/2jcie-bu-common.js:136-138 | parseInt drops at most one character before the digits, and only a `+` or `-` sign |
| PacketBuilder.SkipHexPrefix | src/2jcie-bu-common.js:136-138 | with radix 16, parseInt drops at most a leading `0x` or `0X` |
| PacketBuilder.HexPrefixLength | src/2jcie-bu-common.js:136-138 | parseInt reads the longest run of hexadecimal digits |
| PacketBuilder.ParseIntHex | src/2jcie-bu-common.js:136-138 | `parseInt(s, 16)` is NaN exactly when no hexadecimal digit follows the leading white space, sign and `0x` |
| PacketBuilder.ParseIntHexDigits | src/2jcie-bu-common.js:136-138 | a string of hexadecimal digits parses to the number it denotes |
| PacketBuilder.ResolveColor | src/2jcie-bu-common.js:132-147 | a `#` string is parsed after the `#`, another string as a whole, a number is kept, anything else is 0 |
| PacketBuilder.ToInt32 | src/2jcie-bu-common.js:115-119 | ToInt32 gives a signed 32-bit value congruent to its input modulo 2^32 |
| PacketBuilder.ColorChannel | src/2jcie-bu-common.js:115-119 | `(value >> shift) & 0xff` is byte `shift / 8` of the color number modulo 2^24, and 0 for NaN |
| PacketBuilder.ColorBytes | src/2jcie-bu-common.js:115-119 | three color bytes; NaN gives `00 00 00` |
| PacketBuilder.ColorBytesRoundTrip | src/2jcie-bu-common.js:115-119 | a 24-bit color comes back from its red, green and blue bytes |
| PacketBuilder.ColorBytesLow24 | src/2jcie-bu-common.js:115-119 | the bytes written depend only on the low 24 bits of the color number |
| PacketBuilder.ToInt32Low24 | src/2jcie-bu-common.js:115-119 | ToInt32 keeps the low 24 bits |
| PacketBuilder.ChannelOfLow24 | src/2jcie-bu-common.js:115-119 | each shifted-and-masked channel sees only the low 24 bits |
| PacketBuilder.LedPayload | src/2jcie-bu-common.js:106-120 | the LED payload is `02 11 51`, the rule code little-endian, then the color bytes under "ON" and `00 00 00` otherwise |
| PacketBuilder.FillLedPayload | src/2jcie-bu-common.js:107-120 | the buffer filled in place is the LED payload |
| PacketBuilder.WriteColor | src/2jcie-bu-common.js:115-119 | the three `writeUInt8` calls put the color bytes at offsets 5..7 and leave the rest alone |
| PacketBuilder.BuildWriteLedSettingsRequest | src/2jcie-bu-common.js:106-122 | `buildWriteLEDSettingsRequest` returns the 14-byte frame of the LED payload |
| PacketBuilder.LatestDataLongRequestBytes | tests/2jcie-bu-common.test.js:102-107 | the frame of the 0x5021 read payload is `52420500012150e24b` |
| PacketBuilder.MountingOrientationRequestBytes | tests/2jcie-bu-common.test.js:108-113 | the frame of the 0x5402 read payload is `52420500010254fab8` |
| PacketBuilder.DeviceInformationRequestBytes | tests/2jcie-bu-common.test.js:114-119 | the frame of the 0x180A read payload is `52420500010a18fc8d` |
| PacketBuilder.LedTemperatureRequestBytes | tests/2jcie-bu-common.test.js:121-126 | the frame for the rule "Temperature" is `52420a000211510200000000d7c5` |
| PacketBuilder.LedOnRequestBytes | tests/2jcie-bu-common.test.js:128-134 | the frame for the rule "ON" with color `#0D58C1` is `52420a0002115101000d58c1f856` |
| PayloadFrame.StatusText | src/2jcie-bu-common.js:23-29 | `RESPONSE_STATUS[status]` is defined exactly for 0x01, 0x02, 0x81, 0x82 and 0xFF; 0xFF reads "Unkown" |
| PayloadFrame.ErrorText | src/2jcie-bu-common.js:30-37 | `ERROR_STATUS[code]` is defined exactly for the codes 1..6 |
| PayloadFrame.VibrationStatus | src/2jcie-bu-common.js:287-302 | 0 is "None", 1 "Vibration Detected", 2 "Earthquake Detected", anything above "Unknown", each in both directions |
| PayloadFrame.IsErrorStatusRange | src/2jcie-bu-common.js:224 | `status & 0x80` is set exactly for the status bytes 0x80..0xFF |
| PayloadFrame.ReadLatestDataLongFrame | src/2jcie-bu-common.js:258-285 | reading succeeds exactly when the payload has at least 31 bytes (a shorter one is a RangeError); id is byte 3 and the vibration text comes from byte 24 |
| PayloadFrame.ReadMountingOrientationFrame | src/2jcie-bu-common.js:304-306 | the position is byte 3; a payload shorter than 4 bytes is a RangeError |
| PayloadFrame.ReadDeviceInformationFrame | src/2jcie-bu-common.js:308-314 | the five fields are the clamped slices 3..13, 13..23, 23..28, 28..33 and 33..38 |
| PayloadFrame.ParsePayloadFrame | src/2jcie-bu-common.js:214-256 | fewer than 3 bytes is a RangeError; an error status gives no data and the error detail of byte 3 (undefined when absent); for a normal status, 0x5021 succeeds exactly from 31 bytes on and 0x5402 from 4 bytes on, each with its reader's data and a RangeError otherwise, and 0x180A always succeeds with its (possibly truncated) fields; an unknown address fails under status 0x01 and gives empty data otherwise; failures are only RangeError or IllegalDataError |
| PayloadFrame.LatestDataLongFields | src/2jcie-bu-common.js:258-285 | the device's layout of the readings at offsets 3..30 is 28 bytes |
| PayloadFrame.LatestDataLongRoundTrip | src/2jcie-bu-common.js:258-285 | `readLatestDataLongFrame` reads back every reading the device laid out, whatever follows |
| PayloadFrame.ResponseHead | src/2jcie-bu-common.js:215-216 | a response payload starts with the status byte and the register address |
| PayloadFrame.LatestDataResponseRoundTrip | src/2jcie-bu-common.js:214-285 | a non-error response for 0x5021 decodes to the readings sent |
| PayloadFrame.MountingOrientationRoundTrip | src/2jcie-bu-common.js:238-241 | a non-error response for 0x5402 decodes to the position sent |
| PayloadFrame.DeviceInformationRoundTrip | src/2jcie-bu-common.js:243-246 | a non-error response for 0x180A decodes to the five fields sent |
| PayloadFrame.ErrorResponseRoundTrip | src/2jcie-bu-common.js:224-230 | an error response decodes to its status, address and error code, with no data |
| PacketParser.Decoded | src/2jcie-bu-common.js:204-206 | the answer for a complete payload is never pending: a finished record exactly when `parsePayloadFrame` succeeds, and its error otherwise |
| PacketParser.CheckedMessage | src/2jcie-bu-common.js:194-206 | a complete message is never answered pending; a record comes back only when the CRC word equals crc16 of the bytes before it, and is the decoding of bytes 4..n-2; an error is either the CRC mismatch naming both values, or the payload's decoding error |
| PacketParser.Accumulate | src/2jcie-bu-common.js:193-211 | a pending answer keeps the state; any other answer leaves the parser idle |
| PacketParser.ParserState.Valid | src/2jcie-bu-common.js:153-212 | the invariant of the fields: idle holds no chunks; buffering holds a first chunk with header and length field, expects that length plus 4, and has not reached it; `Step` keeps it |
| PacketParser.Stale | src/2jcie-bu-common.js:167-169 | the partial frame is dropped when one is buffered, a ttl is set and `now - lastBuffered >= ttl`; `StaleFrameDropped` and `NoTtlNeverDrops` state what that does to a call |
| PacketParser.Step | src/2jcie-bu-common.js:166-212 | one call from any valid state keeps the invariant; the parser is left buffering, last buffered at `now`, exactly when the answer is pending, and any other answer (a record, or any error including a CRC or decoding error) leaves it idle |
| PacketParser.CheckMessage | src/2jcie-bu-common.js:197-206 | the CRC check and decoding, computed with the crc16 loop, give `CheckedMessage` |
| PacketParser.Parser.constructor | src/2jcie-bu-common.js:153-158 | a new parser is idle and keeps its ttl |
| PacketParser.Parser.Reset | src/2jcie-bu-common.js:160-164 | `reset()` makes the parser idle |
| PacketParser.Parser.ParseResponse | src/2jcie-bu-common.js:166-212 | one call changes the fields and answers exactly as `Step` says, and keeps the invariant |
| Reassembly.Feed | src/2jcie-bu-common.js:166-212 | a run of calls keeps the invariant and answers once per chunk |
| Reassembly.Pendings | src/2jcie-bu-common.js:208-210 | `n` answers `{finished: false}` |
| Reassembly.FrameChecks | src/2jcie-bu-common.js:78-81 | a frame from the builder passes the CRC check and hands on exactly its payload |
| Reassembly.FrameRoundTrip | src/2jcie-bu-common.js:186-206 | a frame from the builder, given whole to an idle parser, decodes its payload and leaves the parser idle |
| Reassembly.StaleFrameDropped | src/2jcie-bu-common.js:167-169 | a stale partial frame is dropped and the chunk is read as a new frame start |
| Reassembly.NoTtlNeverDrops | src/2jcie-bu-common.js:167-172 | with no ttl a partial frame is never dropped: the chunk is always added to it |
| Reassembly.HeaderMismatch | src/2jcie-bu-common.js:186-188 | a frame start without `52 42` fails with UnsupportedFormat, and the parser stays idle |
| Reassembly.CrcMismatch | src/2jcie-bu-common.js:197-203 | a whole message with a wrong CRC fails with both values, and the parser is idle |
| Reassembly.ShortFirstChunkLost | src/2jcie-bu-common.js:186-189 | a first chunk of fewer than 4 bytes that is a prefix of a frame start (under 2 bytes, or starting with `52 42`) throws a RangeError and buffers nothing, so a next chunk that does not start with `52 42` is refused for its header: the frame is lost |
| Reassembly.ShortOfExpected | src/2jcie-bu-common.js:193-210 | below the expected length the chunk is kept and the answer is pending |
| Reassembly.OverlongStart | src/2jcie-bu-common.js:189-194 | a first chunk longer than its length field announces leaves the parser past the expected length |
| Reassembly.OverrunSticks | src/2jcie-bu-common.js:193-210 | once past the expected length, every call answers pending and the total only grows |
| Reassembly.OverrunFeedsPending | src/2jcie-bu-common.js:166-212 | an overrun parser fed in time answers pending to every chunk of any run |
| Reassembly.LastChunk | src/2jcie-bu-common.js:193-206 | the chunk that reaches the expected length ends the message |
| Reassembly.FeedRest | src/2jcie-bu-common.js:170-206 | the rest of a message in nonempty chunks: pending for all but the last, which answers the checked message |
| Reassembly.FirstChunk | src/2jcie-bu-common.js:186-191 | a first chunk with header and length field starts buffering the message |
| Reassembly.WholeMessage | src/2jcie-bu-common.js:186-206 | a well-framed message in one chunk is checked at once |
| Reassembly.FeedMessage | src/2jcie-bu-common.js:166-212 | a well-framed message split into nonempty chunks whose first holds the header and the length field, fed to an idle parser with no two calls a ttl apart: every chunk but the last answers pending, and the last answers what the whole message in one chunk would |
| Reassembly.FragmentedFrame | src/2jcie-bu-common.js:166-212 | a frame from the builder, split into nonempty chunks whose first holds the header and the length field, with no two calls a ttl apart: pending for all but the last, then its payload decoded |
| ParserVectors.TwoChunkResponse | tests/2jcie-bu-common.test.js:70-88 | a frame split in two answers pending, then the decoded record |
| ParserVectors.ReadErrorFrame | tests/2jcie-bu-common.test.js:34-38 | `5242060081215001237A` is the frame of the payload `81 21 50 01` |
| ParserVectors.WriteErrorFrame | tests/2jcie-bu-common.test.js:45-49 | `5242060082215001233E` is the frame of the payload `82 21 50 01` |
| ParserVectors.CrcErrorPayloadDecodes | src/2jcie-bu-common.js:224-230 | an error payload for register 0x5021 with code 0x01 decodes to "CRC Error" |
| ParserVectors.ErrorStatusTexts | src/2jcie-bu-common.js:26-27 | a fact about the constant table, used by the error vectors: the records for 0x81 and 0x82 carry "Read Error" and "Write Error" |
| ParserVectors.ReadErrorResponseDecodes | tests/2jcie-bu-common.test.js:34-44 | the "Read" error response decodes to status 0x81, address 0x5021, "CRC Error", code 0x01 |
| ParserVectors.WriteErrorResponseDecodes | tests/2jcie-bu-common.test.js:45-55 | the "Write" error response decodes to status 0x82, address 0x5021, "CRC Error", code 0x01 |
| ParserVectors.ReadErrorResponseCutShort | tests/2jcie-bu-common.test.js:34-38 | the "Read" error response, with its first chunk cut after `52 42 06`, answers a RangeError and then UnsupportedFormat, and the parser stays idle |
| ParserVectors.LongResponseFrame | tests/2jcie-bu-common.test.js:57-61 | the long response is the frame of its 52-byte payload, with CRC `d6 32` |
| ParserVectors.LongPayloadDecodes | tests/2jcie-bu-common.test.js:57-68 | the long payload decodes to "Read OK" from 0x5021 with temperature 1833 (18.33 degrees) and eCO2 400 |
| ParserVectors.LongResponseDecodes | tests/2jcie-bu-common.test.js:57-68 | the long response, given whole, decodes to those readings |
| ParserVectors.LongResponseSplit | tests/2jcie-bu-common.test.js:71-78 | the two chunks of the test, laid end to end, are the long response |
| ParserVectors.SplitLongResponseDecodes | tests/2jcie-bu-common.test.js:70-88 | the two chunks answer pending, then the readings |
| ParserVectors.ParseSplitLongResponse | tests/2jcie-bu-common.test.js:70-88 | on a parser object made without a ttl, the first chunk answers pending and the second the readings |

## Left out

- Floating point: the readings are kept as the raw integers the device
  sends. The divisions by 10, 100 and 1000 are named by the `*Divisor`
  constants and not carried out.
- Date.now(): it is the parameter `now`. The source reads the clock twice
  in a buffering call (the staleness test and the new `lastBuffered`). The
  model uses one value for both.
- ttl: an absent, zero or otherwise falsy ttl is `ttl == 0`, which turns
  the staleness test off. A ttl that is not a whole number is not modelled.
- Input normalisation of `parseResponse` (array or `{type: 'Buffer'}`
  input, the error for other types): every chunk is already a byte
  sequence.
- `Buffer.toString()` of the device-information fields: the fields are kept
  as the bytes they would decode from. UTF-8 decoding is not modelled.
- Numbers in `resolveColor` and the color shifts are unbounded integers.
  `parseInt` results that JavaScript would round to a double, and color
  numbers that are not whole, are not modelled. NaN is `None`, and
  ToInt32 makes it 0.
- `resolveDisplayRule` is modelled for string rule names. Keys that every
  JavaScript object inherits (such as "constructor") are not modelled, and
  neither are rule arguments that are not strings.
- PacketBuilder.BuildRequest: `requires |payload| + 2 < 0x10000`. Node's
  `writeUInt16LE` throws a RangeError past that, and no builder of the
  codec comes near it.
- Node's RangeError for a short buffer is the error `RangeError`. The
  model returns it for a first chunk of fewer than 2 bytes, for a first
  chunk with the header but fewer than 4 bytes, and for short payloads in
  the decoders.
- `src/2jcie-bu.js` (Node-RED node registration, message routing and
  formatting) is not part of this model. Neither is `gulpfile.js`, the
  build tooling.
- Reassembly.FeedMessage and Reassembly.FragmentedFrame hold for splits
  into nonempty chunks, whose first chunk holds the 4 header and length
  bytes, with no two calls a ttl apart. Outside the last two conditions the
  source does lose the frame: a shorter first chunk fails and is not
  buffered (`ShortFirstChunkLost`), and a late chunk finds the partial frame
  dropped (`StaleFrameDropped`). Splits with empty chunks are not covered by
  these two lemmas; an empty chunk while buffering leaves the total, which
  is never the expected length then, unchanged, so it is answered pending
  (`ShortOfExpected`, `OverrunSticks`).

## Source behaviour worth knowing

- `RESPONSE_STATUS` (src/2jcie-bu-common.js:23-29) has no default entry,
  and the lookup at line 218 gives undefined for a status outside it. The
  entry for 0xFF reads "Unkown" (`StatusText`).
- An error response still carries `data: {}` (line 221, `NoData`), besides
  the error text and code.
- The parser does not keep the buffered total at or below the expected
  length (lines 189, 193-194). A first chunk longer than its length field,
  or a last chunk that overshoots, leaves it past the expected length.
  Every later call then answers pending, until the ttl drops the frame
  (`OverlongStart`, `OverrunSticks`, `OverrunFeedsPending`). With no ttl
  this lasts for ever. The invariant the code does keep is
  `ParserState.Valid`.
- A first chunk that is a prefix of a frame start but shorter than 4 bytes
  (under 2 bytes, or `52 42` followed by at most one byte) throws a
  RangeError at line 186 or 189 and buffers nothing. The next chunk is then
  read as a frame start and, unless it starts with `52 42`, refused for its
  header, so the frame is lost (`ShortFirstChunkLost`,
  `ReadErrorResponseCutShort`). A 2- or 3-byte chunk that starts with other
  bytes is refused for its header at lines 186-187 (`HeaderMismatch`).
- The crc16 shift at line 56 is masked with `0x7ffff`, one hex digit wider
  than the 15-bit mask its comment spells out. `Crc16IsModbus` shows this
  never changes the result.
