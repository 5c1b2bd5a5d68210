/**
 * Decoding of a response payload (the bytes between the length field and
 * the CRC of a frame): parsePayloadFrame and the readers it dispatches to.
 *
 * The JavaScript fills a fresh `output` object and its `data` object field
 * by field; here that object is the `Record` value the decoder returns.
 * The sensor fields are kept as the raw integers the device sends: the
 * divisions by 10, 100 and 1000 that the source applies to produce
 * floating-point values are named by the `*Divisor` constants and not
 * carried out.
 */
module PayloadFrame {
  import opened Wrappers
  import opened Wire

  /** Why a frame was refused as malformed. */
  datatype FormatReason =
    | UnsupportedFormat
    | CrcCheckFailed(expected: nat, actual: nat)

  /** The exceptions the codec throws. */
  datatype ParseError =
    | FormatError(reason: FormatReason)
    | IllegalDataError
      /** Node's RangeError: a read past the end of a buffer. */
    | RangeError

  // ---------------------------------------------------------------------------
  // Lookup tables

  /** RESPONSE_STATUS: it has no default entry, and 0xFF carries the text "Unkown". */
  const ResponseStatus: map<byte, string> :=
    map[0x01 := "Read OK", 0x02 := "Write OK", 0x81 := "Read Error", 0x82 := "Write Error", 0xFF := "Unkown"]

  /** ERROR_STATUS. */
  const ErrorStatus: map<byte, string> :=
    map[0x01 := "CRC Error", 0x02 := "Command Error", 0x03 := "Address Error",
        0x04 := "Length Error", 0x05 := "Data Error", 0x06 := "Busy"]

  /** `RESPONSE_STATUS[status]`: `None` stands for `undefined`. */
  function StatusText(status: byte): (text: Option<string>)
    ensures text.Some? <==> status in {0x01, 0x02, 0x81, 0x82, 0xFF}
    ensures status == 0xFF ==> text == Some("Unkown")
  {
    if status in ResponseStatus then Some(ResponseStatus[status]) else None
  }

  /** `ERROR_STATUS[code]`, where a missing code byte reads as `undefined`. */
  function ErrorText(code: Option<byte>): (text: Option<string>)
    ensures text.Some? <==> code.Some? && 1 <= code.value <= 6
  {
    if code.Some? && code.value in ErrorStatus then Some(ErrorStatus[code.value]) else None
  }

  /** resolveVibrationStatus. */
  function VibrationStatus(value: byte): (text: string)
    ensures text == "None" <==> value == 0
    ensures text == "Vibration Detected" <==> value == 1
    ensures text == "Earthquake Detected" <==> value == 2
    ensures text == "Unknown" <==> value > 2
  {
    match value
    case 0 => "None"
    case 1 => "Vibration Detected"
    case 2 => "Earthquake Detected"
    case _ => "Unknown"
  }

  /** `status & 0x80`: the error bit of the status byte. */
  predicate IsErrorStatus(status: byte)
  {
    (status as bv8) & 0x80 != 0
  }

  /** The error bit is set exactly for the status bytes 0x80..0xFF. */
  lemma IsErrorStatusRange(status: byte)
    ensures IsErrorStatus(status) <==> status >= 0x80
  {
    var b := status as bv8;
    if status >= 0x80 {
      assert b >= 0x80;
    } else {
      assert b < 0x80;
    }
  }

  // ---------------------------------------------------------------------------
  // Records

  /** The scale the source divides each raw reading by. */
  const TemperatureDivisor := 100
  const HumidityDivisor := 100
  const BarometricPressureDivisor := 1000
  const SoundNoiseDivisor := 100
  const DiscomfortIndexDivisor := 100
  const HeatStrokeDivisor := 100
  const SpectralIntensityDivisor := 10
  const SeismicIntensityDivisor := 1000

  /** The fields of a "latest data long" response, as raw integers. */
  datatype LatestData = LatestData(
    id: byte,
    temperature: int,
    humidity: int,
    illuminance: int,
    barometricPressure: int,
    soundNoise: int,
    etvoc: int,
    eco2: int,
    discomfortIndex: int,
    heatStroke: int,
    vibrationStatus: string,
    spectralIntensity: int,
    seismicIntensity: int)

  /** The `data` object of a decoded response. */
  datatype Data =
    | NoData
    | Latest(latest: LatestData)
    | Orientation(position: byte)
      /** The device-information strings, kept as the bytes they decode from. */
    | DeviceInformation(model: seq<byte>, serialNumber: seq<byte>, firmwareVersion: seq<byte>,
                        hardwareVersion: seq<byte>, manufacturer: seq<byte>)

  /** The `error` text and `errorCode` of an error response (`None` for `undefined`). */
  datatype ErrorDetail = ErrorDetail(error: Option<string>, errorCode: Option<byte>)

  /** The object parsePayloadFrame returns; `errorInfo` is present for error responses only. */
  datatype Record = Record(status: Option<string>, statusCode: byte, address: nat, data: Data,
                           errorInfo: Option<ErrorDetail>)

  // ---------------------------------------------------------------------------
  // Decoders

  /** The payload length readLatestDataLongFrame needs: its last read is the word at offset 29. */
  const LatestDataLongLength := 31

  /** readLatestDataLongFrame: the fields at their fixed offsets. */
  function ReadLatestDataLongFrame(payload: seq<byte>): (r: Result<Data, ParseError>)
    ensures r.Success? <==> |payload| >= LatestDataLongLength
    ensures r.Failure? ==> r.error == RangeError
    ensures r.Success? ==>
              r.value.Latest? && r.value.latest.id == payload[3]
              && r.value.latest.vibrationStatus == VibrationStatus(payload[24])
  {
    if |payload| < LatestDataLongLength then Failure(RangeError)
    else
      Success(Latest(LatestData(
        id := payload[3],
        temperature := ReadInt16LE(payload, 4),
        humidity := ReadInt16LE(payload, 6),
        illuminance := ReadInt16LE(payload, 8),
        barometricPressure := ReadInt32LE(payload, 10),
        soundNoise := ReadInt16LE(payload, 14),
        etvoc := ReadInt16LE(payload, 16),
        eco2 := ReadInt16LE(payload, 18),
        discomfortIndex := ReadInt16LE(payload, 20),
        heatStroke := ReadInt16LE(payload, 22),
        vibrationStatus := VibrationStatus(payload[24]),
        spectralIntensity := ReadInt16LE(payload, 25),
        seismicIntensity := ReadInt16LE(payload, 29))))
  }

  /** readMountingOrientationFrame: the position byte at offset 3. */
  function ReadMountingOrientationFrame(payload: seq<byte>): (r: Result<Data, ParseError>)
    ensures r.Success? <==> |payload| >= 4
    ensures r.Failure? ==> r.error == RangeError
    ensures r.Success? ==> r.value == Orientation(payload[3])
  {
    if |payload| < 4 then Failure(RangeError) else Success(Orientation(payload[3]))
  }

  /**
   * `field` is `payload.slice(start, start + width)`: the bytes from `start`
   * on, cut short where the payload ends.
   */
  ghost predicate FieldAt(field: seq<byte>, payload: seq<byte>, start: nat, width: nat)
  {
    |field| == SliceLength(|payload|, start, start + width)
    && forall i :: 0 <= i < |field| ==> field[i] == payload[start + i]
  }

  /**
   * readDeviceInformationFrame: five fixed-width text fields. Buffer.slice
   * clamps, so a short payload truncates the fields rather than failing.
   */
  function ReadDeviceInformationFrame(payload: seq<byte>): (r: Data)
    ensures r.DeviceInformation?
    ensures FieldAt(r.model, payload, 3, 10) && FieldAt(r.serialNumber, payload, 13, 10)
    ensures FieldAt(r.firmwareVersion, payload, 23, 5) && FieldAt(r.hardwareVersion, payload, 28, 5)
    ensures FieldAt(r.manufacturer, payload, 33, 5)
  {
    DeviceInformation(Slice(payload, 3, 13), Slice(payload, 13, 23), Slice(payload, 23, 28),
                      Slice(payload, 28, 33), Slice(payload, 33, 38))
  }

  /** Whether parsePayloadFrame has a reader for the address. */
  predicate KnownAddress(address: nat)
  {
    address == LatestDataLongAddress || address == MountingOrientationAddress
      || address == DeviceInformationAddress
  }

  /**
   * parsePayloadFrame: status byte, register address, then either the error
   * code (error bit set) or the address-specific fields.
   */
  function ParsePayloadFrame(payload: seq<byte>): (r: Result<Record, ParseError>)
    ensures |payload| < 3 ==> r == Failure(RangeError)
    ensures r.Success? ==>
              |payload| >= 3 && r.value.statusCode == payload[0]
              && r.value.status == StatusText(payload[0]) && r.value.address == ReadUInt16LE(payload, 1)
    // An error response: the code is byte 3, and no address-specific data.
    ensures |payload| >= 3 && payload[0] >= 0x80 ==>
      var code := if |payload| > 3 then Some(payload[3]) else None;
      r.Success? && r.value.data == NoData && r.value.errorInfo == Some(ErrorDetail(ErrorText(code), code))
    // A normal response: an address without a reader is refused under status
    // 0x01 and gives empty data under any other status.
    ensures |payload| >= 3 && payload[0] < 0x80 && !KnownAddress(ReadUInt16LE(payload, 1)) ==>
      r == (if payload[0] == 0x01 then Failure(IllegalDataError)
            else Success(Record(StatusText(payload[0]), payload[0], ReadUInt16LE(payload, 1), NoData, None)))
    // A normal response at an address with a reader: the reader decides.
    // Latest data needs the 31 bytes it reads and fails short of them.
    ensures |payload| >= 3 && payload[0] < 0x80 && ReadUInt16LE(payload, 1) == LatestDataLongAddress ==>
      (r.Success? <==> |payload| >= LatestDataLongLength)
      && (r.Success? ==> r.value.data == ReadLatestDataLongFrame(payload).value)
      && (r.Failure? ==> r.error == RangeError)
    // The mounting orientation needs byte 3.
    ensures |payload| >= 3 && payload[0] < 0x80 && ReadUInt16LE(payload, 1) == MountingOrientationAddress ==>
      (r.Success? <==> |payload| >= 4)
      && (r.Success? ==> r.value.data == Orientation(payload[3]))
      && (r.Failure? ==> r.error == RangeError)
    // The device information never fails: a short payload truncates its fields.
    ensures |payload| >= 3 && payload[0] < 0x80 && ReadUInt16LE(payload, 1) == DeviceInformationAddress ==>
      r.Success? && r.value.data == ReadDeviceInformationFrame(payload)
    ensures |payload| >= 3 && payload[0] < 0x80 && r.Success? ==> r.value.errorInfo.None?
    ensures r.Failure? ==> r.error == RangeError || r.error == IllegalDataError
  {
    if |payload| < 3 then Failure(RangeError)
    else
      var status := payload[0];
      var address := ReadUInt16LE(payload, 1);
      IsErrorStatusRange(status);
      if IsErrorStatus(status) then
        var code := if |payload| > 3 then Some(payload[3]) else None;
        Success(Record(StatusText(status), status, address, NoData, Some(ErrorDetail(ErrorText(code), code))))
      else
        var data :=
          if address == LatestDataLongAddress then ReadLatestDataLongFrame(payload)
          else if address == MountingOrientationAddress then ReadMountingOrientationFrame(payload)
          else if address == DeviceInformationAddress then Success(ReadDeviceInformationFrame(payload))
          else if status == 0x01 then Failure(IllegalDataError)
          else Success(NoData);
        if data.Failure? then Failure(data.error)
        else Success(Record(StatusText(status), status, address, data.value, None))
  }

  // ---------------------------------------------------------------------------
  // The device side: payloads as the sensor lays them out. Each decoder gives
  // back what its encoder put in.

  /** Every reading fits the signed width the device sends it in. */
  predicate LatestDataInRange(d: LatestData)
  {
    -0x8000 <= d.temperature < 0x8000 && -0x8000 <= d.humidity < 0x8000
    && -0x8000 <= d.illuminance < 0x8000 && -0x8000_0000 <= d.barometricPressure < 0x8000_0000
    && -0x8000 <= d.soundNoise < 0x8000 && -0x8000 <= d.etvoc < 0x8000 && -0x8000 <= d.eco2 < 0x8000
    && -0x8000 <= d.discomfortIndex < 0x8000 && -0x8000 <= d.heatStroke < 0x8000
    && -0x8000 <= d.spectralIntensity < 0x8000 && -0x8000 <= d.seismicIntensity < 0x8000
  }

  /**
   * The bytes at payload offsets 3..30 of a "latest data long" response.
   * `vibration` is the code whose text the record holds; `skipped` are the
   * two bytes at offsets 27..28, which the decoder does not read.
   */
  function LatestDataLongFields(d: LatestData, vibration: byte, skipped: seq<byte>): (fields: seq<byte>)
    requires LatestDataInRange(d) && |skipped| == 2
    ensures |fields| == LatestDataLongLength - 3
  {
    [d.id] + Int16LE(d.temperature) + Int16LE(d.humidity) + Int16LE(d.illuminance)
    + Int32LE(d.barometricPressure) + Int16LE(d.soundNoise) + Int16LE(d.etvoc) + Int16LE(d.eco2)
    + Int16LE(d.discomfortIndex) + Int16LE(d.heatStroke) + [vibration]
    + Int16LE(d.spectralIntensity) + skipped + Int16LE(d.seismicIntensity)
  }

  /** The fields at offsets 3..13 of an encoded "latest data long" payload read back. */
  lemma LatestDataLongFirstFields(p: seq<byte>, head: seq<byte>, d: LatestData, vibration: byte,
                                  skipped: seq<byte>, rest: seq<byte>)
    requires |head| == 3 && LatestDataInRange(d) && |skipped| == 2
    requires p == head + LatestDataLongFields(d, vibration, skipped) + rest
    ensures p[3] == d.id && ReadInt16LE(p, 4) == d.temperature && ReadInt16LE(p, 6) == d.humidity
    ensures ReadInt16LE(p, 8) == d.illuminance && ReadInt32LE(p, 10) == d.barometricPressure
  {
  }

  /** The fields at offsets 14..30 of an encoded "latest data long" payload read back. */
  lemma LatestDataLongLastFields(p: seq<byte>, head: seq<byte>, d: LatestData, vibration: byte,
                                 skipped: seq<byte>, rest: seq<byte>)
    requires |head| == 3 && LatestDataInRange(d) && |skipped| == 2
    requires p == head + LatestDataLongFields(d, vibration, skipped) + rest
    ensures ReadInt16LE(p, 14) == d.soundNoise && ReadInt16LE(p, 16) == d.etvoc
    ensures ReadInt16LE(p, 18) == d.eco2 && ReadInt16LE(p, 20) == d.discomfortIndex
    ensures ReadInt16LE(p, 22) == d.heatStroke && p[24] == vibration
    ensures ReadInt16LE(p, 25) == d.spectralIntensity && ReadInt16LE(p, 29) == d.seismicIntensity
  {
  }

  /** readLatestDataLongFrame reads back every field the device wrote, whatever follows them. */
  lemma LatestDataLongRoundTrip(head: seq<byte>, d: LatestData, vibration: byte, skipped: seq<byte>,
                                rest: seq<byte>)
    requires |head| == 3 && LatestDataInRange(d) && |skipped| == 2
    requires VibrationStatus(vibration) == d.vibrationStatus
    ensures ReadLatestDataLongFrame(head + LatestDataLongFields(d, vibration, skipped) + rest)
            == Success(Latest(d))
  {
    var p := head + LatestDataLongFields(d, vibration, skipped) + rest;
    LatestDataLongFirstFields(p, head, d, vibration, skipped, rest);
    LatestDataLongLastFields(p, head, d, vibration, skipped, rest);
  }

  /** The first three bytes of every response payload: status, then the register address. */
  function ResponseHead(status: byte, address: nat): (head: seq<byte>)
    requires address < 0x10000
    ensures |head| == 3 && head[0] == status && ReadUInt16LE(head, 1) == address
  {
    [status] + UInt16LE(address)
  }

  /** A "Read OK" (or any non-error) response for register 0x5021 decodes to the readings sent. */
  lemma LatestDataResponseRoundTrip(status: byte, d: LatestData, vibration: byte, skipped: seq<byte>,
                                    rest: seq<byte>)
    requires status < 0x80 && LatestDataInRange(d) && |skipped| == 2
    requires VibrationStatus(vibration) == d.vibrationStatus
    ensures var head := ResponseHead(status, LatestDataLongAddress);
      ParsePayloadFrame(head + LatestDataLongFields(d, vibration, skipped) + rest)
      == Success(Record(StatusText(status), status, LatestDataLongAddress, Latest(d), None))
  {
    var head := ResponseHead(status, LatestDataLongAddress);
    var p := head + LatestDataLongFields(d, vibration, skipped) + rest;
    LatestDataLongRoundTrip(head, d, vibration, skipped, rest);
    assert p[0] == status && ReadUInt16LE(p, 1) == LatestDataLongAddress;
  }

  /** A non-error response for register 0x5402 decodes to the position byte sent. */
  lemma MountingOrientationRoundTrip(status: byte, position: byte, rest: seq<byte>)
    requires status < 0x80
    ensures ParsePayloadFrame(ResponseHead(status, MountingOrientationAddress) + [position] + rest)
      == Success(Record(StatusText(status), status, MountingOrientationAddress, Orientation(position), None))
  {
    var p := ResponseHead(status, MountingOrientationAddress) + [position] + rest;
    assert p[0] == status && ReadUInt16LE(p, 1) == MountingOrientationAddress && p[3] == position;
  }

  /** A non-error response for register 0x180A decodes to the five fields sent, whatever follows. */
  lemma DeviceInformationRoundTrip(status: byte, model: seq<byte>, serialNumber: seq<byte>,
                                   firmwareVersion: seq<byte>, hardwareVersion: seq<byte>,
                                   manufacturer: seq<byte>, rest: seq<byte>)
    requires status < 0x80
    requires |model| == 10 && |serialNumber| == 10
    requires |firmwareVersion| == 5 && |hardwareVersion| == 5 && |manufacturer| == 5
    ensures ParsePayloadFrame(ResponseHead(status, DeviceInformationAddress) + model + serialNumber
                              + firmwareVersion + hardwareVersion + manufacturer + rest)
      == Success(Record(StatusText(status), status, DeviceInformationAddress,
                        DeviceInformation(model, serialNumber, firmwareVersion, hardwareVersion, manufacturer),
                        None))
  {
    var p := ResponseHead(status, DeviceInformationAddress) + model + serialNumber
             + firmwareVersion + hardwareVersion + manufacturer + rest;
    assert p[0] == status && ReadUInt16LE(p, 1) == DeviceInformationAddress;
    assert p[3..13] == model;
    assert p[13..23] == serialNumber;
    assert p[23..28] == firmwareVersion;
    assert p[28..33] == hardwareVersion;
    assert p[33..38] == manufacturer;
  }

  /** An error response decodes to its status, address and error code, with no data. */
  lemma ErrorResponseRoundTrip(status: byte, address: nat, code: byte, rest: seq<byte>)
    requires status >= 0x80 && address < 0x10000
    ensures ParsePayloadFrame(ResponseHead(status, address) + [code] + rest)
      == Success(Record(StatusText(status), status, address, NoData,
                        Some(ErrorDetail(ErrorText(Some(code)), Some(code)))))
  {
    var p := ResponseHead(status, address) + [code] + rest;
    assert p[0] == status && ReadUInt16LE(p, 1) == address && p[3] == code;
  }
}
