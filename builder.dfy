/**
 * Omron2jcieBuPacketBuilder: the request frames a host sends to the sensor.
 *
 * A frame is the header 0x4252 written little-endian (bytes 52 42), the
 * length of the payload plus its CRC as a little-endian 16-bit word, the
 * payload, and crc16 of everything before it, little-endian.
 */
module PacketBuilder {
  import opened Wrappers
  import opened Wire
  import opened Checksum

  // ---------------------------------------------------------------------------
  // The frame layout

  /** The frame that wraps `payload`. */
  function Frame(payload: seq<byte>): (frame: seq<byte>)
    requires |payload| + 2 < 0x10000
    ensures |frame| == |payload| + 6
    ensures frame[0] == 0x52 && frame[1] == 0x42 && ReadUInt16LE(frame, 0) == Header
    ensures ReadUInt16LE(frame, 2) == |payload| + 2
    ensures frame[4..|payload| + 4] == payload
  {
    var prefix := UInt16LE(Header) + UInt16LE(|payload| + 2) + payload;
    assert prefix[4..] == payload;
    prefix + UInt16LE(Crc16(prefix))
  }

  /** The last two bytes of a frame are crc16 of all the bytes before them, little-endian. */
  lemma FrameCrc(payload: seq<byte>)
    requires |payload| + 2 < 0x10000
    ensures var frame := Frame(payload);
      ReadUInt16LE(frame, |payload| + 4) == Crc16(frame[..|payload| + 4])
  {
    var prefix := UInt16LE(Header) + UInt16LE(|payload| + 2) + payload;
    var frame := Frame(payload);
    assert frame[..|payload| + 4] == prefix;
    assert frame[|payload| + 4..] == UInt16LE(Crc16(prefix));
  }

  /** The layout determines the frame: a buffer with every field in place is `Frame(payload)`. */
  lemma FrameLayoutDetermines(frame: seq<byte>, payload: seq<byte>)
    requires |payload| + 2 < 0x10000
    requires |frame| == |payload| + 6
    requires ReadUInt16LE(frame, 0) == Header
    requires ReadUInt16LE(frame, 2) == |payload| + 2
    requires frame[4..|payload| + 4] == payload
    requires ReadUInt16LE(frame, |payload| + 4) == Crc16(frame[..|payload| + 4])
    ensures frame == Frame(payload)
  {
    var f := Frame(payload);
    var n := |payload| + 4;
    FrameCrc(payload);
    UInt16LEDetermines(frame, f, 0);
    UInt16LEDetermines(frame, f, 2);
    assert frame[..n] == f[..n] by {
      forall i | 0 <= i < n
        ensures frame[i] == f[i]
      {
        if 4 <= i {
          assert frame[i] == frame[4..n][i - 4] && f[i] == f[4..n][i - 4];
        }
      }
    }
    UInt16LEDetermines(frame, f, n);
    assert frame == frame[..n] + frame[n..];
    assert f == f[..n] + f[n..];
  }

  /** Two buffers whose 16-bit words at `offset` read alike hold the same two bytes there. */
  lemma UInt16LEDetermines(a: seq<byte>, b: seq<byte>, offset: nat)
    requires offset + 2 <= |a| && offset + 2 <= |b|
    requires ReadUInt16LE(a, offset) == ReadUInt16LE(b, offset)
    ensures a[offset] == b[offset] && a[offset + 1] == b[offset + 1]
    ensures a[offset..offset + 2] == b[offset..offset + 2]
  {
  }

  /** Buffer.writeUInt16LE(value, offset) on a buffer of the builder. */
  method WriteUInt16LE(buf: array<byte>, value: nat, offset: nat)
    requires value < 0x10000 && offset + 2 <= buf.Length
    modifies buf
    ensures buf[..] == old(buf[..offset]) + UInt16LE(value) + old(buf[offset + 2..])
  {
    buf[offset] := value % 0x100;
    buf[offset + 1] := value / 0x100;
  }

  /** buildRequest: header and length, then the payload, then the CRC of all of it. */
  method BuildRequest(payload: seq<byte>) returns (frame: seq<byte>)
    requires |payload| + 2 < 0x10000
    ensures frame == Frame(payload)
  {
    var head := new byte[4](_ => 0);
    WriteUInt16LE(head, Header, 0);
    assert head[..2] == UInt16LE(Header);
    WriteUInt16LE(head, |payload| + 2, 2);
    assert head[..] == UInt16LE(Header) + UInt16LE(|payload| + 2);
    var data := head[..] + payload;
    var crc := ComputeCrc16(data);
    var tail := new byte[2](_ => 0);
    WriteUInt16LE(tail, crc, 0);
    assert tail[..] == UInt16LE(crc);
    frame := data + tail[..];
  }

  // ---------------------------------------------------------------------------
  // Read requests

  /** The payload of a read request: the read opcode, then the register address. */
  function ReadPayload(address: nat): (payload: seq<byte>)
    requires address < 0x10000
    ensures |payload| == 3 && payload[0] == ReadCommand
    ensures ReadUInt16LE(payload, 1) == address
  {
    [ReadCommand] + UInt16LE(address)
  }

  /** The payload buffer of the three read builders, filled in place. */
  method FillReadPayload(address: nat) returns (payload: seq<byte>)
    requires address < 0x10000
    ensures payload == ReadPayload(address)
  {
    var buf := new byte[3](_ => 0);
    buf[0] := ReadCommand;
    WriteUInt16LE(buf, address, 1);
    payload := buf[..];
  }

  /** buildReadLatestDataLongRequest: the request for register 0x5021. */
  method BuildReadLatestDataLongRequest() returns (frame: seq<byte>)
    ensures frame == Frame(ReadPayload(LatestDataLongAddress))
    ensures frame == [0x52, 0x42, 0x05, 0x00, 0x01, 0x21, 0x50, 0xe2, 0x4b]
  {
    var payload := FillReadPayload(LatestDataLongAddress);
    frame := BuildRequest(payload);
    LatestDataLongRequestBytes(payload);
  }

  /** buildReadMountingOrientationRequest: the request for register 0x5402. */
  method BuildReadMountingOrientationRequest() returns (frame: seq<byte>)
    ensures frame == Frame(ReadPayload(MountingOrientationAddress))
    ensures frame == [0x52, 0x42, 0x05, 0x00, 0x01, 0x02, 0x54, 0xfa, 0xb8]
  {
    var payload := FillReadPayload(MountingOrientationAddress);
    frame := BuildRequest(payload);
    MountingOrientationRequestBytes(payload);
  }

  /** buildReadDeviceInformationRequest: the request for register 0x180A. */
  method BuildReadDeviceInformationRequest() returns (frame: seq<byte>)
    ensures frame == Frame(ReadPayload(DeviceInformationAddress))
    ensures frame == [0x52, 0x42, 0x05, 0x00, 0x01, 0x0a, 0x18, 0xfc, 0x8d]
  {
    var payload := FillReadPayload(DeviceInformationAddress);
    frame := BuildRequest(payload);
    DeviceInformationRequestBytes(payload);
  }

  // ---------------------------------------------------------------------------
  // The LED write request: display rule

  /** DISPLAY_RULES: the LED display rule names and their codes. */
  const DisplayRules: map<string, nat> := map[
    "OFF" := 0x0000,
    "ON" := 0x0001,
    "Temperature" := 0x0002,
    "Humidity" := 0x0003,
    "Illuminance" := 0x0004,
    "Barometric Pressure" := 0x0005,
    "Sound Noise" := 0x0006,
    "eTVOC" := 0x0007,
    "Vibration" := 0x0008
  ]

  /**
   * resolveDisplayRule: the code of a named rule; a name the table does not
   * hold, like a code that is falsy, gives 0x0000 (OFF).
   */
  function ResolveDisplayRule(displayRule: string): (code: nat)
    ensures code <= 8
    ensures displayRule in DisplayRules ==> code == DisplayRules[displayRule]
    ensures displayRule !in DisplayRules ==> code == 0
  {
    if displayRule in DisplayRules && DisplayRules[displayRule] != 0 then DisplayRules[displayRule]
    else 0
  }

  /** No two rule names share a code, so the device can tell every rule apart. */
  lemma DisplayRulesDistinct(a: string, b: string)
    requires a in DisplayRules && b in DisplayRules
    requires ResolveDisplayRule(a) == ResolveDisplayRule(b)
    ensures a == b
  {
  }

  // ---------------------------------------------------------------------------
  // The LED write request: color

  /** The `color` argument: a string, a number, or anything else (absent, an object, ...). */
  datatype Color = Text(text: string) | Number(value: int) | Other

  /** WhiteSpace and LineTerminator of ECMAScript, the characters parseInt skips first. */
  predicate IsJsWhiteSpace(c: char)
  {
    var n := c as int;
    n == 0x09 || n == 0x0A || n == 0x0B || n == 0x0C || n == 0x0D || n == 0x20 ||
    n == 0xA0 || n == 0x1680 || (0x2000 <= n <= 0x200A) || n == 0x2028 || n == 0x2029 ||
    n == 0x202F || n == 0x205F || n == 0x3000 || n == 0xFEFF
  }

  predicate IsHexDigit(c: char)
  {
    ('0' <= c <= '9') || ('a' <= c <= 'f') || ('A' <= c <= 'F')
  }

  function HexDigitValue(c: char): (v: nat)
    requires IsHexDigit(c)
    ensures v < 16
  {
    if '0' <= c <= '9' then c as int - '0' as int
    else if 'a' <= c <= 'f' then c as int - 'a' as int + 10
    else c as int - 'A' as int + 10
  }

  predicate AllHexDigits(s: string)
  {
    forall i :: 0 <= i < |s| ==> IsHexDigit(s[i])
  }

  /** 16^n; positive, which the bound on HexValue relies on. */
  function Pow16(n: nat): (p: nat)
    ensures p >= 1
  {
    if n == 0 then 1 else 16 * Pow16(n - 1)
  }

  /** The number a string of hexadecimal digits denotes. */
  function HexValue(digits: string): (v: nat)
    requires AllHexDigits(digits)
    ensures v < Pow16(|digits|)
  {
    if digits == [] then 0
    else 16 * HexValue(digits[..|digits| - 1]) + HexDigitValue(digits[|digits| - 1])
  }

  /** One more digit multiplies the value so far by 16 and adds the digit. */
  lemma HexValueAppend(digits: string, c: char)
    requires AllHexDigits(digits) && IsHexDigit(c)
    ensures AllHexDigits(digits + [c])
    ensures HexValue(digits + [c]) == 16 * HexValue(digits) + HexDigitValue(c)
  {
    assert (digits + [c])[..|digits|] == digits;
  }

  /** The string with its leading white space removed (TrimString(s, start)). */
  function TrimStart(s: string): (r: string)
    ensures |r| <= |s| && r == s[|s| - |r|..]
    ensures r == [] || !IsJsWhiteSpace(r[0])
    ensures forall i :: 0 <= i < |s| - |r| ==> IsJsWhiteSpace(s[i])
  {
    if s != [] && IsJsWhiteSpace(s[0]) then TrimStart(s[1..]) else s
  }

  /** The length of the longest prefix of `s` made of hexadecimal digits. */
  function HexPrefixLength(s: string): (n: nat)
    ensures n <= |s| && AllHexDigits(s[..n])
    ensures n == |s| || !IsHexDigit(s[n])
  {
    if s != [] && IsHexDigit(s[0]) then
      var n := 1 + HexPrefixLength(s[1..]);
      assert forall i :: 1 <= i < n ==> s[..n][i] == s[1..][..n - 1][i - 1];
      n
    else 0
  }

  /** parseInt's optional sign: a leading '+' or '-' is dropped. */
  function SkipSign(t: string): (r: string)
    ensures r == t || (t != [] && r == t[1..])
    ensures r != t ==> t[0] == '+' || t[0] == '-'
  {
    if t != [] && (t[0] == '+' || t[0] == '-') then t[1..] else t
  }

  /** parseInt's optional radix-16 prefix: a leading 0x or 0X is dropped. */
  function SkipHexPrefix(u: string): (r: string)
    ensures r == u || (|u| >= 2 && r == u[2..])
    ensures r != u ==> u[..2] == "0x" || u[..2] == "0X"
  {
    if |u| >= 2 && u[0] == '0' && (u[1] == 'x' || u[1] == 'X') then u[2..] else u
  }

  /**
   * parseInt(s, 16): skip leading white space, take an optional sign and an
   * optional 0x or 0X, then read the longest run of hexadecimal digits.
   * None stands for NaN, the result when that run is empty.
   */
  function ParseIntHex(s: string): (r: Option<int>)
    ensures r.None? <==> HexPrefixLength(SkipHexPrefix(SkipSign(TrimStart(s)))) == 0
  {
    var t := TrimStart(s);
    var digits := SkipHexPrefix(SkipSign(t));
    var n := HexPrefixLength(digits);
    if n == 0 then None
    else if t != [] && t[0] == '-' then Some(-(HexValue(digits[..n]) as int))
    else Some(HexValue(digits[..n]))
  }

  /** A string of hexadecimal digits parses to the number it denotes. */
  lemma ParseIntHexDigits(s: string)
    requires s != [] && AllHexDigits(s)
    ensures ParseIntHex(s) == Some(HexValue(s))
  {
    assert !IsJsWhiteSpace(s[0]);
    assert TrimStart(s) == s;
    assert SkipSign(s) == s;
    assert |s| >= 2 ==> IsHexDigit(s[1]);
    assert SkipHexPrefix(s) == s;
    assert s[..|s|] == s;
  }

  /**
   * resolveColor: a string starting with '#' is parsed as hexadecimal after
   * the '#', any other string as hexadecimal; a number is used as it is;
   * anything else is 0.
   */
  function ResolveColor(color: Color): (r: Option<int>)
    ensures color.Number? ==> r == Some(color.value)
    ensures color.Other? ==> r == Some(0)
    ensures color.Text? && |color.text| > 0 && color.text[0] == '#' ==> r == ParseIntHex(color.text[1..])
    ensures color.Text? && (|color.text| == 0 || color.text[0] != '#') ==> r == ParseIntHex(color.text)
  {
    match color
    case Text(text) =>
      if |text| > 0 && text[0] == '#' then ParseIntHex(text[1..]) else ParseIntHex(text)
    case Number(value) => Some(value)
    case Other => Some(0)
  }

  /** ECMAScript's ToInt32, which every bit operator applies to its operands first. */
  function ToInt32(n: int): (r: int)
    ensures -0x8000_0000 <= r < 0x8000_0000
    ensures (r - n) % 0x1_0000_0000 == 0
  {
    var m := n % 0x1_0000_0000;
    if m < 0x8000_0000 then m else m - 0x1_0000_0000
  }

  /**
   * `(value >> shift) & 0xff` in JavaScript, for a shift of 0, 8 or 16: the
   * arithmetic shift of the 32-bit value is a floor division, and `& 0xff`
   * of a two's complement value is its remainder modulo 256. NaN is 0 to
   * ToInt32.
   */
  function ColorChannel(value: Option<int>, shift: nat): (b: byte)
    requires shift == 0 || shift == 8 || shift == 16
    ensures value.None? ==> b == 0
    ensures value.Some? ==> b == ((value.value % 0x100_0000) / ShiftDivisor(shift)) % 0x100
  {
    var v := if value.Some? then ToInt32(value.value) else 0;
    var divisor := ShiftDivisor(shift);
    if value.Some? then
      ToInt32Low24(value.value);
      ChannelOfLow24(v, divisor);
      (v / divisor) % 0x100
    else
      (v / divisor) % 0x100
  }

  /** 2^shift, for the channel shifts 0, 8 and 16. */
  function ShiftDivisor(shift: nat): int
    requires shift == 0 || shift == 8 || shift == 16
  {
    if shift == 16 then 0x10000 else if shift == 8 then 0x100 else 1
  }

  /** The red, green and blue bytes written for a color value. */
  function ColorBytes(value: Option<int>): (rgb: seq<byte>)
    ensures |rgb| == 3
    ensures value.None? ==> rgb == [0, 0, 0]
  {
    [ColorChannel(value, 16), ColorChannel(value, 8), ColorChannel(value, 0)]
  }

  /** A 24-bit color comes back from its red, green and blue bytes. */
  lemma ColorBytesRoundTrip(c: int)
    requires 0 <= c < 0x100_0000
    ensures var rgb := ColorBytes(Some(c)); rgb[0] as int * 0x10000 + rgb[1] as int * 0x100 + rgb[2] as int == c
  {
    assert ToInt32(c) == c;
    var r, g, b := c / 0x10000, (c / 0x100) % 0x100, c % 0x100;
    assert r < 0x100 && r % 0x100 == r;
    assert c / 0x100 == r * 0x100 + g;
    assert c == (c / 0x100) * 0x100 + b;
  }

  /** The bytes written for a number depend only on its low 24 bits. */
  lemma ColorBytesLow24(a: int, b: int)
    requires a % 0x100_0000 == b % 0x100_0000
    ensures ColorBytes(Some(a)) == ColorBytes(Some(b))
  {
    ToInt32Low24(a);
    ToInt32Low24(b);
    var x, y := ToInt32(a), ToInt32(b);
    ChannelOfLow24(x, 0x10000); ChannelOfLow24(y, 0x10000);
    ChannelOfLow24(x, 0x100); ChannelOfLow24(y, 0x100);
    ChannelOfLow24(x, 1); ChannelOfLow24(y, 1);
  }

  /** ToInt32 keeps the low 24 bits. */
  lemma ToInt32Low24(n: int)
    ensures ToInt32(n) % 0x100_0000 == n % 0x100_0000
  {
    var q, m := n / 0x1_0000_0000, n % 0x1_0000_0000;
    assert n == m + (q * 0x100) * 0x100_0000;
    Low24Shift(m, q * 0x100);
    if m >= 0x8000_0000 {
      Low24Shift(m - 0x1_0000_0000, 0x100);
    }
  }

  /** Adding a multiple of 2^24 leaves the low 24 bits alone. */
  lemma Low24Shift(x: int, k: int)
    ensures (x + k * 0x100_0000) % 0x100_0000 == x % 0x100_0000
  {
    var q, r := x / 0x100_0000, x % 0x100_0000;
    assert x + k * 0x100_0000 == (q + k) * 0x100_0000 + r;
  }

  /** `(v / divisor) % 256` for a divisor of 1, 256 or 65536 sees only the low 24 bits of `v`. */
  lemma ChannelOfLow24(v: int, divisor: int)
    requires divisor == 1 || divisor == 0x100 || divisor == 0x10000
    ensures (v / divisor) % 0x100 == ((v % 0x100_0000) / divisor) % 0x100
  {
    var q, r := v / 0x100_0000, v % 0x100_0000;
    assert v == q * 0x100_0000 + r;
    if divisor == 0x10000 {
      assert v / divisor == q * 0x100 + r / divisor;
    } else if divisor == 0x100 {
      assert v / divisor == q * 0x10000 + r / divisor;
    }
  }


  /** The payload of the LED write request. */
  function LedPayload(displayRule: string, color: Color): (payload: seq<byte>)
    ensures |payload| == 8 && payload[0] == WriteCommand
    ensures ReadUInt16LE(payload, 1) == LedSettingAddress
    ensures ReadUInt16LE(payload, 3) == ResolveDisplayRule(displayRule)
    ensures displayRule == "ON" ==> payload[5..] == ColorBytes(ResolveColor(color))
    ensures displayRule != "ON" ==> payload[5..] == [0, 0, 0]
  {
    var rgb := if displayRule == "ON" then ColorBytes(ResolveColor(color)) else [0, 0, 0];
    var payload := [WriteCommand] + UInt16LE(LedSettingAddress) + UInt16LE(ResolveDisplayRule(displayRule)) + rgb;
    assert payload[5..] == rgb;
    payload
  }

  /** The payload buffer of buildWriteLEDSettingsRequest, filled in place. */
  method FillLedPayload(displayRule: string, color: Color) returns (payload: seq<byte>)
    ensures payload == LedPayload(displayRule, color)
  {
    var buf := new byte[8](_ => 0);
    buf[0] := WriteCommand;
    WriteUInt16LE(buf, LedSettingAddress, 1);
    var rule := ResolveDisplayRule(displayRule);
    WriteUInt16LE(buf, rule, 3);
    ghost var head := [WriteCommand] + UInt16LE(LedSettingAddress) + UInt16LE(rule);
    assert buf[..5] == head;
    ghost var rgb: seq<byte>;
    if displayRule == "ON" {
      var colorValue := ResolveColor(color);
      WriteColor(buf, colorValue);
      rgb := ColorBytes(colorValue);
    } else {
      rgb := [0, 0, 0];
    }
    assert buf[5..] == rgb;
    payload := buf[..];
    assert payload == buf[..5] + buf[5..];
  }

  /** The red, green and blue bytes of a color value, at payload offsets 5..7. */
  method WriteColor(buf: array<byte>, value: Option<int>)
    requires buf.Length == 8
    modifies buf
    ensures buf[..5] == old(buf[..5]) && buf[5..] == ColorBytes(value)
  {
    buf[5] := ColorChannel(value, 16);
    buf[6] := ColorChannel(value, 8);
    buf[7] := ColorChannel(value, 0);
  }

  /** buildWriteLEDSettingsRequest: the frame setting the LED rule and, for "ON", its color. */
  method BuildWriteLedSettingsRequest(displayRule: string, color: Color) returns (frame: seq<byte>)
    ensures frame == Frame(LedPayload(displayRule, color))
    ensures |frame| == 14
  {
    var payload := FillLedPayload(displayRule, color);
    frame := BuildRequest(payload);
  }

  // ---------------------------------------------------------------------------
  // The request frames of the unit tests, byte for byte. crc16 is evaluated a
  // piece at a time: each piece continues from the register the one before
  // it left.


  /** The register after the first five bytes of every read request. */
  lemma ReadRequestHeadCrc()
    ensures RegisterFrom(0xffff, [0x52, 0x42, 0x05, 0x00, 0x01]) == 0x7558
  {
    var s: seq<byte> := [];
    CrcStep(0xffff, s, 0x52, 0xffff, 0xbd3e); s := s + [0x52];
    CrcStep(0xffff, s, 0x42, 0xbd3e, 0xe1bc); s := s + [0x42];
    CrcStep(0xffff, s, 0x05, 0xe1bc, 0xb220); s := s + [0x05];
    CrcStep(0xffff, s, 0x00, 0xb220, 0xd8b3); s := s + [0x00];
    CrcStep(0xffff, s, 0x01, 0xd8b3, 0x7558); s := s + [0x01];
    assert s == [0x52, 0x42, 0x05, 0x00, 0x01];
  }

  /** The register once the address 0x5021 of a read request follows. */
  lemma LatestDataLongAddressCrc()
    ensures RegisterFrom(0x7558, [0x21, 0x50]) == 0x4be2
  {
    var s: seq<byte> := [];
    CrcStep(0x7558, s, 0x21, 0x7558, 0xe2b4); s := s + [0x21];
    CrcStep(0x7558, s, 0x50, 0xe2b4, 0x4be2); s := s + [0x50];
    assert s == [0x21, 0x50];
  }

  /** The register once the address 0x5402 of a read request follows. */
  lemma MountingOrientationAddressCrc()
    ensures RegisterFrom(0x7558, [0x02, 0x54]) == 0xb8fa
  {
    var s: seq<byte> := [];
    CrcStep(0x7558, s, 0x02, 0x7558, 0x3bf5); s := s + [0x02];
    CrcStep(0x7558, s, 0x54, 0x3bf5, 0xb8fa); s := s + [0x54];
    assert s == [0x02, 0x54];
  }

  /** The register once the address 0x180A of a read request follows. */
  lemma DeviceInformationAddressCrc()
    ensures RegisterFrom(0x7558, [0x0a, 0x18]) == 0x8dfc
  {
    var s: seq<byte> := [];
    CrcStep(0x7558, s, 0x0a, 0x7558, 0xfdf4); s := s + [0x0a];
    CrcStep(0x7558, s, 0x18, 0xfdf4, 0x8dfc); s := s + [0x18];
    assert s == [0x0a, 0x18];
  }

  /** The register after the first seven bytes of every LED write request. */
  lemma LedRequestHeadCrc()
    ensures RegisterFrom(0xffff, [0x52, 0x42, 0x0a, 0x00, 0x02, 0x11, 0x51]) == 0x8a93
  {
    var s: seq<byte> := [];
    CrcStep(0xffff, s, 0x52, 0xffff, 0xbd3e); s := s + [0x52];
    CrcStep(0xffff, s, 0x42, 0xbd3e, 0xe1bc); s := s + [0x42];
    CrcStep(0xffff, s, 0x0a, 0xe1bc, 0xb660); s := s + [0x0a];
    CrcStep(0xffff, s, 0x00, 0xb660, 0x28b6); s := s + [0x00];
    CrcStep(0xffff, s, 0x02, 0x28b6, 0x7728); s := s + [0x02];
    CrcStep(0xffff, s, 0x11, 0x7728, 0x12b7); s := s + [0x11];
    CrcStep(0xffff, s, 0x51, 0x12b7, 0x8a93); s := s + [0x51];
    assert s == [0x52, 0x42, 0x0a, 0x00, 0x02, 0x11, 0x51];
  }

  /** The register once the rule Temperature and a zero color follow. */
  lemma LedTemperatureTailCrc()
    ensures RegisterFrom(0x8a93, [0x02, 0x00, 0x00, 0x00, 0x00]) == 0xc5d7
  {
    var s: seq<byte> := [];
    CrcStep(0x8a93, s, 0x02, 0x8a93, 0xac4b); s := s + [0x02];
    CrcStep(0x8a93, s, 0x00, 0xac4b, 0x37ec); s := s + [0x00];
    CrcStep(0x8a93, s, 0x00, 0x37ec, 0x8d36); s := s + [0x00];
    CrcStep(0x8a93, s, 0x00, 0x8d36, 0x160d); s := s + [0x00];
    CrcStep(0x8a93, s, 0x00, 0x160d, 0xc5d7); s := s + [0x00];
    assert s == [0x02, 0x00, 0x00, 0x00, 0x00];
  }

  /** The register once the rule ON and the color 0D58C1 follow. */
  lemma LedOnTailCrc()
    ensures RegisterFrom(0x8a93, [0x01, 0x00, 0x0d, 0x58, 0xc1]) == 0x56f8
  {
    var s: seq<byte> := [];
    CrcStep(0x8a93, s, 0x01, 0x8a93, 0xad0b); s := s + [0x01];
    CrcStep(0x8a93, s, 0x00, 0xad0b, 0xc7ec); s := s + [0x00];
    CrcStep(0x8a93, s, 0x0d, 0xc7ec, 0x4807); s := s + [0x0d];
    CrcStep(0x8a93, s, 0x58, 0x4807, 0x3808); s := s + [0x58];
    CrcStep(0x8a93, s, 0xc1, 0x3808, 0x56f8); s := s + [0xc1];
    assert s == [0x01, 0x00, 0x0d, 0x58, 0xc1];
  }

  /** A frame whose bytes before the CRC and whose CRC are known. */
  lemma FrameOfKnownCrc(payload: seq<byte>, prefix: seq<byte>, crc: nat)
    requires |payload| + 2 < 0x10000
    requires UInt16LE(Header) + UInt16LE(|payload| + 2) + payload == prefix
    requires Crc16(prefix) == crc
    ensures crc < 0x10000 && Frame(payload) == prefix + UInt16LE(crc)
  {
  }

  /** Every read request starts 52 42 05 00 01, then the address. */
  lemma ReadRequestPrefix(payload: seq<byte>, address: nat)
    requires address < 0x10000 && payload == ReadPayload(address)
    ensures UInt16LE(Header) + UInt16LE(|payload| + 2) + payload == [0x52, 0x42, 0x05, 0x00, 0x01] + UInt16LE(address)
  {
  }

  /** crc16 of the read request for the LatestDataLong register, up to its CRC. */
  lemma LatestDataLongRequestCrc(head: seq<byte>, address: seq<byte>)
    requires head == [0x52, 0x42, 0x05, 0x00, 0x01] && address == [0x21, 0x50]
    ensures Crc16(head + address) == 0x4be2
  {
    ReadRequestHeadCrc();
    LatestDataLongAddressCrc();
    CrcSegments(0xffff, head, address, 0x7558, 0x4be2);
  }

  /** The frame of buildReadLatestDataLongRequest: 52 42 05 00 01 21 50 e2 4b. */
  lemma LatestDataLongRequestBytes(payload: seq<byte>)
    requires payload == ReadPayload(LatestDataLongAddress)
    ensures Frame(payload) == [0x52, 0x42, 0x05, 0x00, 0x01, 0x21, 0x50, 0xe2, 0x4b]
  {
    var head: seq<byte> := [0x52, 0x42, 0x05, 0x00, 0x01];
    var address: seq<byte> := [0x21, 0x50];
    LatestDataLongRequestCrc(head, address);
    ReadRequestPrefix(payload, LatestDataLongAddress);
    assert UInt16LE(LatestDataLongAddress) == address;
  }

  /** crc16 of the read request for the MountingOrientation register, up to its CRC. */
  lemma MountingOrientationRequestCrc(head: seq<byte>, address: seq<byte>)
    requires head == [0x52, 0x42, 0x05, 0x00, 0x01] && address == [0x02, 0x54]
    ensures Crc16(head + address) == 0xb8fa
  {
    ReadRequestHeadCrc();
    MountingOrientationAddressCrc();
    CrcSegments(0xffff, head, address, 0x7558, 0xb8fa);
  }

  /** The frame of buildReadMountingOrientationRequest: 52 42 05 00 01 02 54 fa b8. */
  lemma MountingOrientationRequestBytes(payload: seq<byte>)
    requires payload == ReadPayload(MountingOrientationAddress)
    ensures Frame(payload) == [0x52, 0x42, 0x05, 0x00, 0x01, 0x02, 0x54, 0xfa, 0xb8]
  {
    var head: seq<byte> := [0x52, 0x42, 0x05, 0x00, 0x01];
    var address: seq<byte> := [0x02, 0x54];
    MountingOrientationRequestCrc(head, address);
    ReadRequestPrefix(payload, MountingOrientationAddress);
    assert UInt16LE(MountingOrientationAddress) == address;
  }

  /** crc16 of the read request for the DeviceInformation register, up to its CRC. */
  lemma DeviceInformationRequestCrc(head: seq<byte>, address: seq<byte>)
    requires head == [0x52, 0x42, 0x05, 0x00, 0x01] && address == [0x0a, 0x18]
    ensures Crc16(head + address) == 0x8dfc
  {
    ReadRequestHeadCrc();
    DeviceInformationAddressCrc();
    CrcSegments(0xffff, head, address, 0x7558, 0x8dfc);
  }

  /** The frame of buildReadDeviceInformationRequest: 52 42 05 00 01 0a 18 fc 8d. */
  lemma DeviceInformationRequestBytes(payload: seq<byte>)
    requires payload == ReadPayload(DeviceInformationAddress)
    ensures Frame(payload) == [0x52, 0x42, 0x05, 0x00, 0x01, 0x0a, 0x18, 0xfc, 0x8d]
  {
    var head: seq<byte> := [0x52, 0x42, 0x05, 0x00, 0x01];
    var address: seq<byte> := [0x0a, 0x18];
    DeviceInformationRequestCrc(head, address);
    ReadRequestPrefix(payload, DeviceInformationAddress);
    assert UInt16LE(DeviceInformationAddress) == address;
  }

  /** Every LED write request starts 52 42 0a 00 02 11 51, then the rule and the color. */
  lemma LedRequestPrefix(payload: seq<byte>, rule: seq<byte>)
    requires payload == [0x02, 0x11, 0x51] + rule && |rule| == 5
    ensures UInt16LE(Header) + UInt16LE(|payload| + 2) + payload == [0x52, 0x42, 0x0a, 0x00, 0x02, 0x11, 0x51] + rule
  {
  }

  /** crc16 of the LED request for the rule Temperature, up to its CRC. */
  lemma LedTemperatureRequestCrc(head: seq<byte>, rule: seq<byte>)
    requires head == [0x52, 0x42, 0x0a, 0x00, 0x02, 0x11, 0x51] && rule == [0x02, 0x00, 0x00, 0x00, 0x00]
    ensures Crc16(head + rule) == 0xc5d7
  {
    LedRequestHeadCrc();
    LedTemperatureTailCrc();
    CrcSegments(0xffff, head, rule, 0x8a93, 0xc5d7);
  }

  /** The frame around the payload 02 11 51 02 00 00 00 00, as head, rule bytes and CRC. */
  lemma LedTemperatureFrame(payload: seq<byte>, head: seq<byte>, rule: seq<byte>)
    requires head == [0x52, 0x42, 0x0a, 0x00, 0x02, 0x11, 0x51] && rule == [0x02, 0x00, 0x00, 0x00, 0x00]
    requires payload == [0x02, 0x11, 0x51] + rule
    ensures Frame(payload) == head + rule + [0xd7, 0xc5]
  {
    LedTemperatureRequestCrc(head, rule);
    LedRequestPrefix(payload, rule);
    FrameOfKnownCrc(payload, head + rule, 0xc5d7);
  }

  /** The frame for the rule Temperature: 52 42 0a 00 02 11 51 02 00 00 00 00 d7 c5. */
  lemma LedTemperatureRequestBytes(payload: seq<byte>)
    requires payload == LedPayload("Temperature", Other)
    ensures Frame(payload) == [0x52, 0x42, 0x0a, 0x00, 0x02, 0x11, 0x51, 0x02, 0x00, 0x00, 0x00, 0x00, 0xd7, 0xc5]
  {
    var head: seq<byte> := [0x52, 0x42, 0x0a, 0x00, 0x02, 0x11, 0x51];
    var rule: seq<byte> := [0x02, 0x00, 0x00, 0x00, 0x00];
    assert ResolveDisplayRule("Temperature") == 2;
    assert payload == [0x02, 0x11, 0x51] + rule;
    LedTemperatureFrame(payload, head, rule);
  }

  /** The digits 0D58C1 denote 0x0D58C1. */
  lemma ColorDigitsValue(digits: string)
    requires digits == "0D58C1"
    ensures AllHexDigits(digits) && HexValue(digits) == 0x0D58C1
  {
    var d: string := [];
    HexValueAppend(d, '0'); d := d + ['0'];
    HexValueAppend(d, 'D'); d := d + ['D'];
    HexValueAppend(d, '5'); d := d + ['5'];
    HexValueAppend(d, '8'); d := d + ['8'];
    HexValueAppend(d, 'C'); d := d + ['C'];
    HexValueAppend(d, '1'); d := d + ['1'];
    assert d == digits;
  }

  /** "#0D58C1" resolves to the color 0x0D58C1. */
  lemma HexColorValue(text: string)
    requires text == "#0D58C1"
    ensures ResolveColor(Text(text)) == Some(0x0D58C1)
  {
    var digits := text[1..];
    ColorDigitsValue(digits);
    ParseIntHexDigits(digits);
  }

  /** The color 0x0D58C1 is written as the bytes 0d 58 c1. */
  lemma ColorBytesValue(value: Option<int>)
    requires value == Some(0x0D58C1)
    ensures ColorBytes(value) == [0x0d, 0x58, 0xc1]
  {
    assert ToInt32(0x0D58C1) == 0x0D58C1;
  }

  /** The payload for the rule ON in a color that resolves to 0x0D58C1: 02 11 51 01 00 0d 58 c1. */
  lemma LedOnPayload(payload: seq<byte>, color: Color)
    requires ResolveColor(color) == Some(0x0D58C1) && payload == LedPayload("ON", color)
    ensures payload == [0x02, 0x11, 0x51, 0x01, 0x00, 0x0d, 0x58, 0xc1]
  {
    ColorBytesValue(ResolveColor(color));
    assert ResolveDisplayRule("ON") == 1;
    assert payload == payload[..5] + payload[5..];
  }

  /** crc16 of the LED request for the rule ON in color 0D58C1, up to its CRC. */
  lemma LedOnRequestCrc(head: seq<byte>, rule: seq<byte>)
    requires head == [0x52, 0x42, 0x0a, 0x00, 0x02, 0x11, 0x51] && rule == [0x01, 0x00, 0x0d, 0x58, 0xc1]
    ensures Crc16(head + rule) == 0x56f8
  {
    LedRequestHeadCrc();
    LedOnTailCrc();
    CrcSegments(0xffff, head, rule, 0x8a93, 0x56f8);
  }

  /** The frame around the payload 02 11 51 01 00 0d 58 c1, as head, rule bytes and CRC. */
  lemma LedOnFrame(payload: seq<byte>, head: seq<byte>, rule: seq<byte>)
    requires head == [0x52, 0x42, 0x0a, 0x00, 0x02, 0x11, 0x51] && rule == [0x01, 0x00, 0x0d, 0x58, 0xc1]
    requires payload == [0x02, 0x11, 0x51] + rule
    ensures Frame(payload) == head + rule + [0xf8, 0x56]
  {
    LedOnRequestCrc(head, rule);
    LedRequestPrefix(payload, rule);
    FrameOfKnownCrc(payload, head + rule, 0x56f8);
  }

  /** The frame around the payload 02 11 51 01 00 0d 58 c1. */
  lemma LedOnFrameBytes(payload: seq<byte>)
    requires payload == [0x02, 0x11, 0x51, 0x01, 0x00, 0x0d, 0x58, 0xc1]
    ensures Frame(payload) == [0x52, 0x42, 0x0a, 0x00, 0x02, 0x11, 0x51, 0x01, 0x00, 0x0d, 0x58, 0xc1, 0xf8, 0x56]
  {
    var head: seq<byte> := [0x52, 0x42, 0x0a, 0x00, 0x02, 0x11, 0x51];
    var rule: seq<byte> := [0x01, 0x00, 0x0d, 0x58, 0xc1];
    assert payload == [0x02, 0x11, 0x51] + rule;
    LedOnFrame(payload, head, rule);
  }

  /** The frame for the rule ON in color "#0D58C1": 52 42 0a 00 02 11 51 01 00 0d 58 c1 f8 56. */
  lemma LedOnRequestBytes(payload: seq<byte>)
    requires payload == LedPayload("ON", Text("#0D58C1"))
    ensures Frame(payload) == [0x52, 0x42, 0x0a, 0x00, 0x02, 0x11, 0x51, 0x01, 0x00, 0x0d, 0x58, 0xc1, 0xf8, 0x56]
  {
    HexColorValue("#0D58C1");
    LedOnPayload(payload, Text("#0D58C1"));
    LedOnFrameBytes(payload);
  }
}
