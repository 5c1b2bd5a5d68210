/**
 * crc16 of the 2JCIE-BU codec: a 16-bit register starting at 0xFFFF; each
 * byte is XORed into it and then shifted out bit by bit, XORing in 0xA001
 * whenever a set bit falls out. JavaScript does the bit operations on 32-bit
 * integers and masks each shift with 0x7ffff (one hex digit wider than the
 * 15 bits its comment intends), so the register is modelled as a bv32.
 *
 * The same computation is defined a second time on a bv16 register, in the
 * words of the CRC of section 6.2.2 of the Modbus over Serial Line
 * Specification and Implementation Guide V1.02 (CRC-16/MODBUS), and the two
 * are proved equal.
 */
module Checksum {
  import opened Wire

  const InitialRegister: bv32 := 0xffff
  const Polynomial: bv32 := 0xa001

  /** The bits of a byte, as JavaScript's `^` sees them. */
  function Bits(b: byte): (r: bv32)
    ensures r < 0x100
  {
    b as bv32
  }

  /** One pass of the inner loop of crc16. */
  function ShiftRegister(register: bv32): (r: bv32)
    ensures register < 0x10000 ==> r < 0x10000
  {
    var lsb := register & 0x0001;
    var shifted := (register >> 1) & 0x7ffff;
    if lsb != 0 then shifted ^ Polynomial else shifted
  }

  /** `n` passes of the inner loop. */
  function ShiftTimes(register: bv32, n: nat): (r: bv32)
    ensures register < 0x10000 ==> r < 0x10000
    decreases n
  {
    if n == 0 then register else ShiftTimes(ShiftRegister(register), n - 1)
  }

  /** One pass of the outer loop: XOR a byte in, then shift eight times. */
  function UpdateByte(register: bv32, b: byte): (r: bv32)
    ensures register < 0x10000 ==> r < 0x10000
  {
    ShiftTimes(register ^ Bits(b), 8)
  }

  /** The register after the outer loop, started at `start`, has consumed `buf`. */
  function RegisterFrom(start: bv32, buf: seq<byte>): (r: bv32)
    ensures start < 0x10000 ==> r < 0x10000
  {
    if buf == [] then start
    else UpdateByte(RegisterFrom(start, buf[..|buf| - 1]), buf[|buf| - 1])
  }

  /** The register once crc16 has consumed `buf`. */
  function Register(buf: seq<byte>): (r: bv32)
    ensures r < 0x10000
  {
    RegisterFrom(InitialRegister, buf)
  }

  /**
   * The number the low 16 bits of a register stand for: the value crc16
   * returns, since the register never leaves 16 bits. It is written as the
   * sum of those bits, not as the conversion `(r & 0xFFFF) as nat`: the
   * solver does not get from a bit-vector to an integer within the resource
   * limit, not even to the bound below 0x10000 or to the CRC of a concrete
   * frame, while it evaluates each bit test at once.
   */
  function Low16(r: bv32): (n: nat)
    ensures n < 0x10000
  {
    (if r & 0x0001 != 0 then 0x0001 else 0) + (if r & 0x0002 != 0 then 0x0002 else 0) +
    (if r & 0x0004 != 0 then 0x0004 else 0) + (if r & 0x0008 != 0 then 0x0008 else 0) +
    (if r & 0x0010 != 0 then 0x0010 else 0) + (if r & 0x0020 != 0 then 0x0020 else 0) +
    (if r & 0x0040 != 0 then 0x0040 else 0) + (if r & 0x0080 != 0 then 0x0080 else 0) +
    (if r & 0x0100 != 0 then 0x0100 else 0) + (if r & 0x0200 != 0 then 0x0200 else 0) +
    (if r & 0x0400 != 0 then 0x0400 else 0) + (if r & 0x0800 != 0 then 0x0800 else 0) +
    (if r & 0x1000 != 0 then 0x1000 else 0) + (if r & 0x2000 != 0 then 0x2000 else 0) +
    (if r & 0x4000 != 0 then 0x4000 else 0) + (if r & 0x8000 != 0 then 0x8000 else 0)
  }

  /** crc16(buf), as a number: always a 16-bit value. */
  function Crc16(buf: seq<byte>): (crc: nat)
    ensures crc < 0x10000
  {
    Low16(Register(buf))
  }

  lemma RegisterAppend(buf: seq<byte>, b: byte)
    ensures Register(buf + [b]) == UpdateByte(Register(buf), b)
  {
    assert (buf + [b])[..|buf|] == buf;
  }

  lemma RegisterPrefix(buf: seq<byte>, i: nat)
    requires i < |buf|
    ensures Register(buf[..i + 1]) == UpdateByte(Register(buf[..i]), buf[i])
  {
    assert buf[..i + 1][..i] == buf[..i];
  }

  /** Consuming `a + b` is consuming `a`, then `b` from where `a` left the register. */
  lemma {:induction false} RegisterFromAppend(start: bv32, a: seq<byte>, b: seq<byte>)
    ensures RegisterFrom(start, a + b) == RegisterFrom(RegisterFrom(start, a), b)
    decreases |b|
  {
    if b == [] {
      assert a + b == a;
    } else {
      assert (a + b)[..|a + b| - 1] == a + b[..|b| - 1];
      RegisterFromAppend(start, a, b[..|b| - 1]);
    }
  }

  /** Eight passes of the inner loop, written out one by one. */
  lemma UpdateByteUnrolled(register: bv32, b: byte)
    ensures UpdateByte(register, b) == ShiftRegister(ShiftRegister(ShiftRegister(ShiftRegister(
      ShiftRegister(ShiftRegister(ShiftRegister(ShiftRegister(register ^ Bits(b)))))))))
  {
    var x0 := register ^ Bits(b);
    var x1 := ShiftRegister(x0);
    var x2 := ShiftRegister(x1);
    var x3 := ShiftRegister(x2);
    var x4 := ShiftRegister(x3);
    var x5 := ShiftRegister(x4);
    var x6 := ShiftRegister(x5);
    var x7 := ShiftRegister(x6);
    assert ShiftTimes(x7, 1) == ShiftRegister(x7);
    assert ShiftTimes(x6, 2) == ShiftTimes(x7, 1);
    assert ShiftTimes(x5, 3) == ShiftTimes(x6, 2);
    assert ShiftTimes(x4, 4) == ShiftTimes(x5, 3);
    assert ShiftTimes(x3, 5) == ShiftTimes(x4, 4);
    assert ShiftTimes(x2, 6) == ShiftTimes(x3, 5);
    assert ShiftTimes(x1, 7) == ShiftTimes(x2, 6);
  }

  /**
   * One byte of a concrete CRC computation: if the register stands at
   * `before` after `buf`, it stands at `after` once `b` has been consumed.
   * Chains of these evaluate crc16 on the frames of the unit tests.
   */
  lemma CrcStep(start: bv32, buf: seq<byte>, b: byte, before: bv32, after: bv32)
    requires RegisterFrom(start, buf) == before
    requires ShiftRegister(ShiftRegister(ShiftRegister(ShiftRegister(
      ShiftRegister(ShiftRegister(ShiftRegister(ShiftRegister(before ^ Bits(b))))))))) == after
    ensures RegisterFrom(start, buf + [b]) == after
  {
    assert (buf + [b])[..|buf|] == buf;
    UpdateByteUnrolled(before, b);
  }

  /** Two pieces whose registers are known chain into the register of the whole. */
  lemma CrcSegments(start: bv32, a: seq<byte>, b: seq<byte>, middle: bv32, end: bv32)
    requires RegisterFrom(start, a) == middle
    requires RegisterFrom(middle, b) == end
    ensures RegisterFrom(start, a + b) == end
  {
    RegisterFromAppend(start, a, b);
  }

  /** The inner loop of crc16: eight shift-and-XOR passes over the register. */
  method ShiftByte(start: bv32) returns (register: bv32)
    ensures register == ShiftTimes(start, 8)
    ensures start < 0x10000 ==> register < 0x10000
  {
    register := start;
    for b := 0 to 8
      invariant ShiftTimes(register, 8 - b) == ShiftTimes(start, 8)
    {
      var lsb := register & 0x0001;
      register := (register >> 1) & 0x7ffff;
      if lsb != 0 {
        register := register ^ 0xa001;
      }
    }
  }

  /** crc16 as the source computes it, a loop over the buffer around the shifting loop. */
  method ComputeCrc16(buf: seq<byte>) returns (crc: nat)
    ensures crc == Crc16(buf)
    ensures crc == Low16(ModbusCrc(buf))
    ensures crc < 0x10000
  {
    var register: bv32 := 0xffff;
    for i := 0 to |buf|
      invariant register == Register(buf[..i])
    {
      register := register ^ Bits(buf[i]);
      register := ShiftByte(register);
      RegisterPrefix(buf, i);
    }
    assert buf[..|buf|] == buf;
    crc := Low16(register);
    Crc16IsModbus(buf);
  }

  // ---------------------------------------------------------------------------
  // CRC-16/MODBUS as the Modbus serial line guide describes it: XOR the byte
  // into the low byte of the 16-bit CRC register, then eight times shift right
  // and, when the bit shifted out was 1, XOR in 0xA001. There is no mask.

  function ModbusShift(crc: bv32): bv32
  {
    if crc & 1 == 1 then (crc >> 1) ^ 0xA001 else crc >> 1
  }

  function ModbusShifts(crc: bv32, n: nat): bv32
    decreases n
  {
    if n == 0 then crc else ModbusShifts(ModbusShift(crc), n - 1)
  }

  function ModbusCrc(buf: seq<byte>): bv32
  {
    if buf == [] then 0xFFFF
    else ModbusShifts(ModbusCrc(buf[..|buf| - 1]) ^ Bits(buf[|buf| - 1]), 8)
  }

  /** Below 0x10000 the 0x7ffff mask removes nothing: one pass is the Modbus shift. */
  lemma ShiftIsModbusShift(register: bv32)
    requires register < 0x10000
    ensures ShiftRegister(register) == ModbusShift(register)
  {
    assert register >> 1 < 0x8000;
    assert (register >> 1) & 0x7ffff == register >> 1;
    assert register & 0x0001 != 0 <==> register & 1 == 1;
  }

  lemma {:induction false} ShiftsAreModbusShifts(register: bv32, n: nat)
    requires register < 0x10000
    ensures ShiftTimes(register, n) == ModbusShifts(register, n)
    decreases n
  {
    if n > 0 {
      ShiftIsModbusShift(register);
      ShiftsAreModbusShifts(ShiftRegister(register), n - 1);
    }
  }

  /** crc16 computes CRC-16/MODBUS: the over-wide mask never matters. */
  lemma {:induction false} Crc16IsModbus(buf: seq<byte>)
    ensures Register(buf) == ModbusCrc(buf)
    ensures Crc16(buf) == Low16(ModbusCrc(buf))
    decreases |buf|
  {
    if buf != [] {
      var prefix := buf[..|buf| - 1];
      Crc16IsModbus(prefix);
      ShiftsAreModbusShifts(Register(prefix) ^ Bits(buf[|buf| - 1]), 8);
    }
  }
}
