/** Register map, configuration-register layout and enum encodings of the
    HDC1080 temperature/humidity sensor (Core/Inc/hdc1080.h).

    Layout assumption: the configuration register travels as two bytes, byte 0
    first on the wire (register bits 15..8). The bitfields of byte 0 are
    allocated least-significant bit first, in declaration order:
    hres = bits 0-1, tres = bit 2, btst = bit 3, mode = bit 4, heat = bit 5,
    notused2 = bit 6, rst = bit 7. Byte 1 is the unused field notused1. */
module Registers {

  type Byte = bv8

  /** An int32_t status as its 32-bit two's-complement pattern, read as an
      unsigned number: 0 is success, every other pattern an error code. */
  type Status = x: int | 0 <= x < 0x1_0000_0000

  function Pow2(n: nat): (p: nat)
    ensures p >= 1
  {
    if n == 0 then 1 else 2 * Pow2(n - 1)
  }

  /** C's `|` on the low `n` bits of two patterns, built from the least
      significant bit up; the result fits in `n` bits. */
  function OrBits(a: nat, b: nat, n: nat): (r: nat)
    ensures r < Pow2(n)
  {
    if n == 0 then 0
    else 2 * OrBits(a / 2, b / 2, n - 1) + (if a % 2 == 1 || b % 2 == 1 then 1 else 0)
  }

  lemma Pow2Of32()
    ensures Pow2(32) == 0x1_0000_0000
  {
    assert Pow2(8) == 0x100;
    assert Pow2(16) == 0x1_0000;
    assert Pow2(24) == 0x100_0000;
  }

  /** Two patterns OR to zero exactly when both are zero: an accumulated
      status reports success only when every call it collects succeeded. */
  lemma {:induction false} OrBitsZero(a: nat, b: nat, n: nat)
    requires a < Pow2(n) && b < Pow2(n)
    ensures OrBits(a, b, n) == 0 <==> a == 0 && b == 0
  {
    if n > 0 {
      OrBitsZero(a / 2, b / 2, n - 1);
    }
  }

  /** Zero is the identity of `|`. */
  lemma {:induction false} OrBitsZeroLeft(b: nat, n: nat)
    requires b < Pow2(n)
    ensures OrBits(0, b, n) == b
  {
    if n > 0 {
      OrBitsZeroLeft(b / 2, n - 1);
    }
  }

  /** `a | b` on two status patterns. The result is zero exactly when both
      patterns are zero, so an accumulated status reports success only when
      every call it collects succeeded; and zero is the identity of `|`. */
  function BitOr(a: Status, b: Status): (r: Status)
    ensures r == 0 <==> a == 0 && b == 0
    ensures a == 0 ==> r == b
  {
    Pow2Of32();
    OrBitsZero(a, b, 32);
    OrBitsZeroLeft(b, 32);
    OrBits(a, b, 32)
  }

  /** Bit `i` of `x`, counting from the least significant bit. */
  function BitAt(x: nat, i: nat): (bit: nat)
    ensures bit <= 1
  {
    if i == 0 then x % 2 else BitAt(x / 2, i - 1)
  }

  /** Bit by bit, OrBits is C's `|`: each of the low `n` bits of the result
      is set exactly when that bit is set in either operand. */
  lemma {:induction false} OrBitsBit(a: nat, b: nat, n: nat, i: nat)
    requires i < n
    ensures BitAt(OrBits(a, b, n), i) == if BitAt(a, i) == 1 || BitAt(b, i) == 1 then 1 else 0
  {
    if i > 0 {
      OrBitsBit(a / 2, b / 2, n - 1, i - 1);
    }
  }

  /** An `n`-bit value is determined by its bits, so the bit-level law
      above fixes `|` completely. */
  lemma {:induction false} BitsDetermine(x: nat, y: nat, n: nat)
    requires x < Pow2(n) && y < Pow2(n)
    requires forall i: nat | i < n :: BitAt(x, i) == BitAt(y, i)
    ensures x == y
  {
    if n > 0 {
      forall i: nat | i < n - 1
        ensures BitAt(x / 2, i) == BitAt(y / 2, i)
      {
        assert BitAt(x, i + 1) == BitAt(y, i + 1);
      }
      BitsDetermine(x / 2, y / 2, n - 1);
      assert BitAt(x, 0) == BitAt(y, 0);
    }
  }

  /** Every bit of `a | b` on two statuses is the OR of the operands' bits. */
  lemma BitOrBit(a: Status, b: Status, i: nat)
    requires i < 32
    ensures BitAt(BitOr(a, b), i) == if BitAt(a, i) == 1 || BitAt(b, i) == 1 then 1 else 0
  {
    OrBitsBit(a, b, 32, i);
  }

  /** The two bytes of the configuration register as they travel on the bus. */
  type Register = s: seq<Byte> | |s| == 2 witness [0, 0]

  /** A uint16_t value. */
  type U16 = x: int | 0 <= x < 0x1_0000

  /** A uint64_t value. */
  type U64 = x: int | 0 <= x < 0x1_0000_0000_0000_0000

  /** The value of a one-bit field. */
  type Bit = x: Byte | x <= 1

  /** The value of a two-bit field. */
  type Bits2 = x: Byte | x <= 3

  // Bus address, conversion time and measurement/configuration registers.
  const DeviceAddress: bv16 := 0x40
  const ConversionTime: nat := 20
  const RegTemperature: Byte := 0x00
  const RegHumidity: Byte := 0x01
  const RegConfig: Byte := 0x02

  // Identity registers and the expected identity values.
  const RegSerialFirst: Byte := 0xFB
  const RegSerialMid: Byte := 0xFC
  const RegSerialLast: Byte := 0xFD
  const ManufacturerId: U16 := 0x5449
  const RegManufacturerId: Byte := 0xFE
  const DeviceId: U16 := 0x1050
  const RegDeviceId: Byte := 0xFF

  /** hdc1080_cfg_t: the bitfields of the configuration register. */
  datatype Config = Config(
    hres: Bits2,
    tres: Bit,
    btst: Bit,
    mode: Bit,
    heat: Bit,
    notused2: Bit,
    rst: Bit,
    notused1: Byte)

  // Where each field of byte 0 lies, under the layout assumption above.
  const HresMask: Byte := 0x03
  const TresMask: Byte := 0x04
  const BtstMask: Byte := 0x08
  const ModeMask: Byte := 0x10
  const HeatMask: Byte := 0x20
  const NotUsed2Mask: Byte := 0x40
  const RstMask: Byte := 0x80

  /** The wire image of a configuration value: each field of byte 0 under
      its own mask, notused1 as byte 1. */
  function Pack(c: Config): (bytes: Register)
    ensures bytes[0] & HresMask == c.hres
    ensures bytes[0] & TresMask == c.tres << 2
    ensures bytes[0] & BtstMask == c.btst << 3
    ensures bytes[0] & ModeMask == c.mode << 4
    ensures bytes[0] & HeatMask == c.heat << 5
    ensures bytes[0] & NotUsed2Mask == c.notused2 << 6
    ensures bytes[0] & RstMask == c.rst << 7
    ensures bytes[1] == c.notused1
  {
    [ c.hres
      | (c.tres << 2)
      | (c.btst << 3)
      | (c.mode << 4)
      | (c.heat << 5)
      | (c.notused2 << 6)
      | (c.rst << 7),
      c.notused1 ]
  }

  /** The configuration value a two-byte wire image stands for; every wire
      image stands for exactly one configuration value. */
  function Unpack(bytes: Register): (c: Config)
    ensures Pack(c) == bytes
    ensures c.hres == bytes[0] & HresMask
    ensures (c.tres << 2) == bytes[0] & TresMask
    ensures (c.btst << 3) == bytes[0] & BtstMask
    ensures (c.mode << 4) == bytes[0] & ModeMask
    ensures (c.heat << 5) == bytes[0] & HeatMask
    ensures (c.notused2 << 6) == bytes[0] & NotUsed2Mask
    ensures (c.rst << 7) == bytes[0] & RstMask
    ensures c.notused1 == bytes[1]
  {
    var b := bytes[0];
    Config(
      b & 3,
      (b >> 2) & 1,
      (b >> 3) & 1,
      (b >> 4) & 1,
      (b >> 5) & 1,
      (b >> 6) & 1,
      (b >> 7) & 1,
      bytes[1])
  }

  /** Packing loses nothing: the fields come back from their wire image. */
  lemma UnpackPack(c: Config)
    ensures Unpack(Pack(c)) == c
  {
  }

  /** hdc1080_rst_t */
  datatype Reset = Normal | SoftReset

  /** hdc1080_heater_t */
  datatype Heater = HeaterDisable | HeaterEnable

  /** hdc1080_voltage_t: battery above (G_2V8) or below (L_2V8) 2.8 V. */
  datatype Voltage = Above2V8 | Below2V8

  /** hdc1080_mode_t: temperature or humidity acquired separately (TOH), or
      temperature and humidity acquired in sequence (TAH). */
  datatype Mode = TemperatureOrHumidity | TemperatureAndHumidity

  /** The temperature-resolution enum of hdc1080_th_res_t. */
  datatype TmpRes = Tmp14Bit | Tmp11Bit

  /** The humidity-resolution enum of hdc1080_th_res_t. The header gives its
      8-bit and 11-bit names the same value 1, so the enum has two values
      only, and Hum8Bit is another name for Hum11Bit. */
  datatype HumRes = Hum14Bit | Hum11Bit

  const Hum8Bit: HumRes := Hum11Bit

  /** hdc1080_th_res_t */
  datatype ThRes = ThRes(tmpRes: TmpRes, humRes: HumRes)

  // The numeric value of each enum constant.

  function ResetCode(r: Reset): (code: Bit)
    ensures code == 1 <==> r == SoftReset
  {
    match r
    case Normal => 0
    case SoftReset => 1
  }

  function HeaterCode(h: Heater): (code: Bit)
    ensures code == 1 <==> h == HeaterEnable
  {
    match h
    case HeaterDisable => 0
    case HeaterEnable => 1
  }

  function VoltageCode(v: Voltage): (code: Bit)
    ensures code == 1 <==> v == Below2V8
  {
    match v
    case Above2V8 => 0
    case Below2V8 => 1
  }

  function ModeCode(m: Mode): (code: Bit)
    ensures code == 1 <==> m == TemperatureAndHumidity
  {
    match m
    case TemperatureOrHumidity => 0
    case TemperatureAndHumidity => 1
  }

  function TmpResCode(t: TmpRes): (code: Bit)
    ensures code == 1 <==> t == Tmp11Bit
  {
    match t
    case Tmp14Bit => 0
    case Tmp11Bit => 1
  }

  /** The humidity-resolution value as stored in the 2-bit hres field. */
  function HumResCode(h: HumRes): (code: Bits2)
    ensures code <= 1
    ensures code == 1 <==> h == Hum11Bit
  {
    match h
    case Hum14Bit => 0
    case Hum11Bit => 1
  }

  /** The duplicate constant: the 8-bit and 11-bit settings are one value, so
      no humidity-resolution value has the code 2 or 3. */
  lemma EightBitIsElevenBit(h: HumRes)
    ensures Hum8Bit == Hum11Bit && HumResCode(Hum8Bit) == 1
    ensures HumResCode(h) <= 1
  {
  }

  /** hdc1080_data_t: two raw 16-bit register values and their conversions
      (the source's float fields are reals here). */
  datatype Reading = Reading(tmpRaw: U16, humRaw: U16, tmp: real, hum: real)

  /** The caller-owned measurement record that hdc1080_data_get fills in
      by reference. */
  class Sample {
    var tmpRaw: U16
    var humRaw: U16
    var tmp: real
    var hum: real

    function Value(): Reading
      reads this
    {
      Reading(tmpRaw, humRaw, tmp, hum)
    }

    constructor (r: Reading)
      ensures Value() == r
    {
      tmpRaw, humRaw, tmp, hum := r.tmpRaw, r.humRaw, r.tmp, r.hum;
    }
  }
}
