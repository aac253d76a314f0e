/** The pure arithmetic of the driver (Core/Src/hdc1080.c): big-endian
    assembly of 16-bit register values, the serial-number shift formula and
    the raw-to-physical conversions. Shifts of unsigned values are written as
    multiplication and division by powers of two; the source's float
    arithmetic is modelled on exact reals, so rounding is not modelled. */
module Codec {
  import opened Registers

  /** `(uint16_t)hi << 8 | (uint16_t)lo`: the 16-bit value whose most
      significant byte travelled first; both bytes read back from it. */
  function BigEndian16(hi: Byte, lo: Byte): (r: U16)
    ensures r / 256 == hi as int && r % 256 == lo as int
  {
    hi as int * 256 + lo as int
  }

  /** `(fsid << 25) + (msid << 9) + (lsid >> 7)` on uint64_t, for three 16-bit
      fragments. The three terms do not overlap, so no sum carries and nothing
      wraps: the serial number is the bit string fsid . msid . lsid[15..7], and
      each fragment (the last one without its low seven bits) reads back from
      it. */
  function SerialNumber(fsid: U16, msid: U16, lsid: U16): (r: U64)
    ensures r < 0x200_0000_0000
    ensures r / 0x200_0000 == fsid
    ensures r / 0x200 % 0x1_0000 == msid
    ensures r % 0x200 == lsid / 0x80
  {
    var tail := lsid / 0x80;
    var upper := fsid * 0x1_0000 + msid;
    var r := upper * 0x200 + tail;
    assert r / 0x200 == upper && r % 0x200 == tail;
    assert upper % 0x1_0000 == msid;
    assert r / 0x200_0000 == fsid;
    r
  }

  /** `(raw / 65536.0) * 165.0 - 40.0`: degrees Celsius, within [-40, 125). */
  function Temperature(raw: U16): (t: real)
    ensures -40.0 <= t < 125.0
  {
    (raw as real / 65536.0) * 165.0 - 40.0
  }

  /** `raw / 65536.0`: relative humidity as a fraction, within [0, 1). */
  function Humidity(raw: U16): (h: real)
    ensures 0.0 <= h < 1.0
  {
    raw as real / 65536.0
  }

  /** Two serial numbers are equal exactly when their first and middle
      fragments are equal and their last fragments agree above bit 6. */
  lemma SerialNumberInjective(f: U16, m: U16, l: U16, f': U16, m': U16, l': U16)
    ensures SerialNumber(f, m, l) == SerialNumber(f', m', l') <==> f == f' && m == m' && l / 0x80 == l' / 0x80
  {
  }

  /** A larger raw value is a strictly higher temperature. */
  lemma TemperatureIncreasing(a: U16, b: U16)
    requires a < b
    ensures Temperature(a) < Temperature(b)
  {
  }

  /** A larger raw value is a strictly higher humidity. */
  lemma HumidityIncreasing(a: U16, b: U16)
    requires a < b
    ensures Humidity(a) < Humidity(b)
  {
  }

  /** The identity bytes of the sensor decode to the expected identifiers. */
  lemma IdentityBytes()
    ensures BigEndian16(0x54, 0x49) == ManufacturerId
    ensures BigEndian16(0x10, 0x50) == DeviceId
  {
  }

  /** The worked serial-number example: fragments 0x1234, 0x5678, 0x9ABC. */
  lemma SerialNumberExample()
    ensures SerialNumber(0x1234, 0x5678, 0x9ABC) == 0x24_68AC_F135
  {
  }
}
