/** The identity getters of Core/Src/hdc1080.c: hdc1080_mid_get and
    hdc1080_did_get read one two-byte register and assemble it big-endian;
    hdc1080_sid_get reads the three serial-number fragments, always all three,
    and combines them with the serial-number shift formula. */
module Identity {
  import opened Registers
  import opened Codec
  import opened Transport

  /** hdc1080_mid_get / hdc1080_did_get on the value of the context: the
      value is assembled whatever the read returned. */
  function IdSpec(b: Bus, reg: Byte): (o: Outcome<U16>)
    ensures o.ret == b.status(b.calls)
    ensures o.bus.calls == b.calls + 1 && o.bus.cfg == b.cfg
    ensures reg != RegConfig ==> o.value == RawReply(b, b.calls, 0)
  {
    var rd := ReadRegOn(b, reg, 2);
    ReplyAt(b.reply, b.calls, 2, 0);
    ReplyAt(b.reply, b.calls, 2, 1);
    Outcome(rd.bus, rd.ret, BigEndian16(rd.value[0], rd.value[1]))
  }

  /** hdc1080_sid_get on the value of the context: three fragment reads in
      order, each status overwriting the previous one. */
  function SidSpec(b: Bus): (o: Outcome<U64>)
    ensures o.ret == b.status(b.calls + 2)
    ensures o.bus.calls == b.calls + 3 && o.bus.cfg == b.cfg
  {
    var f := ReadRegOn(b, RegSerialFirst, 2);
    var m := ReadRegOn(f.bus, RegSerialMid, 2);
    var l := ReadRegOn(m.bus, RegSerialLast, 2);
    Outcome(l.bus, l.ret,
      SerialNumber(BigEndian16(f.value[0], f.value[1]), BigEndian16(m.value[0], m.value[1]),
        BigEndian16(l.value[0], l.value[1])))
  }

  /** hdc1080_mid_get */
  method ManufacturerIdGet(ctx: Context) returns (ret: Status, val: U16)
    modifies ctx
    ensures var o := IdSpec(old(ctx.View()), RegManufacturerId);
      ctx.View() == o.bus && ret == o.ret && val == o.value
  {
    var tmp;
    ret, tmp := ctx.ReadReg(RegManufacturerId, 2);
    val := BigEndian16(tmp[0], tmp[1]);
  }

  /** hdc1080_did_get */
  method DeviceIdGet(ctx: Context) returns (ret: Status, val: U16)
    modifies ctx
    ensures var o := IdSpec(old(ctx.View()), RegDeviceId);
      ctx.View() == o.bus && ret == o.ret && val == o.value
  {
    var tmp;
    ret, tmp := ctx.ReadReg(RegDeviceId, 2);
    val := BigEndian16(tmp[0], tmp[1]);
  }

  /** hdc1080_sid_get, with each fragment taken big-endian (see
      HostLoad for the load the source performs). */
  method SerialIdGet(ctx: Context) returns (ret: Status, val: U64)
    modifies ctx
    ensures var o := SidSpec(old(ctx.View()));
      ctx.View() == o.bus && ret == o.ret && val == o.value
  {
    var fsid, msid, lsid;
    ret, fsid := ctx.ReadReg(RegSerialFirst, 2);
    ret, msid := ctx.ReadReg(RegSerialMid, 2);
    ret, lsid := ctx.ReadReg(RegSerialLast, 2);
    val := SerialNumber(BigEndian16(fsid[0], fsid[1]), BigEndian16(msid[0], msid[1]),
      BigEndian16(lsid[0], lsid[1]));
  }

  /** An identity read is one two-byte register read; the status is that
      read's and the value is the big-endian word the device supplied. */
  lemma IdentityRead(b: Bus, reg: Byte)
    requires reg == RegManufacturerId || reg == RegDeviceId
    ensures var o := IdSpec(b, reg);
      && o.ret == b.status(b.calls)
      && o.value == RawReply(b, b.calls, 0)
      && o.bus.trace == b.trace + [ReadReg(reg, 2)]
      && o.bus.calls == b.calls + 1
      && o.bus.cfg == b.cfg
  {
  }

  /** A device answering with the expected identity bytes reads back as the
      expected manufacturer and device identifiers. */
  lemma ExpectedIdentity(b: Bus, reg: Byte)
    requires reg == RegManufacturerId || reg == RegDeviceId
    requires reg == RegManufacturerId ==> b.reply(b.calls, 0) == 0x54 && b.reply(b.calls, 1) == 0x49
    requires reg == RegDeviceId ==> b.reply(b.calls, 0) == 0x10 && b.reply(b.calls, 1) == 0x50
    ensures IdSpec(b, reg).value == if reg == RegManufacturerId then ManufacturerId else DeviceId
  {
    IdentityRead(b, reg);
    IdentityBytes();
  }

  /** The serial-number read always issues all three fragment reads, in
      order, and reports the status of the last one only: a failure of the
      first or second read is not reported. The serial number is assembled
      from the three big-endian fragments, and the first and middle fragments
      and the top nine bits of the last read back from it. */
  lemma SerialIdProtocol(b: Bus)
    ensures var o := SidSpec(b); var k := b.calls;
      && o.bus.trace == b.trace + [ReadReg(RegSerialFirst, 2), ReadReg(RegSerialMid, 2), ReadReg(RegSerialLast, 2)]
      && o.bus.calls == k + 3
      && o.bus.cfg == b.cfg
      && o.ret == b.status(k + 2)
      && o.value == SerialNumber(RawReply(b, k, 0), RawReply(b, k + 1, 0), RawReply(b, k + 2, 0))
      && o.value / 0x200_0000 == RawReply(b, k, 0)
      && o.value / 0x200 % 0x1_0000 == RawReply(b, k + 1, 0)
      && o.value % 0x200 == RawReply(b, k + 2, 0) / 0x80
  {
    var k := b.calls;
    ReplyAt(b.reply, k, 2, 0);
    ReplyAt(b.reply, k, 2, 1);
    ReplyAt(b.reply, k + 1, 2, 0);
    ReplyAt(b.reply, k + 1, 2, 1);
    ReplyAt(b.reply, k + 2, 2, 0);
    ReplyAt(b.reply, k + 2, 2, 1);
  }

  // The serial-number load as the source writes it.

  /** Two bytes read into a uint64_t through a `uint8_t *` cast, on a
      little-endian host: byte 0 lands in the least significant byte and the
      other six bytes keep whatever the uninitialised variable held
      (`upper`). The low sixteen bits are the byte-swapped fragment. */
  function HostLoad(bytes: seq<Byte>, upper: nat): (r: U64)
    requires |bytes| == 2 && upper < 0x1_0000_0000_0000
    ensures r % 0x1_0000 == BigEndian16(bytes[1], bytes[0])
    ensures r / 0x1_0000 == upper
  {
    var low := BigEndian16(bytes[1], bytes[0]);
    low + upper * 0x1_0000
  }

  /** `(fsid << 25) + (msid << 9) + (lsid >> 7)` on three uint64_t values,
      modulo 2^64; on 16-bit values it is the serial-number formula. */
  function SerialNumberAsWritten(f: U64, m: U64, l: U64): (r: U64)
    ensures f < 0x1_0000 && m < 0x1_0000 && l < 0x1_0000 ==> r == SerialNumber(f, m, l)
  {
    (f * 0x200_0000 + m * 0x200 + l / 0x80) % 0x1_0000_0000_0000_0000
  }

  /** With clean variables, the fragments read as 12 34, 56 78, 9A BC give
      a different serial number from the big-endian fragments 0x1234,
      0x5678, 0x9ABC. */
  lemma SerialByteOrderDiffers()
    ensures SerialNumberAsWritten(HostLoad([0x12, 0x34], 0), HostLoad([0x56, 0x78], 0), HostLoad([0x9A, 0xBC], 0))
         != SerialNumber(0x1234, 0x5678, 0x9ABC)
  {
  }

  /** With the same bytes read, a stale upper byte in the first variable
      changes the serial number the source returns. */
  lemma SerialDependsOnStaleBytes()
    ensures SerialNumberAsWritten(HostLoad([0, 0], 1), HostLoad([0, 0], 0), HostLoad([0, 0], 0))
         != SerialNumberAsWritten(HostLoad([0, 0], 0), HostLoad([0, 0], 0), HostLoad([0, 0], 0))
  {
  }
}
