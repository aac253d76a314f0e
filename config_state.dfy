/** The configuration-register operations of Core/Src/hdc1080.c: four setters
    that read the two-byte register, overwrite their field(s) in the local
    copy and write the two bytes back, and four getters that read the
    register and decode one field. */
module ConfigState {
  import opened Registers
  import opened Transport

  /** What a setter writes: the argument of hdc1080_soft_rst,
      hdc1080_heater_set, hdc1080_mode_set or hdc1080_th_res_set. */
  datatype Setting =
    | ResetTo(r: Reset)
    | HeaterTo(h: Heater)
    | ModeTo(m: Mode)
    | ResolutionTo(res: ThRes)

  /** The local copy after the setter has overwritten its field(s). */
  function Apply(s: Setting, c: Config): (c': Config)
  {
    match s
    case ResetTo(r) => c.(rst := ResetCode(r))
    case HeaterTo(h) => c.(heat := HeaterCode(h))
    case ModeTo(m) => c.(mode := ModeCode(m))
    case ResolutionTo(res) => c.(tres := TmpResCode(res.tmpRes), hres := HumResCode(res.humRes))
  }

  /** The bits of byte 0 that a setter targets. */
  function FieldMask(s: Setting): (mask: Byte)
  {
    match s
    case ResetTo(_) => RstMask
    case HeaterTo(_) => HeatMask
    case ModeTo(_) => ModeMask
    case ResolutionTo(_) => TresMask | HresMask
  }

  /** The bits a setter places under its mask. */
  function FieldBits(s: Setting): (bits: Byte)
  {
    match s
    case ResetTo(r) => ResetCode(r) << 7
    case HeaterTo(h) => HeaterCode(h) << 5
    case ModeTo(m) => ModeCode(m) << 4
    case ResolutionTo(res) => (TmpResCode(res.tmpRes) << 2) | HumResCode(res.humRes)
  }

  /** The protocol of every setter: read the register; only if that read
      returned 0, write back the read bytes with the target field replaced.
      A set succeeds exactly when both calls do, and the register then holds
      the set value; after a failed set it is as it was. */
  function SetSpec(b: Bus, s: Setting): (o: Outcome<()>)
    ensures o.ret == 0 <==> b.status(b.calls) == 0 && b.status(b.calls + 1) == 0
    ensures o.ret == 0 ==> o.bus.cfg == Pack(Apply(s, Unpack(b.cfg)))
    ensures o.ret != 0 ==> o.bus.cfg == b.cfg
    ensures o.bus.status == b.status && o.bus.reply == b.reply
  {
    var rd := ReadRegOn(b, RegConfig, 2);
    if rd.ret == 0 then WriteRegOn(rd.bus, RegConfig, Pack(Apply(s, Unpack(rd.value))))
    else Outcome(rd.bus, rd.ret, ())
  }

  /** The protocol of every getter: read the register and decode the bytes
      whatever the read returned. */
  function GetSpec(b: Bus): (o: Outcome<Config>)
    ensures o.ret == b.status(b.calls)
    ensures o.bus.trace == b.trace + [ReadReg(RegConfig, 2)]
    ensures o.bus.cfg == b.cfg && o.bus.calls == b.calls + 1
    ensures o.ret == 0 ==> o.value == Unpack(b.cfg)
  {
    var rd := ReadRegOn(b, RegConfig, 2);
    Outcome(rd.bus, rd.ret, Unpack(rd.value))
  }

  // The getters' decoding. Each one-bit field has exactly the two values its
  // enum names, so the two branches of a getter cover every bit pattern.

  function HeaterOf(bit: Bit): (h: Heater)
    ensures HeaterCode(h) == bit
  {
    if bit == HeaterCode(HeaterDisable) then HeaterDisable else HeaterEnable
  }

  function VoltageOf(bit: Bit): (v: Voltage)
    ensures VoltageCode(v) == bit
  {
    if bit == VoltageCode(Above2V8) then Above2V8 else Below2V8
  }

  function ModeOf(bit: Bit): (m: Mode)
    ensures ModeCode(m) == bit
  {
    if bit == ModeCode(TemperatureOrHumidity) then TemperatureOrHumidity else TemperatureAndHumidity
  }

  /** hdc1080_th_res_get's decoding: 14-bit temperature exactly when tres is
      0; 14-bit humidity exactly when hres is 0, and the shared value 1 of
      the 11-bit and 8-bit names for any other hres. */
  function ThResOf(c: Config): (r: ThRes)
    ensures r.tmpRes == Tmp14Bit <==> c.tres == 0
    ensures TmpResCode(r.tmpRes) == c.tres
    ensures r.humRes == Hum14Bit <==> c.hres == 0
    ensures HumResCode(r.humRes) == if c.hres == 0 then 0 else 1
  {
    ThRes(
      if c.tres == TmpResCode(Tmp14Bit) then Tmp14Bit else Tmp11Bit,
      if c.hres == HumResCode(Hum14Bit) then Hum14Bit
      else if c.hres == HumResCode(Hum11Bit) then Hum11Bit
      else Hum8Bit)
  }

  /** hdc1080_soft_rst */
  method SoftReset(ctx: Context, val: Reset) returns (ret: Status)
    modifies ctx
    ensures var o := SetSpec(old(ctx.View()), ResetTo(val));
      ctx.View() == o.bus && ret == o.ret
  {
    var bytes;
    ret, bytes := ctx.ReadReg(RegConfig, 2);
    if ret == 0 {
      var cfg := Unpack(bytes);
      cfg := cfg.(rst := ResetCode(val));
      ret := ctx.WriteReg(RegConfig, Pack(cfg));
    }
  }

  /** hdc1080_heater_set */
  method HeaterSet(ctx: Context, val: Heater) returns (ret: Status)
    modifies ctx
    ensures var o := SetSpec(old(ctx.View()), HeaterTo(val));
      ctx.View() == o.bus && ret == o.ret
  {
    var bytes;
    ret, bytes := ctx.ReadReg(RegConfig, 2);
    if ret == 0 {
      var cfg := Unpack(bytes);
      cfg := cfg.(heat := HeaterCode(val));
      ret := ctx.WriteReg(RegConfig, Pack(cfg));
    }
  }

  /** hdc1080_mode_set */
  method ModeSet(ctx: Context, val: Mode) returns (ret: Status)
    modifies ctx
    ensures var o := SetSpec(old(ctx.View()), ModeTo(val));
      ctx.View() == o.bus && ret == o.ret
  {
    var bytes;
    ret, bytes := ctx.ReadReg(RegConfig, 2);
    if ret == 0 {
      var cfg := Unpack(bytes);
      cfg := cfg.(mode := ModeCode(val));
      ret := ctx.WriteReg(RegConfig, Pack(cfg));
    }
  }

  /** hdc1080_th_res_set: both resolution fields go out in one write. */
  method ThResSet(ctx: Context, val: ThRes) returns (ret: Status)
    modifies ctx
    ensures var o := SetSpec(old(ctx.View()), ResolutionTo(val));
      ctx.View() == o.bus && ret == o.ret
  {
    var bytes;
    ret, bytes := ctx.ReadReg(RegConfig, 2);
    if ret == 0 {
      var cfg := Unpack(bytes);
      cfg := cfg.(tres := TmpResCode(val.tmpRes));
      cfg := cfg.(hres := HumResCode(val.humRes));
      ret := ctx.WriteReg(RegConfig, Pack(cfg));
    }
  }

  /** hdc1080_heater_get */
  method HeaterGet(ctx: Context) returns (ret: Status, val: Heater)
    modifies ctx
    ensures var o := GetSpec(old(ctx.View()));
      ctx.View() == o.bus && ret == o.ret && val == HeaterOf(o.value.heat)
  {
    var bytes;
    ret, bytes := ctx.ReadReg(RegConfig, 2);
    var cfg := Unpack(bytes);
    if cfg.heat == HeaterCode(HeaterDisable) {
      val := HeaterDisable;
    } else if cfg.heat == HeaterCode(HeaterEnable) {
      val := HeaterEnable;
    }
  }

  /** hdc1080_voltage_get */
  method VoltageGet(ctx: Context) returns (ret: Status, val: Voltage)
    modifies ctx
    ensures var o := GetSpec(old(ctx.View()));
      ctx.View() == o.bus && ret == o.ret && val == VoltageOf(o.value.btst)
  {
    var bytes;
    ret, bytes := ctx.ReadReg(RegConfig, 2);
    var cfg := Unpack(bytes);
    if cfg.btst == VoltageCode(Above2V8) {
      val := Above2V8;
    } else if cfg.btst == VoltageCode(Below2V8) {
      val := Below2V8;
    }
  }

  /** hdc1080_mode_get */
  method ModeGet(ctx: Context) returns (ret: Status, val: Mode)
    modifies ctx
    ensures var o := GetSpec(old(ctx.View()));
      ctx.View() == o.bus && ret == o.ret && val == ModeOf(o.value.mode)
  {
    var bytes;
    ret, bytes := ctx.ReadReg(RegConfig, 2);
    var cfg := Unpack(bytes);
    if cfg.mode == ModeCode(TemperatureOrHumidity) {
      val := TemperatureOrHumidity;
    } else if cfg.mode == ModeCode(TemperatureAndHumidity) {
      val := TemperatureAndHumidity;
    }
  }

  /** hdc1080_th_res_get */
  method ThResGet(ctx: Context) returns (ret: Status, val: ThRes)
    modifies ctx
    ensures var o := GetSpec(old(ctx.View()));
      ctx.View() == o.bus && ret == o.ret && val == ThResOf(o.value)
  {
    var bytes;
    ret, bytes := ctx.ReadReg(RegConfig, 2);
    var cfg := Unpack(bytes);
    var tmpRes, humRes;
    if cfg.tres == TmpResCode(Tmp14Bit) {
      tmpRes := Tmp14Bit;
    } else {
      tmpRes := Tmp11Bit;
    }
    if cfg.hres == HumResCode(Hum14Bit) {
      humRes := Hum14Bit;
    } else if cfg.hres == HumResCode(Hum11Bit) {
      humRes := Hum11Bit;
    } else {
      humRes := Hum8Bit;
    }
    val := ThRes(tmpRes, humRes);
  }

  /** Every setter reads the register first. If the read fails it returns that
      status and writes nothing. Otherwise it issues exactly one write: the
      bytes it read with its field(s) replaced. */
  lemma SetterProtocol(b: Bus, s: Setting)
    ensures var o := SetSpec(b, s);
      var st := b.status(b.calls);
      var written := Pack(Apply(s, Unpack(b.cfg)));
      && (st != 0 ==>
            && o.ret == st
            && o.bus.trace == b.trace + [ReadReg(RegConfig, 2)]
            && o.bus.cfg == b.cfg)
      && (st == 0 ==>
            && o.ret == b.status(b.calls + 1)
            && o.bus.trace == b.trace + [ReadReg(RegConfig, 2), WriteReg(RegConfig, written)]
            && o.bus.cfg == if o.ret == 0 then written else b.cfg)
  {
  }

  /** On the wire, a setter's write differs from the bytes it read only under
      its own field mask: rst, heat, mode, or tres and hres together. btst,
      the unused bit and the whole second byte go back as read. */
  lemma WriteBackFrame(bytes: Register, s: Setting)
    ensures FrameHolds(bytes, s)
  {
    match s
    case ResetTo(r) => ResetFrame(bytes, r);
    case HeaterTo(h) => HeaterFrame(bytes, h);
    case ModeTo(m) => ModeFrame(bytes, m);
    case ResolutionTo(res) => ResolutionFrame(bytes, res);
  }

  /** The write-back image of `s` differs from `bytes` only under its mask. */
  ghost predicate FrameHolds(bytes: Register, s: Setting)
  {
    var out := Pack(Apply(s, Unpack(bytes)));
    && out[1] == bytes[1]
    && out[0] & !FieldMask(s) == bytes[0] & !FieldMask(s)
    && out[0] & FieldMask(s) == FieldBits(s)
  }

  // WriteBackFrame one setter at a time.

  lemma ResetFrame(bytes: Register, r: Reset)
    ensures FrameHolds(bytes, ResetTo(r))
  {
  }

  lemma HeaterFrame(bytes: Register, h: Heater)
    ensures FrameHolds(bytes, HeaterTo(h))
  {
  }

  lemma ModeFrame(bytes: Register, m: Mode)
    ensures FrameHolds(bytes, ModeTo(m))
  {
  }

  lemma ResolutionFrame(bytes: Register, res: ThRes)
    ensures FrameHolds(bytes, ResolutionTo(res))
  {
  }

  /** hdc1080_th_res_set never stores the code 2 in hres: the 8-bit humidity
      resolution cannot be selected through the driver. */
  lemma ResolutionNeverEightBitCode(c: Config, res: ThRes)
    ensures Apply(ResolutionTo(res), c).hres <= 1
  {
  }

  /** Reading the register after a successful set returns the set value:
      the bytes read before, with the setter's field(s) replaced. */
  lemma SetThenGet(b: Bus, s: Setting)
    requires SetSpec(b, s).ret == 0
    requires b.status(b.calls + 2) == 0
    ensures GetSpec(SetSpec(b, s).bus).value == Apply(s, Unpack(b.cfg))
  {
    SetterProtocol(b, s);
    UnpackPack(Apply(s, Unpack(b.cfg)));
  }

  /** Round trip through the heater getter. */
  lemma HeaterRoundTrip(b: Bus, h: Heater)
    requires SetSpec(b, HeaterTo(h)).ret == 0
    requires b.status(b.calls + 2) == 0
    ensures HeaterOf(GetSpec(SetSpec(b, HeaterTo(h)).bus).value.heat) == h
  {
    SetThenGet(b, HeaterTo(h));
  }

  /** Round trip through the mode getter. */
  lemma ModeRoundTrip(b: Bus, m: Mode)
    requires SetSpec(b, ModeTo(m)).ret == 0
    requires b.status(b.calls + 2) == 0
    ensures ModeOf(GetSpec(SetSpec(b, ModeTo(m)).bus).value.mode) == m
  {
    SetThenGet(b, ModeTo(m));
  }

  /** Round trip through the resolution getter, for every resolution value;
      the heater, mode and battery bits are those read before the set. */
  lemma ResolutionRoundTrip(b: Bus, res: ThRes)
    requires SetSpec(b, ResolutionTo(res)).ret == 0
    requires b.status(b.calls + 2) == 0
    ensures var c := GetSpec(SetSpec(b, ResolutionTo(res)).bus).value;
      && ThResOf(c) == res
      && c.heat == Unpack(b.cfg).heat
      && c.mode == Unpack(b.cfg).mode
      && c.btst == Unpack(b.cfg).btst
  {
    SetThenGet(b, ResolutionTo(res));
  }

  /** Setting a value twice leaves the register as setting it once. */
  lemma SetIdempotent(b: Bus, s: Setting)
    requires SetSpec(b, s).ret == 0
    ensures SetSpec(SetSpec(b, s).bus, s).bus.cfg == SetSpec(b, s).bus.cfg
  {
    SetterProtocol(b, s);
    var once := SetSpec(b, s).bus;
    SetterProtocol(once, s);
    UnpackPack(Apply(s, Unpack(b.cfg)));
  }
}
