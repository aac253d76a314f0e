/** The acquisition protocol hdc1080_data_get (Core/Src/hdc1080.c): read the
    acquisition mode, then run two trigger/delay/2-byte-read cycles
    (temperature, then humidity) in independent mode, or one
    trigger/delay/4-byte-read cycle in combined mode. Transport statuses are
    OR-accumulated; raw values are big-endian. */
module Acquisition {
  import opened Registers
  import opened Codec
  import opened Transport
  import opened ConfigState

  function WithTemperature(d: Reading, raw: U16): (d': Reading)
  {
    d.(tmpRaw := raw, tmp := Temperature(raw))
  }

  function WithHumidity(d: Reading, raw: U16): (d': Reading)
  {
    d.(humRaw := raw, hum := Humidity(raw))
  }

  /** What combined mode leaves in the sample when its cycle fails. */
  const Zeroed := Reading(0, 0, 0.0, 0.0)

  /** One cycle: write the register address `reg` to the device as a
      trigger, wait the conversion time, read `len` bytes from the device;
      both statuses are ORed into `ret`. */
  function CycleOn(b: Bus, ret: Status, reg: Byte, len: nat): (o: Outcome<seq<Byte>>)
    ensures |o.value| == len
  {
    var w := WriteOn(b, DeviceAddress, [reg]);
    var r := ReadOn(DelayOn(w.bus, ConversionTime), DeviceAddress, len);
    Outcome(r.bus, BitOr(BitOr(ret, w.ret), r.ret), r.value)
  }

  /** The temperature cycle of independent mode: two transport calls; the
      raw value and its conversion are stored only when the status
      accumulated so far is 0, and a non-zero status is never cleared. */
  function TemperaturePhase(b: Bus, ret: Status, d: Reading): (o: Outcome<Reading>)
    ensures o.bus.calls == b.calls + 2 && o.bus.cfg == b.cfg
    ensures ret != 0 ==> o.ret != 0
    ensures o.ret != 0 ==> o.value == d
  {
    CycleEffect(b, ret, RegTemperature, 2);
    var c := CycleOn(b, ret, RegTemperature, 2);
    Outcome(c.bus, c.ret, if c.ret == 0 then WithTemperature(d, BigEndian16(c.value[0], c.value[1])) else d)
  }

  /** The humidity cycle of independent mode, run whatever the temperature
      cycle returned; the humidity is stored only on a zero status. */
  function HumidityPhase(b: Bus, ret: Status, d: Reading): (o: Outcome<Reading>)
    ensures o.bus.calls == b.calls + 2 && o.bus.cfg == b.cfg
    ensures ret != 0 ==> o.ret != 0
    ensures o.ret != 0 ==> o.value == d
  {
    CycleEffect(b, ret, RegHumidity, 2);
    var c := CycleOn(b, ret, RegHumidity, 2);
    Outcome(c.bus, c.ret, if c.ret == 0 then WithHumidity(d, BigEndian16(c.value[0], c.value[1])) else d)
  }

  /** The single cycle of combined mode: four bytes, temperature first; on a
      non-zero status the whole sample is zeroed. */
  function CombinedPhase(b: Bus, ret: Status, d: Reading): (o: Outcome<Reading>)
    ensures o.bus.calls == b.calls + 2 && o.bus.cfg == b.cfg
    ensures ret != 0 ==> o.ret != 0
    ensures o.ret != 0 ==> o.value == Zeroed
  {
    CycleEffect(b, ret, RegTemperature, 4);
    var c := CycleOn(b, ret, RegTemperature, 4);
    Outcome(c.bus, c.ret,
      if c.ret == 0 then
        WithHumidity(WithTemperature(d, BigEndian16(c.value[0], c.value[1])), BigEndian16(c.value[2], c.value[3]))
      else Zeroed)
  }

  /** hdc1080_data_get on the value of the context and of the sample. An
      acquisition issues the mode read and then at most two cycles, never
      changes the configuration register, and succeeds only if the mode read
      did; a sample it does not fill in stays as it was. */
  function DataGetSpec(b: Bus, d: Reading): (o: Outcome<Reading>)
    ensures b.calls < o.bus.calls <= b.calls + 5
    ensures o.bus.cfg == b.cfg
    ensures o.ret == 0 ==> b.status(b.calls) == 0
    ensures b.status(b.calls) != 0 ==> o.ret == b.status(b.calls) && o.value == d
  {
    var mg := GetSpec(b);
    var ret := BitOr(0, mg.ret);
    var mode := ModeOf(mg.value.mode);
    if ret == 0 && mode == TemperatureOrHumidity then
      var t := TemperaturePhase(mg.bus, ret, d);
      HumidityPhase(t.bus, t.ret, t.value)
    else if ret == 0 && mode == TemperatureAndHumidity then
      CombinedPhase(mg.bus, ret, d)
    else
      Outcome(mg.bus, ret, d)
  }

  /** The trigger/delay/read sequence that hdc1080_data_get issues once per
      conversion, with its `ret |=` accumulation. */
  method Cycle(ctx: Context, ret: Status, reg: Byte, len: nat) returns (ret': Status, rb: seq<Byte>)
    modifies ctx
    ensures var o := CycleOn(old(ctx.View()), ret, reg, len);
      ctx.View() == o.bus && ret' == o.ret && rb == o.value
  {
    var wb := reg;
    var st := ctx.Write(DeviceAddress, [wb]);
    ret' := BitOr(ret, st);
    ctx.Delay(ConversionTime);
    st, rb := ctx.Read(DeviceAddress, len);
    ret' := BitOr(ret', st);
  }

  /** hdc1080_data_get */
  method DataGet(ctx: Context, data: Sample) returns (ret: Status)
    modifies ctx, data
    ensures var o := DataGetSpec(old(ctx.View()), old(data.Value()));
      ctx.View() == o.bus && data.Value() == o.value && ret == o.ret
  {
    ret := 0;
    var st, mode := ModeGet(ctx);
    ret := BitOr(ret, st);
    ghost var mg := GetSpec(old(ctx.View()));
    var rb: seq<Byte> := [0, 0, 0, 0];
    if ret == 0 && mode == TemperatureOrHumidity {
      ghost var t := TemperaturePhase(mg.bus, ret, data.Value());
      ret, rb := Cycle(ctx, ret, RegTemperature, 2);
      if ret == 0 {
        data.tmpRaw := BigEndian16(rb[0], rb[1]);
        data.tmp := Temperature(data.tmpRaw);
      }
      assert ctx.View() == t.bus && ret == t.ret && data.Value() == t.value;
      ret, rb := Cycle(ctx, ret, RegHumidity, 2);
      if ret == 0 {
        data.humRaw := BigEndian16(rb[0], rb[1]);
        data.hum := Humidity(data.humRaw);
      }
    } else if ret == 0 && mode == TemperatureAndHumidity {
      ret, rb := Cycle(ctx, ret, RegTemperature, 4);
      if ret == 0 {
        data.tmpRaw := BigEndian16(rb[0], rb[1]);
        data.humRaw := BigEndian16(rb[2], rb[3]);
        data.tmp := Temperature(data.tmpRaw);
        data.hum := Humidity(data.humRaw);
      } else {
        data.tmp := 0.0;
        data.hum := 0.0;
        data.tmpRaw := 0;
        data.humRaw := 0;
      }
    }
  }

  /** What one cycle does, call by call: two transport calls (the trigger
      write and the read) around a delay; its status is 0 exactly when the
      incoming status and both call statuses are 0; byte `i` read is the
      oracle's byte `i` for the read call. */
  lemma CycleEffect(b: Bus, ret: Status, reg: Byte, len: nat)
    ensures var o := CycleOn(b, ret, reg, len);
      && o.bus.trace == b.trace + [Write(DeviceAddress, [reg]), Delay(ConversionTime), Read(DeviceAddress, len)]
      && o.bus.calls == b.calls + 2
      && o.bus.cfg == b.cfg && o.bus.status == b.status && o.bus.reply == b.reply
      && (o.ret == 0 <==> ret == 0 && b.status(b.calls) == 0 && b.status(b.calls + 1) == 0)
      && forall i | 0 <= i < len :: o.value[i] == b.reply(b.calls + 1, i)
  {
    forall i | 0 <= i < len
      ensures CycleOn(b, ret, reg, len).value[i] == b.reply(b.calls + 1, i)
    {
      ReplyAt(b.reply, b.calls + 1, len, i);
    }
  }

  /** When reading the acquisition mode fails, the driver issues nothing
      more, returns that status and leaves the sample untouched. */
  lemma ModeReadFailure(b: Bus, d: Reading)
    requires b.status(b.calls) != 0
    ensures var o := DataGetSpec(b, d);
      && o.ret == b.status(b.calls)
      && o.value == d
      && o.bus.trace == b.trace + [ReadReg(RegConfig, 2)]
      && o.bus.calls == b.calls + 1
      && o.bus.cfg == b.cfg
  {
  }

  /** Independent mode: after the mode read, a temperature cycle and a
      humidity cycle, always both. The status is 0 exactly when all five
      calls succeed. A failure in the temperature cycle leaves both values
      as they were, since the accumulated status stays non-zero; a failure
      in the humidity cycle alone leaves the new temperature in place. */
  lemma IndependentMode(b: Bus, d: Reading)
    requires b.status(b.calls) == 0
    requires ModeOf(Unpack(b.cfg).mode) == TemperatureOrHumidity
    ensures var o := DataGetSpec(b, d); var k := b.calls;
      && o.bus.trace == b.trace + [ReadReg(RegConfig, 2),
           Write(DeviceAddress, [RegTemperature]), Delay(ConversionTime), Read(DeviceAddress, 2),
           Write(DeviceAddress, [RegHumidity]), Delay(ConversionTime), Read(DeviceAddress, 2)]
      && o.bus.calls == k + 5
      && o.bus.cfg == b.cfg
      && (o.ret == 0 <==> forall j | k < j <= k + 4 :: b.status(j) == 0)
      && (o.ret == 0 ==>
            o.value == WithHumidity(WithTemperature(d, RawReply(b, k + 2, 0)), RawReply(b, k + 4, 0)))
      && (b.status(k + 1) != 0 || b.status(k + 2) != 0 ==> o.value == d)
      && (b.status(k + 1) == 0 && b.status(k + 2) == 0 && (b.status(k + 3) != 0 || b.status(k + 4) != 0) ==>
            o.value == WithTemperature(d, RawReply(b, k + 2, 0)))
  {
    var k := b.calls;
    var mg := GetSpec(b);
    CycleEffect(mg.bus, 0, RegTemperature, 2);
    var t := TemperaturePhase(mg.bus, 0, d);
    CycleEffect(t.bus, t.ret, RegHumidity, 2);
  }

  /** Combined mode: after the mode read, one cycle reading four bytes,
      temperature first. The status is 0 exactly when all three calls
      succeed; on success both values come from that one read, and on
      failure the whole sample is zeroed. */
  lemma CombinedMode(b: Bus, d: Reading)
    requires b.status(b.calls) == 0
    requires ModeOf(Unpack(b.cfg).mode) == TemperatureAndHumidity
    ensures var o := DataGetSpec(b, d); var k := b.calls;
      && o.bus.trace == b.trace + [ReadReg(RegConfig, 2),
           Write(DeviceAddress, [RegTemperature]), Delay(ConversionTime), Read(DeviceAddress, 4)]
      && o.bus.calls == k + 3
      && o.bus.cfg == b.cfg
      && (o.ret == 0 <==> b.status(k + 1) == 0 && b.status(k + 2) == 0)
      && (o.ret == 0 ==>
            var tr, hr := RawReply(b, k + 2, 0), RawReply(b, k + 2, 2);
            o.value == Reading(tr, hr, Temperature(tr), Humidity(hr)))
      && (o.ret != 0 ==> o.value == Zeroed)
  {
    var mg := GetSpec(b);
    CycleEffect(mg.bus, 0, RegTemperature, 4);
  }

  /** The status independent mode returns is C's `|` of the five call
      statuses, accumulated in call order into the initial 0. */
  lemma IndependentStatus(b: Bus, d: Reading)
    requires b.status(b.calls) == 0
    requires ModeOf(Unpack(b.cfg).mode) == TemperatureOrHumidity
    ensures var st, k := b.status, b.calls;
      DataGetSpec(b, d).ret
        == BitOr(BitOr(BitOr(BitOr(BitOr(0, st(k)), st(k + 1)), st(k + 2)), st(k + 3)), st(k + 4))
  {
  }

  /** The status combined mode returns is C's `|` of the three call
      statuses, accumulated in call order into the initial 0. */
  lemma CombinedStatus(b: Bus, d: Reading)
    requires b.status(b.calls) == 0
    requires ModeOf(Unpack(b.cfg).mode) == TemperatureAndHumidity
    ensures var st, k := b.status, b.calls;
      DataGetSpec(b, d).ret == BitOr(BitOr(BitOr(0, st(k)), st(k + 1)), st(k + 2))
  {
  }
}
