/** The device context (dev_ctx_t, Core/Inc/hdc1080.h) and its four transport
    calls (hdc1080_read_reg, hdc1080_write_reg, hdc1080_read, hdc1080_write
    in Core/Src/hdc1080.c) together with platform_delay. The platform functions
    behind them are not part of this model; they are an oracle: the n-th call
    answers with status `status(n)` and, where it reads, with bytes
    `reply(n, 0)`, `reply(n, 1)`, ... The sensor's configuration register is
    kept as state: a successful configuration-register read returns it and a
    successful two-byte configuration-register write replaces it. Every call
    and every delay is recorded in a trace. */
module Transport {
  import opened Registers
  import opened Codec

  /** One bus transaction or delay, as the driver issues it. */
  datatype Event =
    | ReadReg(reg: Byte, len: nat)
    | WriteReg(reg: Byte, bytes: seq<Byte>)
    | Read(addr: bv16, len: nat)
    | Write(addr: bv16, bytes: seq<Byte>)
    | Delay(ms: nat)

  /** The value of a context: the oracle, the number of transport calls made
      so far, the sensor's configuration register and the trace. */
  datatype Bus = Bus(
    status: nat -> Status,
    reply: (nat, nat) -> Byte,
    calls: nat,
    cfg: Register,
    trace: seq<Event>)

  /** What a call returns together with the context after it. */
  datatype Outcome<T> = Outcome(bus: Bus, ret: Status, value: T)

  /** The bytes the oracle supplies to the next call, when it reads `len`. */
  function Answer(b: Bus, len: nat): (data: seq<Byte>)
    ensures |data| == len
  {
    Replies(b.reply, b.calls, len)
  }

  /** The first `len` bytes the oracle supplies to call `n`. */
  function Replies(reply: (nat, nat) -> Byte, n: nat, len: nat): (data: seq<Byte>)
    ensures |data| == len
  {
    if len == 0 then [] else Replies(reply, n, len - 1) + [reply(n, len - 1)]
  }

  /** Bytes the next register read delivers: the configuration register
      itself when that read succeeds, otherwise whatever the oracle supplies
      (the source leaves its buffer uninitialised on failure). */
  function RegisterBytes(b: Bus, reg: Byte, len: nat): (data: seq<Byte>)
    ensures |data| == len
  {
    if b.status(b.calls) == 0 && reg == RegConfig && len == 2 then b.cfg
    else Answer(b, len)
  }

  /** Byte `i` of a read is the oracle's byte `i` for that call. */
  lemma {:induction false} ReplyAt(reply: (nat, nat) -> Byte, n: nat, len: nat, i: nat)
    requires i < len
    ensures Replies(reply, n, len)[i] == reply(n, i)
  {
    if i < len - 1 {
      ReplyAt(reply, n, len - 1, i);
    }
  }

  /** The big-endian value the oracle supplies in bytes `i` and `i + 1` of
      call `n`. */
  function RawReply(b: Bus, n: nat, i: nat): (w: U16)
  {
    BigEndian16(b.reply(n, i), b.reply(n, i + 1))
  }

  function Advance(b: Bus, e: Event): (b': Bus)
  {
    b.(calls := b.calls + 1, trace := b.trace + [e])
  }

  function ReadRegOn(b: Bus, reg: Byte, len: nat): (o: Outcome<seq<Byte>>)
  {
    Outcome(Advance(b, ReadReg(reg, len)), b.status(b.calls), RegisterBytes(b, reg, len))
  }

  function WriteRegOn(b: Bus, reg: Byte, bytes: seq<Byte>): (o: Outcome<()>)
  {
    var st := b.status(b.calls);
    var b' := Advance(b, WriteReg(reg, bytes));
    if st == 0 && reg == RegConfig && |bytes| == 2 then Outcome(b'.(cfg := bytes), st, ())
    else Outcome(b', st, ())
  }

  function ReadOn(b: Bus, addr: bv16, len: nat): (o: Outcome<seq<Byte>>)
  {
    Outcome(Advance(b, Read(addr, len)), b.status(b.calls), Answer(b, len))
  }

  function WriteOn(b: Bus, addr: bv16, bytes: seq<Byte>): (o: Outcome<()>)
  {
    Outcome(Advance(b, Write(addr, bytes)), b.status(b.calls), ())
  }

  function DelayOn(b: Bus, ms: nat): (b': Bus)
  {
    b.(trace := b.trace + [Delay(ms)])
  }

  /** dev_ctx_t: the handle and its transport functions, here the oracle. */
  class Context {
    const status: nat -> Status
    const reply: (nat, nat) -> Byte
    var calls: nat
    var cfg: Register
    ghost var trace: seq<Event>

    ghost function View(): Bus
      reads this
    {
      Bus(status, reply, calls, cfg, trace)
    }

    constructor (status: nat -> Status, reply: (nat, nat) -> Byte, cfg: Register)
      ensures View() == Bus(status, reply, 0, cfg, [])
    {
      this.status, this.reply := status, reply;
      this.calls, this.cfg := 0, cfg;
      this.trace := [];
    }

    /** hdc1080_read_reg */
    method ReadReg(reg: Byte, len: nat) returns (ret: Status, data: seq<Byte>)
      modifies this
      ensures var o := ReadRegOn(old(View()), reg, len);
        View() == o.bus && ret == o.ret && data == o.value
      ensures |data| == len
      ensures calls == old(calls) + 1 && ret == status(old(calls))
    {
      ret := status(calls);
      if ret == 0 && reg == RegConfig && len == 2 {
        data := cfg;
      } else {
        data := Replies(reply, calls, len);
      }
      calls := calls + 1;
      trace := trace + [Event.ReadReg(reg, len)];
    }

    /** hdc1080_write_reg */
    method WriteReg(reg: Byte, bytes: seq<Byte>) returns (ret: Status)
      modifies this
      ensures var o := WriteRegOn(old(View()), reg, bytes);
        View() == o.bus && ret == o.ret
      ensures calls == old(calls) + 1 && ret == status(old(calls))
    {
      ret := status(calls);
      if ret == 0 && reg == RegConfig && |bytes| == 2 {
        cfg := bytes;
      }
      calls := calls + 1;
      trace := trace + [Event.WriteReg(reg, bytes)];
    }

    /** hdc1080_read */
    method Read(addr: bv16, len: nat) returns (ret: Status, data: seq<Byte>)
      modifies this
      ensures var o := ReadOn(old(View()), addr, len);
        View() == o.bus && ret == o.ret && data == o.value
      ensures |data| == len
      ensures calls == old(calls) + 1 && ret == status(old(calls))
      ensures data == Replies(reply, old(calls), len)
    {
      ret := status(calls);
      data := Replies(reply, calls, len);
      calls := calls + 1;
      trace := trace + [Event.Read(addr, len)];
    }

    /** hdc1080_write */
    method Write(addr: bv16, bytes: seq<Byte>) returns (ret: Status)
      modifies this
      ensures var o := WriteOn(old(View()), addr, bytes);
        View() == o.bus && ret == o.ret
      ensures calls == old(calls) + 1 && ret == status(old(calls))
    {
      ret := status(calls);
      calls := calls + 1;
      trace := trace + [Event.Write(addr, bytes)];
    }

    /** platform_delay: a recorded wait, not elapsed time. */
    method Delay(ms: nat)
      modifies this
      ensures View() == DelayOn(old(View()), ms)
      ensures calls == old(calls)
    {
      trace := trace + [Event.Delay(ms)];
    }
  }
}
