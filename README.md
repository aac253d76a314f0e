# HDC1080 driver model

A Dafny model of the HDC1080 temperature/humidity sensor driver
(`Core/Src/hdc1080.c`, `Core/Inc/hdc1080.h`). The driver sits on a
register-addressed two-wire bus behind a device context (`dev_ctx_t`) with four
transport functions. It reads and writes the configuration register
(soft reset, heater, battery status, acquisition mode, resolutions), runs the
measurement protocol (`hdc1080_data_get`) and reads the identity registers.

Modules, one per part of the driver:

- `Registers`: the register map and constants, the configuration-register
  bitfields (`hdc1080_cfg_t`) and their two-byte wire image, and the enums.
  It also holds the measurement record (`hdc1080_data_t`, the `Sample` class)
  and the status type with C's `|`.
- `Codec`: the pure arithmetic. This is big-endian assembly, the serial-number
  shift formula and the raw-to-physical conversions.
- `Transport`: the device context as a class (`Context`) and its four
  transport calls plus `platform_delay`. The platform functions behind them
  are an oracle: the n-th call returns status `status(n)` and bytes
  `reply(n, 0)`, `reply(n, 1)`, and so on.
  - The sensor's configuration register is kept as state. A successful
    two-byte read of it returns the stored bytes. A successful two-byte
    write replaces them.
  - Every call and delay is recorded in a ghost trace.
  - `View()` gives the context's value (`Bus`).
- `ConfigState`: the four setters (read, change field(s), write back) and the
  four getters (read, decode one field).
- `Acquisition`: `hdc1080_data_get` in both acquisition modes.
  - The write/delay/read sequence it issues once per conversion is the
    method `Cycle`. The C code writes that sequence out three times.
- `Identity`: manufacturer, device and serial identifiers.

Every method that talks to the bus is proved equal to a function on `Bus`:
`SetSpec`, `GetSpec`, `DataGetSpec`, `IdSpec` and `SidSpec`. The protocol
properties are lemmas about those functions: traces, statuses, values
delivered and round trips.

Modelling choices:

- A status (`int32_t`) is its 32-bit pattern, read as an unsigned number;
  `BitOr` is C's `|` on it.
- `uint16_t` and `uint64_t` values are bounded integers; bytes are `bv8`.
- The configuration bitfields are laid out least-significant bit first in
  byte 0, which travels first on the wire:
  - hres = bits 0-1, tres = 2, btst = 3, mode = 4, heat = 5, notused2 = 6,
    rst = 7;
  - byte 1 is `notused1`.

## Model

| member | source | states |
|---|---|---|
| Registers.Unpack | Core/Inc/hdc1080.h:49-59 | every two-byte image is the wire image of exactly the configuration whose fields are its masked bits |
| Registers.Pack | Core/Inc/hdc1080.h:49-59 | each field of the configuration lies under its own mask of byte 0 (hres bits 0-1 up to rst bit 7); notused1 is byte 1 |
| Registers.UnpackPack | Core/Inc/hdc1080.h:49-59 | packing a configuration and reading it back gives every field back |
| Registers.EightBitIsElevenBit | Core/Inc/hdc1080.h:106-111 | the 8-bit and 11-bit humidity names are one value, code 1; no humidity resolution has code 2 or 3 |
| Registers.OrBits | Core/Src/hdc1080.c:86 | the OR of the low n bits fits in n bits |
| Registers.OrBitsZero | Core/Src/hdc1080.c:86 | two patterns OR to zero exactly when both are zero |
| Registers.OrBitsZeroLeft | Core/Src/hdc1080.c:82-86 | zero ORed with a pattern is that pattern |
| Registers.BitAt | Core/Src/hdc1080.c:86 | bit i of a value is 0 or 1 |
| Registers.OrBitsBit | Core/Src/hdc1080.c:86 | each of the low n bits of the result is set exactly when that bit is set in either operand: OrBits is C's bitwise OR |
| Registers.BitsDetermine | Core/Src/hdc1080.c:86 | two n-bit values with the same bits are equal, so the bit-level law fixes the OR completely |
| Registers.BitOrBit | Core/Src/hdc1080.c:86-113 | every bit of the status OR is the OR of the two statuses' bits |
| Registers.BitOr | Core/Src/hdc1080.c:82-113 | C's bitwise OR on two statuses is 0 exactly when both are 0, so an accumulated status reports success only when every call succeeded; 0 ORed with a status gives that status |
| Registers.ResetCode | Core/Inc/hdc1080.h:61-65 | the code is 1 exactly for the soft reset and 0 for normal operation |
| Registers.HeaterCode | Core/Inc/hdc1080.h:70-74 | the code is 1 exactly when the heater is enabled |
| Registers.VoltageCode | Core/Inc/hdc1080.h:80-84 | the code is 1 exactly for a battery below 2.8 V |
| Registers.ModeCode | Core/Inc/hdc1080.h:89-93 | the code is 1 exactly for combined (TAH) acquisition |
| Registers.TmpResCode | Core/Inc/hdc1080.h:101-105 | the code is 1 exactly for 11-bit temperature resolution |
| Registers.HumResCode | Core/Inc/hdc1080.h:106-111 | the code is at most 1, and 1 exactly for the 11-bit (also called 8-bit) humidity resolution |
| Registers.Sample.constructor | Core/Inc/hdc1080.h:36-42 | a sample holds the four given values |
| Codec.BigEndian16 | Core/Src/hdc1080.c:95 | the first byte is the high byte and the second the low byte of the 16-bit value |
| Codec.SerialNumber | Core/Src/hdc1080.c:342 | the serial number fits in 41 bits; the first and middle fragments and the top nine bits of the last read back from it |
| Codec.Temperature | Core/Src/hdc1080.c:96 | a raw temperature converts to a value in [-40, 125) degrees Celsius |
| Codec.Humidity | Core/Src/hdc1080.c:105 | a raw humidity converts to a fraction in [0, 1) |
| Codec.SerialNumberInjective | Core/Src/hdc1080.c:342 | two serial numbers are equal exactly when their fragments agree, the last one above bit 6 |
| Codec.TemperatureIncreasing | Core/Src/hdc1080.c:96 | a larger raw value gives a strictly higher temperature |
| Codec.HumidityIncreasing | Core/Src/hdc1080.c:105 | a larger raw value gives a strictly higher humidity |
| Codec.IdentityBytes | Core/Inc/hdc1080.h:125-130 | bytes 54 49 and 10 50 read big-endian are the expected manufacturer and device identifiers |
| Codec.SerialNumberExample | Core/Src/hdc1080.c:342 | fragments 0x1234, 0x5678, 0x9ABC give 0x2468ACF135 |
| Transport.Answer | Core/Src/hdc1080.c:46-51 | a read delivers exactly the number of bytes asked for |
| Transport.Replies | Core/Src/hdc1080.c:46-51 | the oracle supplies exactly `len` bytes to a read |
| Transport.ReplyAt | Core/Src/hdc1080.c:46-51 | byte i of a read is the oracle's byte i for that call |
| Transport.Context.constructor | Core/Inc/hdc1080.h:16-24 | a fresh context has made no call and has an empty trace |
| Transport.Context.ReadReg | Core/Src/hdc1080.c:12-17 | one register read: the oracle's status, and the stored configuration bytes or the oracle's bytes |
| Transport.Context.WriteReg | Core/Src/hdc1080.c:29-34 | one register write: the oracle's status; a successful two-byte configuration write replaces the stored bytes |
| Transport.Context.Read | Core/Src/hdc1080.c:46-51 | one device read: the oracle's status and `len` oracle bytes |
| Transport.Context.Write | Core/Src/hdc1080.c:63-68 | one device write: the oracle's status, nothing stored |
| Transport.Context.Delay | Core/Src/hdc1080.c:70 | a delay is recorded and makes no transport call |
| ConfigState.SetSpec | Core/Src/hdc1080.c:189-195 | every setter (also lines 144-150, 258-264, 317-324) follows this protocol: a set succeeds exactly when both the read and the write return 0; the register then holds the bytes read with the setter's field(s) replaced, and after a failed set it is unchanged; the oracle is untouched |
| ConfigState.GetSpec | Core/Src/hdc1080.c:234 | a getter makes one two-byte configuration read and reports its status; on success it decodes the stored configuration |
| ConfigState.HeaterOf | Core/Src/hdc1080.c:166-173 | the heater value decoded is the one whose code is the heat bit |
| ConfigState.VoltageOf | Core/Src/hdc1080.c:211-218 | the battery value decoded is the one whose code is the btst bit |
| ConfigState.ModeOf | Core/Src/hdc1080.c:235-242 | the mode decoded is the one whose code is the mode bit |
| ConfigState.ThResOf | Core/Src/hdc1080.c:280-300 | 14-bit temperature exactly when tres is 0; 14-bit humidity exactly when hres is 0, and code 1 for every other hres |
| ConfigState.SoftReset | Core/Src/hdc1080.c:140-151 | behaves as the setter protocol with rst set to the argument |
| ConfigState.HeaterSet | Core/Src/hdc1080.c:185-196 | behaves as the setter protocol with heat set to the argument |
| ConfigState.ModeSet | Core/Src/hdc1080.c:254-265 | behaves as the setter protocol with mode set to the argument |
| ConfigState.ThResSet | Core/Src/hdc1080.c:313-325 | behaves as the setter protocol with tres and hres set to the argument |
| ConfigState.HeaterGet | Core/Src/hdc1080.c:161-175 | one configuration read; the heater value decoded from its heat bit, whatever the status |
| ConfigState.VoltageGet | Core/Src/hdc1080.c:206-220 | one configuration read; the battery status decoded from its btst bit, whatever the status |
| ConfigState.ModeGet | Core/Src/hdc1080.c:230-244 | one configuration read; the mode decoded from its mode bit, whatever the status |
| ConfigState.ThResGet | Core/Src/hdc1080.c:275-302 | one configuration read; both resolutions decoded from tres and hres, whatever the status |
| ConfigState.SetterProtocol | Core/Src/hdc1080.c:185-196 | a setter reads first. If the read fails, it writes nothing and returns that status. Otherwise it writes the bytes read with its field(s) replaced and returns the write's status |
| ConfigState.WriteBackFrame | Core/Src/hdc1080.c:189-193 | the write-back differs from the bytes read only under the setter's own mask; there it holds the argument's code |
| ConfigState.ResetFrame | Core/Src/hdc1080.c:144-148 | soft reset changes only bit 7 of byte 0 |
| ConfigState.HeaterFrame | Core/Src/hdc1080.c:189-193 | the heater setter changes only the heat bit |
| ConfigState.ModeFrame | Core/Src/hdc1080.c:258-262 | the mode setter changes only the mode bit |
| ConfigState.ResolutionFrame | Core/Src/hdc1080.c:317-322 | the resolution setter changes only tres and hres |
| ConfigState.ResolutionNeverEightBitCode | Core/Src/hdc1080.c:313-325 | the resolution setter never stores an hres code above 1 |
| ConfigState.SetThenGet | Core/Src/hdc1080.c:185-196 | after a successful set, a successful read returns the configuration read before with the setter's field(s) replaced. For the soft reset this holds for the model's device only: the real sensor clears rst by itself after the reset |
| ConfigState.HeaterRoundTrip | Core/Src/hdc1080.c:161-196 | the heater getter returns the value the heater setter stored |
| ConfigState.ModeRoundTrip | Core/Src/hdc1080.c:230-265 | the mode getter returns the mode the mode setter stored |
| ConfigState.ResolutionRoundTrip | Core/Src/hdc1080.c:275-325 | the resolution getter returns the resolutions stored; heat, mode and btst are as before |
| ConfigState.SetIdempotent | Core/Src/hdc1080.c:185-196 | setting the same value twice leaves the register as setting it once |
| Acquisition.CycleOn | Core/Src/hdc1080.c:89-92 | a conversion cycle delivers exactly the number of bytes asked for |
| Acquisition.TemperaturePhase | Core/Src/hdc1080.c:89-98 | the temperature cycle makes two calls and leaves the register alone; a non-zero incoming status stays non-zero; on a non-zero status the sample is untouched |
| Acquisition.HumidityPhase | Core/Src/hdc1080.c:98-107 | the humidity cycle makes two calls and leaves the register alone; a non-zero incoming status stays non-zero; on a non-zero status the sample is untouched |
| Acquisition.CombinedPhase | Core/Src/hdc1080.c:110-127 | the combined cycle makes two calls and leaves the register alone; a non-zero incoming status stays non-zero; on a non-zero status the sample is zeroed |
| Acquisition.DataGetSpec | Core/Src/hdc1080.c:86-128 | an acquisition makes between one and five calls and never changes the configuration register; it succeeds only if the mode read did; when the mode read fails, that status is returned and the sample is untouched |
| Acquisition.Cycle | Core/Src/hdc1080.c:89-92 | trigger write, conversion delay and read, each status ORed into `ret` |
| Acquisition.DataGet | Core/Src/hdc1080.c:80-130 | the acquisition protocol, on the context and on the sample |
| Acquisition.CycleEffect | Core/Src/hdc1080.c:89-92 | a cycle records write, delay, read in that order and makes two calls. Its status is 0 exactly when the incoming status and both calls are 0. It delivers the read call's bytes |
| Acquisition.ModeReadFailure | Core/Src/hdc1080.c:86-87 | if reading the mode fails, nothing more is issued, that status is returned and the sample is untouched |
| Acquisition.IndependentMode | Core/Src/hdc1080.c:87-107 | seven-event trace; status 0 exactly when all five calls succeed. Success stores both big-endian values. A temperature-cycle failure changes nothing, even though the humidity cycle is still issued. A humidity-cycle failure alone keeps the new temperature |
| Acquisition.IndependentStatus | Core/Src/hdc1080.c:82-107 | in independent mode the returned status is the bitwise OR of the five call statuses, accumulated in call order into the initial 0 |
| Acquisition.CombinedStatus | Core/Src/hdc1080.c:82-113 | in combined mode the returned status is the bitwise OR of the three call statuses, accumulated in call order into the initial 0 |
| Acquisition.CombinedMode | Core/Src/hdc1080.c:108-128 | four-event trace and one four-byte read, temperature first. Status 0 exactly when all three calls succeed. On failure the whole sample is zero |
| Identity.IdSpec | Core/Src/hdc1080.c:354-378 | an identity read makes one call and reports its status; for an identity register the value is the device's big-endian word |
| Identity.SidSpec | Core/Src/hdc1080.c:335-344 | the serial-number read makes three calls and reports the status of the last one only |
| Identity.ManufacturerIdGet | Core/Src/hdc1080.c:354-361 | one two-byte read of register 0xFE, assembled big-endian |
| Identity.DeviceIdGet | Core/Src/hdc1080.c:371-378 | one two-byte read of register 0xFF, assembled big-endian |
| Identity.SerialIdGet | Core/Src/hdc1080.c:335-344 | three fragment reads and the serial-number formula on the big-endian fragments |
| Identity.IdentityRead | Core/Src/hdc1080.c:354-361 | an identity read is one read; the status is that read's and the value the device's big-endian word |
| Identity.ExpectedIdentity | Core/Inc/hdc1080.h:125-131 | a device answering 54 49 / 10 50 yields 0x5449 / 0x1050 |
| Identity.SerialIdProtocol | Core/Src/hdc1080.c:335-344 | all three reads are always issued, in order; only the last status is returned; the fragments read back from the result |
| Identity.HostLoad | Core/Src/hdc1080.c:339-341 | the load as written: the low 16 bits are the byte-swapped fragment, the upper bits are stale |
| Identity.SerialNumberAsWritten | Core/Src/hdc1080.c:342 | the formula on uint64_t operands, modulo 2^64; on 16-bit operands it equals the serial-number formula |
| Identity.SerialByteOrderDiffers | Core/Src/hdc1080.c:339-342 | as written, bytes 12 34 / 56 78 / 9A BC do not give the serial number of fragments 0x1234 / 0x5678 / 0x9ABC |
| Identity.SerialDependsOnStaleBytes | Core/Src/hdc1080.c:337-342 | as written, a stale 1 in byte 2 of `fsid` changes the serial number for the same bytes read |

## Findings

| source | as written | input that shows it | evidently intended | confidence | as-written member | corrected member |
|---|---|---|---|---|---|---|
| Core/Src/hdc1080.c:337-342 | each serial fragment is read as two bytes into an uninitialised `uint64_t` through a `uint8_t *` cast. On a little-endian host the fragment comes out byte-swapped, and the six upper bytes keep stale contents; the stale bits that survive the shifts (bits 16-38 of `fsid`, 16-54 of `msid`, 16-63 of `lsid`) reach the result | fragments read as 12 34, 56 78, 9A BC with clean variables; or any bytes with a non-zero stale bit among bits 16-38 of `fsid` (e.g. byte 2, as `Identity.SerialDependsOnStaleBytes` uses) | each fragment is the big-endian 16-bit register value, as for the manufacturer and device identifiers, so that `(0x1234 << 25) + (0x5678 << 9) + (0x9ABC >> 7)` results | high for the stale upper bytes; for the byte order, it depends on a little-endian host; not executed | Identity.SerialByteOrderDiffers | Identity.SerialIdProtocol |

## Left out

- The demo application (`Core/Src/hdc1080_polling_data.c`) and the platform
  bus and delay functions. The platform functions are the oracle of
  `Transport.Context`; the delay is a trace event, not elapsed time.
- Floating point: temperature and humidity are exact reals, so the float
  rounding of the source is not modelled.
- The sensor itself: the model's device stores the configuration bytes it is
  written. It does not clear the reset bit after a soft reset, keep btst
  read-only, or heat. A write that returns a non-zero status leaves its
  register unchanged; the driver promises nothing about the sensor's
  register after a failed write, so `ConfigState.SetSpec`'s "unchanged after
  a failed set" holds for the model's device only. Only the configuration register is stateful; every
  other register read returns oracle bytes.
- Uninitialised locals after a failed read. The getters decode their `cfg`
  local whatever the read returned (Core/Src/hdc1080.c:164, 209, 233, 278),
  as do the identity getters with `tmp` (357, 374) and the serial-number
  getter with `fsid`, `msid`, `lsid` (338). In C these hold stale stack
  contents after a failure; the model delivers oracle bytes instead.
  `hdc1080_data_get` is not affected: its buffer `rb` is zero-initialised
  (line 84) and it never decodes `rb` after a non-zero status.
- Out-of-range enum values passed by a caller: the enums are datatypes, so
  every argument is one of the named values.
- Transfer lengths are not bounded to `uint16_t`; every length the driver
  passes is 1, 2 or 4.
- Identity.SerialIdGet: takes each fragment big-endian instead of the source's
  host-order load into an uninitialised 64-bit variable (see Findings;
  `Identity.HostLoad` and `Identity.SerialNumberAsWritten` model the load as
  written).
