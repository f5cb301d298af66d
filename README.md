# Mitutoyo SPC frame acquisition, in Dafny

This project models the frame-acquisition engine of the Mitutoyo SPC caliper
reader firmware (`mitutoyo-spc.c`) and proves properties of it. The engine has
three parts:

- **the bit sampler**, `ISR(INT1_vect)`. On each falling clock edge it
  takes one level of the data line into a 13-slot buffer, least-significant
  bit first, four bits per slot. Once 52 bits are in, it only counts overruns
  in `flag`.
- **the scheduler**, the `switch (state)` in the main loop, run once per
  millisecond. It holds the request line high for 10 ticks (WAIT_FINISH). It
  then clears the buffer and the sampler's counters and drives the request
  line low (SEND_REQ). Last, it waits up to 250 ticks for a complete frame
  (WAIT_DATA). On a complete frame it decodes and prints it. On a timeout it
  prints "no data".
- **the decoder**, `decode`. It rejects a buffer whose slot 11 is not 2 and
  prints an error line with the raw bytes and the overrun count. Otherwise
  it prints the sign, the six digit slots with a decimal point, and the unit.

Modules:

- `Frame` (frame.dfy): the buffer as a pure function of the bits received
  (`Fill`), and its closed form, one nibble per slot.
- `Text` (text.dfy): `%d` and the `0x%02x ` dump, each with the reading back
  that recovers the value.
- `Decoder` (decoder.dfy): `Decode` to a datatype (a reading or an
  integrity error), `Render` to text, and `Line`, the text `decode` prints.
- `Scheduler` (scheduler.dfy): one tick of the state machine as a pure
  `Step` on the state, the 16-bit millisecond counter and the request line.
- `Acquisition` (engine.dfy): the firmware's shared variables as the class
  `Engine`. `Edge` is the interrupt handler and `Tick` is one pass of the loop
  body, and both update the fields in place. `Tick` runs one method per arm
  of the switch, and SEND_REQ clears `buf` with the firmware's own loop
  (`ClearBuffer`). Each method is proved against the pure functions above. A
  ghost field `received` records the bits taken since the last clearing, and
  `Valid` ties the buffer to `Fill(received)`.

Integer widths: `buf`, `clocks`, `byte_pos`, `bit_pos`, `delays` and `flag`
are `uint8_t`, and `ms_counter` is `uint16_t`. The model writes out the 8-bit
wrap of `flag++` and of `buf[byte_pos] += ...`, and the 16-bit wrap of
`ms_counter++`. It then proves that the buffer addition never wraps (every
slot stays at most 15). It also proves that the counter never gets near its
limit (it stays at most 250).

Two behaviours of the code are easy to miss, and the model keeps both.

- `flag` is never reset. SEND_REQ (mitutoyo-spc.c:130-133) clears `delays`,
  not `flag`. `Tick` keeps `flag`, and `Edge` only increments it, modulo 256.
- The digit loop (mitutoyo-spc.c:205-210) prints the point after slot `i`
  when `10 - i == buf[11]`. With `buf[11] == 2` the point follows slot 8, so the buffer
  `[0,0,0,0,0,1,2,3,4,5,6,2,0]` prints `" 1234.56 mm\n"`
  (`Decoder.ExampleReading`).

Some buffers are printed ambiguously. A digit slot holding 10 to 15 is
printed with `%d` as two characters, so only a line whose digit slots are
decimal digits reads back as the reading (`Decoder.ReadingRoundTrip`).

## Model

| member | source | states |
|---|---|---|
| `Frame.Put` | mitutoyo-spc.c:230-233 | One bit written at clock count `n` keeps the buffer's length. |
| `Frame.Fill` | mitutoyo-spc.c:227-240 | The buffer after any number of bits up to 52, taken into a cleared buffer, always has 13 slots. |
| `Frame.FillAppend` | mitutoyo-spc.c:227-233 | A normal edge adds exactly `1 << (n % 4)` to slot `n / 4` when the bit is set, and changes nothing when it is clear. No other slot changes, and the 8-bit addition never wraps (the sum is at most 15). |
| `Frame.FillIsNibbles` | mitutoyo-spc.c:227-240 | After any number of bits up to 52, every slot equals the closed-form nibble of its four bits. Bits that have not arrived count as 0. |
| `Frame.PackedFrame` | mitutoyo-spc.c:230-240 | After exactly 52 bits from a cleared buffer, slot k is `d[4k] + 2·d[4k+1] + 4·d[4k+2] + 8·d[4k+3]`, so it is at most 15. |
| `Text.Decimal` | mitutoyo-spc.c:195-206 | `%d` prints only the characters `0` to `9`. It prints at least one character, exactly one when the value is below 10, and no leading `0` when the value is 10 or more. |
| `Text.DecimalRoundTrip` | mitutoyo-spc.c:195 | The `%d` digits read back as the printed value. |
| `Text.Hex2` | mitutoyo-spc.c:193 | `%02x` prints exactly two lower-case hex digits, and they read back as the byte: `16·high + low == b`. |
| `Text.HexDump` | mitutoyo-spc.c:192-194 | The dump of n bytes is 5·n characters long. |
| `Text.HexDumpGroup` | mitutoyo-spc.c:192-194 | The i-th five characters of the dump are exactly `"0x"`, the two hex digits of byte i, and a space. |
| `Text.HexDumpRoundTrip` | mitutoyo-spc.c:192-194 | The `0x%02x ` dump reads back as the dumped bytes, in index order. |
| `Decoder.Decode` | mitutoyo-spc.c:170-217 | A buffer is rejected exactly when `buf[11] != 2`, and the error carries the whole buffer and `flag`. Otherwise the reading is negative exactly when `buf[4] == 8`. Its six digits are `buf[5]` to `buf[10]` in order, its point field is 2, and it is in millimetres exactly when `buf[12] == 0`. |
| `Decoder.Digits` | mitutoyo-spc.c:205-210 | The `%d` digits of a run of slots consist only of the characters `0` to `9`. |
| `Decoder.DigitsText` | mitutoyo-spc.c:205-210 | The digit loop from digit k on prints only `0` to `9` and `.`. It prints a point exactly when the point's place lies at or after digit k (`k + point <= 5`). |
| `Decoder.Render` | mitutoyo-spc.c:189-216 | Every decoded buffer prints a non-empty text that ends with a newline. The text starts with `-` or a space exactly when the buffer decoded to a reading. |
| `Decoder.Line` | mitutoyo-spc.c:189-216 | What `decode` prints is non-empty and ends with a newline. It starts with `-` or a space exactly when `buf[11] == 2`. |
| `Decoder.DigitsTextAfterPoint` | mitutoyo-spc.c:205-210 | Past the place of the point, the digit loop prints the digits alone. |
| `Decoder.DigitsTextPoint` | mitutoyo-spc.c:205-210 | For a point field p ≤ 5, the digit loop prints the first 6 - p digits, then a point, then the rest. Since `Digits` prints no `.`, that point is the only one. |
| `Decoder.ReadingLine` | mitutoyo-spc.c:198-216 | When `buf[11] == 2`, the line is `'-'` if `buf[4] == 8` and `' '` otherwise. Then come `buf[5]`..`buf[8]`, a point, `buf[9]` and `buf[10]`. It ends with `" mm\n"` if `buf[12] == 0` and `" in\n"` otherwise. |
| `Decoder.ReadingIgnoresFlag` | mitutoyo-spc.c:198-216 | A reading's line depends on the buffer only, not on the overrun count. |
| `Decoder.ExampleReading` | mitutoyo-spc.c:204-210 | The buffer `[0,0,0,0,0,1,2,3,4,5,6,2,0]` prints `" 1234.56 mm\n"`. |
| `Decoder.ErrorLine` | mitutoyo-spc.c:189-197 | When `buf[11] != 2`, the line is the error text, then exactly the hex dump of the 13 bytes in index order, then the label, then exactly `%d` of `flag`, then a newline. Reading the line back gives both the bytes and `flag`. |
| `Decoder.ReadingIffChecked` | mitutoyo-spc.c:189-216 | The line starts with a sign exactly when `buf[11] == 2`. When `buf[11] != 2`, the line does not parse as a reading. |
| `Decoder.ReadingRoundTrip` | mitutoyo-spc.c:198-216 | When the digit slots hold decimal digits, parsing the printed line gives back the decoded sign, digits and unit. |
| `Scheduler.InitialInv` | mitutoyo-spc.c:88-90 | The loop starts in WAIT_FINISH with the counter at 0, which satisfies the between-ticks invariant. |
| `Scheduler.Step` | mitutoyo-spc.c:103-160 | A tick prints at most one line, and only in WAIT_DATA. In WAIT_DATA a complete frame prints the decoded line and returns to WAIT_FINISH with the counter at 0 and the line high. SEND_REQ is entered only from WAIT_FINISH, with the counter at 0 and the line high. A tick never goes from WAIT_FINISH straight to WAIT_DATA. |
| `Scheduler.StepInv` | mitutoyo-spc.c:103-160 | Every tick keeps the invariant: the idle wait is under 10 ticks, a request starts at 0 with the line high, and the wait for data is 1 to 250 ticks with the line low. `ms_counter++` never wraps. |
| `Scheduler.StepState` | mitutoyo-spc.c:119-159 | WAIT_FINISH drives the line high and moves to SEND_REQ, with the counter at 0, exactly when the counter reaches 10. SEND_REQ always moves to WAIT_DATA with the line low. WAIT_DATA goes back to WAIT_FINISH exactly on a complete frame or on its 250th tick. Otherwise it stays, counting. |
| `Scheduler.StepEvents` | mitutoyo-spc.c:143-159 | A tick decodes exactly when WAIT_DATA sees 52 clocks. It prints "no data" exactly on WAIT_DATA's 250th tick without a frame. It never does both, and no other tick prints. |
| `Scheduler.IdleTicksPass` | mitutoyo-spc.c:119-126 | Idle ticks count up silently with the line high. |
| `Scheduler.WaitTicksPass` | mitutoyo-spc.c:143-159 | Waiting without a frame counts up silently with the line low, up to 250. |
| `Scheduler.RequestGoesOut` | mitutoyo-spc.c:119-141 | The tenth idle tick and the request tick bring the line low and the wait counter to 1. |
| `Scheduler.TimeoutFires` | mitutoyo-spc.c:154-158 | The tick after 250 ticks of waiting prints "no data" and goes back to the idle wait with the counter at 0. |
| `Scheduler.RequestAfterIdle` | mitutoyo-spc.c:119-141 | From the start of a cycle, 11 silent ticks bring the scheduler to the first tick of waiting for data. |
| `Scheduler.RequestThenWait` | mitutoyo-spc.c:119-141 | From the last idle tick, the request tick and then any further silent ticks run exactly like the wait for data starting at 1. |
| `Scheduler.TimeoutAfterWaiting` | mitutoyo-spc.c:143-159 | 250 ticks of waiting without a frame print "no data" once and go back to the idle wait. |
| `Scheduler.NoDataCycle` | mitutoyo-spc.c:103-160 | With no frame, a full cycle is 261 ticks. It prints "no data" once and comes back to the start with the counter at 0. |
| `Scheduler.NoDataNotEarly` | mitutoyo-spc.c:103-160 | Before the 261st tick of a cycle without a frame, nothing is printed. |
| `Acquisition.Engine.constructor` | mitutoyo-spc.c:70-90 | The variables start zeroed: `clocks`, `byte_pos`, `bit_pos`, `delays`, `flag` and all 13 slots. The scheduler starts in WAIT_FINISH with the counter at 0, and nothing is printed. |
| `Acquisition.EdgeWrite` | mitutoyo-spc.c:227-240 | While the counters satisfy `clocks == 4·byte_pos + bit_pos < 52` and `bit_pos < 4`, the write index `byte_pos` is at most 12 and the slot's 8-bit addition does not wrap. The write yields the buffer of one more bit. |
| `Acquisition.Engine.Edge` | mitutoyo-spc.c:219-242 | With 52 clocks already taken, an edge only increments `flag` (8-bit) and leaves the buffer and the counters as they are. Otherwise `clocks` grows by exactly 1, `byte_pos` is inside the buffer, and the open slot gains the bit's place value while no other slot changes. The invariant holds after every edge: `clocks == 4·byte_pos + bit_pos ≤ 52`, `bit_pos < 4`, and the buffer is `Fill` of the bits received. |
| `Acquisition.Engine.TakeBit` | mitutoyo-spc.c:226-241 | Below 52 clocks: `clocks` grows by 1, `buf[byte_pos]` gains `1 << bit_pos` exactly when the bit is set, every other slot stays, and the invariant is kept. |
| `Acquisition.Engine.AddBit` | mitutoyo-spc.c:230-233 | `buf[byte_pos] += 1 << bit_pos` when the bit is set, as an 8-bit addition. No other slot changes, and a clear bit changes nothing. |
| `Acquisition.Engine.ClearBuffer` | mitutoyo-spc.c:134-136 | All 13 slots become 0. |
| `Acquisition.Report` | mitutoyo-spc.c:143-159 | A tick prints one line per event, in order. A decoded frame prints `decode`'s line for the buffer and `flag`, and a timeout prints the "no data" line. |
| `Acquisition.TickReport` | mitutoyo-spc.c:143-159 | A tick prints `decode`'s line when WAIT_DATA sees a complete frame, the "no data" line on WAIT_DATA's 250th tick without one, and nothing otherwise. |
| `Acquisition.Engine.WaitFinishTick` | mitutoyo-spc.c:119-126 | The WAIT_FINISH arm moves the state, the counter and the request line as `Step` says, and keeps the invariant. |
| `Acquisition.Engine.SendReqTick` | mitutoyo-spc.c:128-141 | The SEND_REQ arm moves the scheduler as `Step` says. It zeroes `clocks`, `delays`, `byte_pos`, `bit_pos` and the buffer, and leaves `flag` alone. |
| `Acquisition.Engine.WaitDataTick` | mitutoyo-spc.c:143-159 | The WAIT_DATA arm moves the scheduler as `Step` says and prints `Step`'s events: the decoded line first, then the timeout test on the updated counter. |
| `Acquisition.Engine.Tick` | mitutoyo-spc.c:103-160 | The scheduler's variables move as `Step` says, and the lines printed are `Step`'s events rendered. SEND_REQ zeroes `clocks`, `byte_pos`, `bit_pos`, `delays` and all 13 slots, and keeps `flag`. Other states leave the sampler's variables alone. A decoded frame prints `Line` of `Fill` of its 52 bits. |

## Left out

- USB: the CDC descriptor, the stream setup, the byte drain and the USB
  tasks (mitutoyo-spc.c:95-96, 163-166) are library plumbing. The printed
  text is modelled as the list `output` of lines.
- Hardware setup and pin register writes: `SetupHardware` and the pin and
  LED helpers are not modelled. The request pin is the boolean `reqHigh`. It
  starts low, the port's reset level, until the first WAIT_FINISH tick.
- The LED blink counter (mitutoyo-spc.c:106-115) does not affect the
  engine's state.
- `_delay_ms(1)` and real time: a tick is one call of `Tick`.
- Preemption: a clock edge is taken as one atomic `Edge` between two ticks.
  An edge that lands in the middle of a tick is not modelled, including one
  during SEND_REQ's clearing of the buffer.
- The two banner lines printed before the loop (mitutoyo-spc.c:100-101).
- The `default:` label of the switch: `state` only ever holds one of the
  three states, so it is never taken.
- The overrun count is never reset by the firmware (see above). The model
  keeps that, so `flag` wraps modulo 256 after 256 overruns.
