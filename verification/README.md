# Orbit-Radio receive path and DAC output, in Dafny

A model of the logic that `Core/Src/main.c` of the Orbit-Radio satellite payload
firmware holds itself. The firmware reads telemetry text from an RS-485 link,
wraps each line as an APRS status report, frames it as AX.25 and sends it as
AFSK1200 tones through a four-bit resistor-ladder DAC. The model covers four
pieces of that file:

- **DAC output words** (`dac.dfy`, module `Dac`). At start-up the firmware
  precomputes, for each of the 16 sample codes, the set mask and the reset mask
  of the GPIO bit set/reset register (BSRR). `DAC_Write4` then writes a code with
  a single register store, indexing the tables with the low nibble of the code.
  A 32-bit register word is modelled as its two 16-bit halves. Each half is the
  set of pin numbers whose bit is one, so OR is union and `pin << 16` moves a pin
  into the reset half. The four pin numbers come from the board header, so they
  are parameters. They must be distinct and below 16. The firmware assumes that
  all four DAC pins are on port A (`Core/Src/main.c`, lines 63-64), and so does the model: the fast
  writer's store to `GPIOA` and the per-pin writes to each pin's own port act on
  one output register.
  The store's effect on the port follows the STM32 BSRR rule: the high half
  clears pins, the low half sets them, and set wins when a pin is named in both.
  The vendor pin writer (`HAL_GPIO_WritePin`) is modelled as one BSRR store of
  the pin, or of the pin shifted into the reset half. With that, the fast writer
  is compared with the per-pin writer kept in the `#else` branch, and code 8 is
  compared with the mid-scale writes made at GPIO start-up.
- **Line assembler** (`line_assembler.dfy`, module `LineAssembler`). This is the
  byte branch of the main loop over `rs485_msg` / `rs485_len`, with
  `LINE_BUF_SIZE` as the parameter `n`. A carriage return is ignored. A line
  feed, or any byte that arrives while `rs485_len >= LINE_BUF_SIZE - 2`, ends the
  line, and the triggering byte is then not stored. After a line ends, the buffer
  is cleared. `Run` folds this step over a byte stream. `Segments`, which cuts a
  string at its line feeds, is the independent reference the fold is checked
  against.
- **Status report** (`status_payload.dfy`, module `StatusPayload`). This models
  `snprintf(payload, 256, ">%s | Somaiya OrbitRadio-5 73", rs485_msg)`: the `%s`
  stops at the first NUL, and the result is cut to 255 characters. `ParseStatus`
  is the receiver-side inverse.
- **Sample timer reload** (`sample_timer.dfy`, module `SampleTimer`). This is
  the arithmetic of `TIM3_Init` in wrapping 32-bit unsigned integers. The timer
  clock is doubled when the APB1 prescaler is not 1. The period is
  `(tim_clk + 4800) / 9600`, clamped to at least 1, and the reload value is one
  less than the period.

`modem.dfy` (module `Modem`) composes the assembler with the report formatter.
`text.dfy` (module `Text`) holds the byte type, the control characters and
C-string reading.

The AX.25 frame assembler and the AFSK modulator are called from `main.c`, but
their code is not part of this model (see "Left out").

Two behaviours of the code that are easy to miss:

- The assembler also ends a line when the buffer fills, and it drops the byte
  that arrived at that moment.
- A NUL byte received inside a line is stored, but the `%s` conversion stops at
  it. The text after that NUL therefore never reaches the status report. `Format`
  and `FormatReadsCString` make this explicit.

## Model

| member | source | states |
|---|---|---|
| `Dac.SetMask` | Core/Src/main.c:84-98 | For distinct pins below 16, DAC pin i is in the set mask of code v exactly when bit i of v is one. The set mask names only DAC pins, and its reset half is empty. |
| `Dac.ResetMask` | Core/Src/main.c:84-98 | For distinct pins below 16, DAC pin i is in the reset half of code v's reset mask exactly when bit i of v is zero. Only DAC pins appear there, and the set half is empty. |
| `Dac.CodeMasks` | Core/Src/main.c:85-95 | The pin-by-pin if/else chain of the start-up loop body produces exactly the set and reset masks of the code. |
| `Dac.PrecomputeMasks` | Core/Src/main.c:82-100 | After the loop over codes 0..15, both tables have 16 entries, and entry v holds the set mask and the reset mask of code v. |
| `Dac.Index` | Core/Src/main.c:71 | The fast writer's table index `v & 0x0F` is always below 16 and equals v mod 16. |
| `Dac.Write4LowNibble` | Core/Src/main.c:66-71 | A code of 16 or more writes the same BSRR word as its low nibble. |
| `Dac.TableEntryOfCode` | Core/Src/main.c:71 | For tables built by the start-up loop, the entries at index `v & 0x0F` are the set mask and the reset mask of code v itself, whatever its high nibble. |
| `Dac.Write4` | Core/Src/main.c:66-71 | The word the fast writer stores for any code v is the set mask of v OR the reset mask of v. |
| `Dac.DriveDac` | Core/Src/main.c:66-71 | After the fast writer's single BSRR store, the four DAC pins present the low nibble of the code, and every other pin of the port keeps its previous level. |
| `Dac.EachPinDrivenOnce` | Core/Src/main.c:89-95 | In each stored word, every DAC pin appears in exactly one half: the set half when its code bit is one, the reset half when it is zero. |
| `Dac.SlowWrite4` | Core/Src/main.c:73-77 | The four per-pin writes of the alternative writer also leave the DAC showing the low nibble of the code, and touch no pin outside the DAC. |
| `Dac.InitMidScale` | Core/Src/main.c:321-324 | The start-up writes leave the DAC showing 8 and touch no pin outside the DAC. |
| `Dac.FastMatchesSlow` | Core/Src/main.c:66-79 | The single atomic store leaves the port register identical to the four per-pin writes of the alternative writer, for every previous register state and every code. |
| `Dac.MidScaleIsCode8` | Core/Src/main.c:320-325 | Code 8 sets only MSB and resets LSB, BIT_1 and BIT_2. The start-up writes give the same register as writing code 8, and the DAC then shows 8. |
| `Text.CStr` | Core/Src/main.c:157 | The string `%s` reads is the longest NUL-free prefix of the buffer. It stops just before the first NUL, and it is the whole buffer when there is none. |
| `LineAssembler.Cleared` | Core/Src/main.c:219-221 | After a line is handed on, the length is 0, every slot is NUL, and the buffer invariant holds again. |
| `LineAssembler.Feed` | Core/Src/main.c:144-226 | A carriage return changes nothing. A line feed, or a byte arriving at a full buffer, emits the stored bytes and clears the buffer; in the full case the byte is dropped. Any other byte is appended. The stored length stays at most `LINE_BUF_SIZE - 2`, so every store and the terminator land inside the buffer. |
| `LineAssembler.Run` | Core/Src/main.c:137-228 | Over any byte stream, the buffer invariant is kept. At most one line is emitted per byte, and every emitted line fits the capacity and holds no carriage return or line feed. |
| `LineAssembler.RunIgnoresCR` | Core/Src/main.c:144 | Feeding a stream gives the same lines and final buffer as feeding it with every carriage return removed. |
| `LineAssembler.RunSplitsAtNewlines` | Core/Src/main.c:145-226 | For a stream with no carriage return whose every line-feed-delimited segment fits in `LINE_BUF_SIZE - 2` bytes, the emitted lines are exactly the complete segments of the stored bytes followed by the stream. The buffer is left holding the unfinished last segment. |
| `LineAssembler.StreamLines` | Core/Src/main.c:137-228 | From a cleared buffer, a stream whose lines all fit is split exactly at its line feeds, with carriage returns removed. |
| `StatusPayload.Format` | Core/Src/main.c:156-157 | The report starts with the status identifier `>`, has at most 255 bytes and no NUL, and is a prefix of `>` + the line up to its first NUL + signature. It is the whole of that text exactly when the line up to its first NUL has at most 228 bytes; otherwise it has exactly 255 bytes. |
| `StatusPayload.FormatRoundTrip` | Core/Src/main.c:157 | A NUL-free line of at most 228 bytes is recovered exactly from its report by stripping `>` and the signature. |
| `StatusPayload.FormatReadsCString` | Core/Src/main.c:157 | Only the line up to its first NUL affects the report. |
| `Modem.StatusReports` | Core/Src/main.c:145-157 | Each line the stream ends gives one report, and each report is `Format` of its line, so `>`-led and at most 255 bytes, and exactly the first 255 bytes of `>` + C string + signature when the line holds more than 228 bytes before its first NUL. For any buffer size, each report whose line holds at most 228 bytes before its first NUL parses back to that part of the line. |
| `Modem.ReportsParseBack` | Core/Src/main.c:157 | Of the reports of any list of lines, each whose line holds at most 228 bytes before its first NUL parses back to that part of the line. |
| `Modem.ReportsCarryLines` | Core/Src/main.c:137-166 | For any buffer size, a NUL-free stream whose lines fit the buffer and hold at most 228 bytes gives one report per line-feed-terminated line. The i-th report parses back to the i-th line, with carriage returns removed. |
| `SampleTimer.TimerClock` | Core/Src/main.c:420-424 | The timer clock equals PCLK1 when the APB1 prescaler is 1. Otherwise it is twice PCLK1, taken modulo 2^32. |
| `SampleTimer.Period` | Core/Src/main.c:426-428 | The period is at least 1. Unless `tim_clk + 4800` wraps, no other positive whole number of cycles is closer to 1/9600 s. Once the clock reaches 4800 Hz, `period*9600` is within 4800 of the clock. When two periods are equally near, it is the longer one. |
| `SampleTimer.NearestPeriod` | Core/Src/main.c:427-428 | The rounded quotient `(tim_clk + 4800) / 9600`, clamped to 1, is no farther from the clock than any other positive period, and within 4800 of it for clocks of 4800 Hz or more. On a tie it is the longer period. |
| `SampleTimer.AutoReload` | Core/Src/main.c:430-432 | `Period - 1` never goes below zero. Unless the rounding sum wraps, reload+1 is the whole number of cycles closest to 1/9600 s, the longer one on a tie. The reload fits TIM3's 16-bit auto-reload register, so that reload+1 is the interrupt interval, exactly when the timer clock is below 629,150,400 Hz. |
| `SampleTimer.ConfiguredReload` | Core/Src/main.c:240-250 | With the 16 MHz internal oscillator and the undivided APB1 that `SystemClock_Config` selects, the reload value is 1666, so the timer fires every 1667 cycles, which is closer than 1666 cycles. |

## Left out

- `ax25_encode` and `afsk_Init`, `afsk_generate`, `afsk_start`, `afsk_stop`, `afsk_timer_tick`, `afsk_isBusy`, `afsk_getBitsRemaining`: their code is not part of this model. `StatusReports` stops at the payload handed to `ax25_encode`.
- `HAL_TIM_PeriodElapsedCallback`: it only forwards the interrupt to `afsk_timer_tick`.
- `SystemClock_Config`, `GPIO_Init` (except the DAC mid-scale writes), the `USART*_Init` routines, the timer start and the interrupt-controller setup: these are vendor-library configuration calls with no logic of their own. `ConfiguredReload` takes the two clock settings of `SystemClock_Config` as inputs: the 16 MHz internal oscillator and the undivided APB1.
- `HAL_UART_Receive`, `Debug_Print`, `DRA_Send`, `DRA_Init`, `RS485_SetReceive` and the LED toggle: serial and GPIO I/O. The received bytes are the input sequence of `Run`. Bytes that arrive while a report is being sent (the delays and the transmission, at least 800 ms) are not read, so they are not part of that sequence.
- The transmit sequence (the `HAL_Delay` waits, PTT on and off, the busy-wait with the 15 s `HAL_GetTick` timeout, the debug messages): it depends on wall-clock time and on the interrupt context.
- `Debug_PrintClocks` and `Error_Handler`: diagnostic printing and an endless LED blink.
- `Dac.ResetMask`: for a DAC pin 15, C evaluates `Pin << 16` in signed `int`, and the result 0x8000_0000 does not fit, so the C standard leaves it undefined. The model assumes the usual two's-complement result, bit 31, which resets pin 15.
- `LineAssembler.ValidSize`: buffer sizes above 65537 are excluded. With such a size the 16-bit `rs485_len` would wrap, and that case is not modelled.
- `SampleTimer.Period`: the nearest-period promise is stated only when `tim_clk + 4800` does not wrap past 2^32. No STM32 timer clock comes near that. The wrapped value itself is modelled.
- `SampleTimer.AutoReload`: as for `Period`, the nearest-interval promise is stated only when the rounding sum does not wrap. The 16-bit width of TIM3's auto-reload register is not modelled: the promise is about the 32-bit value written to `Init.Period`. That value is the hardware interval minus one only for timer clocks below 629,150,400 Hz, where it fits 16 bits. No STM32F4 timer clock reaches that.
- `SampleTimer.TimerClock`: only the five PPRE1 encodings that the vendor clock configuration writes are modelled. The three other encodings of an undivided APB1 would make the code double the clock, and they are not represented.
