# fl2k-psk in Dafny

fl2k-psk turns an FL2000 USB-to-VGA adapter into a DAC that sends out a sine carrier. The repository has two variants of the program:

- **fl2k-psk.cpp** builds a signed 8-bit transfer buffer from a hand-written sine table. There is one table per samplerate/carrier ratio (2, 4, 6, 8, 10). For ratio 4 the phase flips by 180 degrees every 40000 samples, which is the phase-shift keying. The pull callback hands out the whole buffer unchanged on every call.
- **fl2k-psk.c** fills a buffer of three blocks `[h, -h, h]`, where `h` is a rounded positive half sine wave of `FL2K_BUF_LEN` samples. The callback toggles a global phase between 180 and 0 degrees and hands out the block at offset `FL2K_BUF_LEN` or offset 0.

Both variants convert a carrier frequency into a sample rate (`freq * ratio` in `uint32_t`) and report the read-back rate divided by the ratio. Both also read the commands `u`, `d` and `q` from standard input.

Modules:

- `Machine` (machine.dfy): `int8_t` and `uint32_t` as subset types, with the C conversions written out.
- `RatioTable` (ratio_table.dfy): the `sines` tables of fl2k-psk.cpp and their properties.
- `TiledBuffer` (tiled_buffer.dfy): fl2k-psk.cpp's `init_txbuffer` loop and `fl2k_callback`.
- `HalfBuffer` (half_buffer.dfy): fl2k-psk.c's globals as a class, with its `init_txbuffer` and `fl2k_callback`.
- `Fl2k` (fl2k.dfy): the callback record `fl2k_data_info_t` and the device's sample-rate register.
- `Carrier` (carrier.dfy): `set_freq_carrier` and the command loop. These take the ratio as a parameter: SF_RATIO for the .cpp variant, 2 for the .c variant.
- `Programs` (programs.dfy): the two `main` functions.

Foreign parts and how they appear in the model:

- The hardware's answer to a rate request is a function `respond` fixed per device. It returns a rounded rate, or `None` when the device refuses the request; a refusal keeps the previous rate. `Fl2k.Applied` gives the rate in effect after a request under this assumption; it is an assumption about the device, not a proved property.
- Because `respond` depends on the requested rate alone, requesting the same carrier twice lands on the same rate (`Carrier.RetuneIdempotent`). This idempotence is an assumption about the device, not something the programs guarantee.
- The outcome of `fl2k_open` is the parameter `deviceOpened`.
- `FL2K_BUF_LEN` is the parameter `bufLen`.
- The half wave that fl2k-psk.c computes with `sin` is the parameter `half`, a sequence of values in [0, 127].
- Standard input is a `seq<char>`.
- In `Carrier.SetFreqCarrier`, `TiledBuffer.Supply` and `HalfBuffer.HalfBufferSupplier.Callback`, printed messages become returned values: the `warning` flags, and the `applied` and `carrier` values. `Carrier.CommandLoop` discards these values, so what it prints is not modelled.

Behaviour of the code worth knowing:

- **Ratio-4 buffer start.** `phase_shift` is already 2 when sample 0 is written, so the ratio-4 buffer starts with `0, -99, 0, 99`. It flips every 40000 samples (`TiledBuffer.PskStart`, `TiledBuffer.PskBlock`), so it is not one cycle repeated.
- **Truncated constants.** The `(int8_t)` casts truncate the table constants: 49 (from 49.5) and 30 (from 30.59).
- **The two blocks differ.** The two blocks fl2k-psk.c hands out are `-h` and `h`. The third block `[2N, 3N)` is allocated and written but never handed out (`HalfBuffer.OffsetInBounds`).
- **`q` skips shutdown.** `q` calls `exit(0)` without stopping the transfer or closing the device. Only the signal handler does stop-then-close.
- **Open failure in the .c variant.** In fl2k-psk.c the command loop runs even when `fl2k_open` failed.
- **Commands at even positions only.** After each command character, `cin.ignore()` discards one more character. Only the characters at even positions of the input are commands (`Carrier.OnlyEvenPositionsCount`).

## Model

| member | source | states |
|---|---|---|
| `RatioTable.ScaledSineValues` | fl2k-psk.cpp:57-60 | the four `(int8_t)(SIGNAL_MAX * SIN_x)` casts truncate to 70, 49, 30 and 80 |
| `RatioTable.Sines` | fl2k-psk.cpp:61-69 | a ratio is one of 2, 4, 6, 8, 10 exactly when its table holds at least one full period; any other ratio gets the empty vector `operator[]` creates |
| `RatioTable.TableBounds` | fl2k-psk.cpp:57-66 | every entry of every table lies in [SIGNAL_MIN, SIGNAL_MAX] = [-99, 99] |
| `RatioTable.TableIsMirroredHalfWave` | fl2k-psk.cpp:62-66 | each table equals, entry by entry, the periodic extension of an independent half-cycle followed by its negation |
| `RatioTable.OddSymmetry` | fl2k-psk.cpp:62-66 | `sines[R][k] == -sines[R][k + R/2]` wherever both indices exist |
| `RatioTable.PeriodicExtension` | fl2k-psk.cpp:62-66 | `sines[R][k + R] == sines[R][k]` wherever both indices exist |
| `RatioTable.SingleCrest` | fl2k-psk.cpp:62-66 | within the first period, SIGNAL_MAX occurs at index R/4 and nowhere else |
| `RatioTable.CycleSumZero` | fl2k-psk.cpp:62-66 | the first R entries of every table sum to 0 (the waveform is DC-free) |
| `RatioTable.OddSymmetricSumZero` | fl2k-psk.cpp:62-66 | any sequence whose second half negates its first half sums to zero |
| `TiledBuffer.PhaseShift` | fl2k-psk.cpp:70-75 | the value of `phase_shift` while sample i is written is 0 or 2, and non-zero only for ratio 4 |
| `TiledBuffer.IndexSafety` | fl2k-psk.cpp:70-75 | `(i % R) + phase_shift` is always inside `sines[R]` |
| `TiledBuffer.TiledSample` | fl2k-psk.cpp:70-75 | sample i of the buffer lies in [-99, 99] and is `sines[R][i % R]` or its negation |
| `TiledBuffer.BlockStep` | fl2k-psk.cpp:72-73 | the toggle at `i % 40000 == 0` is exactly where the 40000-sample block number goes up by one |
| `TiledBuffer.InitTxBuffer` | fl2k-psk.cpp:68-76 | allocates FL2K_BUF_LEN samples and fills sample i with `sines[R][(i % R) + phase_shift]`, where `phase_shift` is the value the toggling produces at i |
| `TiledBuffer.Supply` | fl2k-psk.cpp:47-54 | sets `sampletype_signed = 1` and `r_buf = tx_buffer` whether or not `device_error` is set; warns exactly on a device error; the buffer contents are unchanged |
| `TiledBuffer.PlainTiling` | fl2k-psk.cpp:69-76 | for R other than 4, `tx_buffer[i] == sines[R][i % R]`, and the buffer repeats after R samples |
| `TiledBuffer.ExactPeriod` | fl2k-psk.cpp:69-76 | for R other than 4, no shift shorter than R maps the tiled sequence onto itself; for a buffer this holds once it has at least R + R/4 samples, since the witness index is R/4 + p |
| `TiledBuffer.PskBlock` | fl2k-psk.cpp:70-75 | for R = 4, sample `40000*b + k` is `-sines[4][k % 4]` when b is even and `sines[4][k % 4]` when b is odd; each flip falls on a cycle boundary |
| `TiledBuffer.PskFlip` | fl2k-psk.cpp:70-75 | for R = 4, every 40000-sample block is the negation of the block before it |
| `TiledBuffer.PskStart` | fl2k-psk.cpp:70-75 | for R = 4, the buffer starts with 0, -99, 0, 99 |
| `TiledBuffer.PlayedAt` | fl2k-psk.cpp:47-54 | after k callbacks the sink has played sample j of the stream as `tx_buffer[j % N]` |
| `TiledBuffer.SeamlessStream` | fl2k-psk.cpp:47-76 | for R other than 4 and N a multiple of R, the stream of successive callbacks is `sines[R]` cycled, with no phase jump at any seam |
| `HalfBuffer.Mirrored` | fl2k-psk.c:48-53 | the layout `[h, -h, h]` that init_txbuffer writes is 3N samples long |
| `HalfBuffer.ThreeBlockLayout` | fl2k-psk.c:48-53 | the buffer holds h first, and satisfies `tx[i + N] == -tx[i]` and `tx[i + 2N] == tx[i]` |
| `HalfBuffer.HalfBufferSupplier.constructor` | fl2k-psk.c:15-16 | at program start there is no buffer and `phase_curr` is 0 |
| `HalfBuffer.HalfBufferSupplier.InitTxBuffer` | fl2k-psk.c:47-54 | allocates 3N samples and writes `[h, -h, h]`; the phase is untouched |
| `HalfBuffer.NextPhase` | fl2k-psk.c:40 | from 0 or 180, one update `(phase_curr + 180) % 360` lands on the other of the two |
| `HalfBuffer.Offset` | fl2k-psk.c:41 | `(phase_curr/180) * N` is 0 at phase 0 and N at phase 180 |
| `HalfBuffer.PhaseAlternates` | fl2k-psk.c:40 | `phase_curr` starts at 0 and after k callbacks is 180 when k is odd and 0 when k is even |
| `HalfBuffer.OffsetInBounds` | fl2k-psk.c:41-48 | `(phase_curr/180) * N` is 0 or N, so the N samples read from there lie inside the first 2N of the 3N allocated |
| `HalfBuffer.WindowAt` | fl2k-psk.c:40-52 | odd-numbered calls hand out -h and even-numbered calls hand out h |
| `HalfBuffer.WindowsAlternate` | fl2k-psk.c:40-52 | the block handed out by call k+1 is the elementwise negation of the block handed out by call k |
| `HalfBuffer.PlayedAt` | fl2k-psk.c:34-52 | the concatenated stream is -h, h, -h, ...: sample j is `-h[j % N]` when `j / N` is even and `h[j % N]` when it is odd |
| `HalfBuffer.HalfBufferSupplier.Callback` | fl2k-psk.c:34-45 | advances the phase by 180 modulo 360; sets `sampletype_signed = 1` and `r_buf = tx_buffer + (phase_curr/180)*N`, an in-bounds window equal to the block of this call; a device error only warns |
| `Fl2k.Sink.SetSampleRate` | fl2k-psk.cpp:96-99 | records the request; the result is negative exactly when the device refuses the request, and a refusal keeps the previous rate |
| `Carrier.SubmittedRate` | fl2k-psk.cpp:93 | the submitted rate is the uint32 congruent to `freq * ratio` modulo 2^32, and equals the product when that fits (fl2k-psk.c:70 with ratio 2) |
| `Carrier.EffectiveCarrier` | fl2k-psk.cpp:103 | the reported carrier is the floor of applied/ratio (fl2k-psk.c:80 with ratio 2) |
| `Carrier.SteppedCarrier` | fl2k-psk.cpp:125-130 | `u` asks for `applied/R + 1000000` and `d` asks for `applied/R - 1000000`, each wrapping modulo 2^32 when out of range (fl2k-psk.c:103-108) |
| `Carrier.SetFreqCarrier` | fl2k-psk.cpp:92-104 | submits `SubmittedRate(freq, R)`, warns exactly when the device refuses, and returns the read-back rate and that rate divided by R |
| `Carrier.Session` | fl2k-psk.cpp:123-140 | the command loop on an input: without any submitted request the rate stays as it was, and a leading `q` quits at once with nothing submitted |
| `Carrier.CommandLoop` | fl2k-psk.cpp:122-140 | the loop leaves the device in the state `Session` predicts: the same final rate, the same submitted rates, and quits exactly on a `q` read as a command (fl2k-psk.c:99-118) |
| `Carrier.StartupScenario` | fl2k-psk.cpp:92-103 | 28 MHz at ratio 4 submits 112000000; a read-back of 111998976 reports 27999744; at ratio 2 the submitted rate is 56000000 |
| `Carrier.RetuneIdempotent` | fl2k-psk.cpp:92-102 | requesting the same carrier twice leaves the rate where the first request put it |
| `Carrier.OtherIgnored` | fl2k-psk.cpp:134-138 | a character other than u, d and q, together with the character skipped after it, changes neither the rate nor what is submitted |
| `Carrier.OnlyEvenPositionsCount` | fl2k-psk.cpp:123-138 | two inputs that agree at every even position lead to the same outcome, because `cin.ignore()` discards the character after each command (the helper `AfterCommand` drops both characters) |
| `Carrier.SessionConcat` | fl2k-psk.cpp:123-140 | a command prefix without `q` composes sequentially: only the rate carries over into what follows |
| `Carrier.UpDownRestoresCarrier` | fl2k-psk.cpp:125-130 | on a device that applies rates exactly, `u` raises the reported carrier by 1 MHz and a following `d` brings it back, as long as nothing wraps |
| `Programs.RunPsk` | fl2k-psk.cpp:107-145 | builds the tiled buffer and returns 0; if the device did not open, no rate is requested; otherwise it tunes SIGNAL_FREQ and then runs the command loop |
| `Programs.RunHalfWave` | fl2k-psk.c:84-121 | builds `[h, -h, h]` and leaves the phase and call count as they were (so the stream still starts from phase 0), tunes 28 MHz at ratio 2, runs the command loop, and returns 0 |

## Left out

- **Signal handling.** The signal handlers and `attach_sighandlers` are OS plumbing. The handler stops the transfer before closing the device; that order is noted here, not proved.
- **Library calls.** `fl2k_open`, `fl2k_start_tx`, `fl2k_stop_tx` and `fl2k_close` are foreign calls that are not modelled. The device's rounding of a requested rate is an arbitrary function `respond`, so the model proves nothing about how close the applied rate comes to the requested one.
- **Floating point.**
  - `sin(...) * 127 + .5` in fl2k-psk.c is replaced by an arbitrary half-wave `half` with values in [0, 127].
  - The products `SIGNAL_MAX * SIN_x` are computed exactly from the decimal literals. The model does not round them to double precision first; none of them lies near an integer, so truncation gives the same results.
- **I/O and memory.** `cin` and `cout` output, and `malloc` failure, are not modelled: a null `tx_buffer` would crash both programs.
- **Threads.** The concurrency between the USB thread that calls the callback and the main thread is not modelled. The callback and the command loop are modelled as independent operations.
- **Buffer length.** The concrete `FL2K_BUF_LEN` comes from osmo-fl2k.h, which is not part of this model. It is the parameter `bufLen`.
- Programs.RunHalfWave: models only the path where `fl2k_open` succeeded. In fl2k-psk.c the command loop also runs when no device opened. It then calls the library with a null device, whose behaviour is not part of this model.
- TiledBuffer.SeamlessStream: holds only when the buffer length is a whole number of cycles. Otherwise the sink's wrap from the last sample to the first is a phase jump. For ratio 4 the model states the stream only within one buffer (`PskBlock`, `PskFlip`).
- **Unused global.** The `phase_curr` global in fl2k-psk.cpp is declared but never used, so it is not modelled.
