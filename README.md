# AMS5915 pressure sensor driver: decoding and calibration engine

A Dafny model of the Linux IIO driver for the AMSYS AMS5915 family of
digital pressure sensors (`ams5915.c`). The model covers the part of the
driver that has behaviour of its own:

- the catalogue of the 22 part numbers and their pressure ranges in mbar;
- the calibration probe derives from a part's range (`press_scale_mul`,
  `press_offset`) and the checks and early exits of the probe sequence;
- the decoding of the sensor's 4-byte big-endian response into a 14-bit
  pressure and an 11-bit temperature, and the error codes of a failed or
  short bus receive;
- the `read_raw` query over channel type (pressure, temperature, other) and
  info kind (RAW, PROCESSED, SCALE, OFFSET, other), with its integer and
  fractional answers;
- the triggered-buffer capture handler, which pushes a sample only after a
  good read and always signals completion.

Modules, one per component:

- `Kernel` (`kernel.dfy`): fixed-width C integer types, the conversions of
  `uint32_t` arithmetic (operands reduced modulo 2^32, the result stored
  back into `int`), error numbers and IIO return codes.
- `Variants` (`variants.dfy`): the part table, the calibration derivation
  and the arithmetic facts about the pressure numerator.
- `Frame` (`frame.dfy`): the wire frame, its decoding in bit-vector
  arithmetic as the C code does it, `ams5915_read`'s error handling, and an
  encoder of the wire format used as decoding's partner.
- `Query` (`query.dfy`): `read_raw` as a function of the calibration, the
  query and the bus result, with the C expressions evaluated as written.
- `Driver` (`driver.dfy`): the device as a class whose methods follow the C
  functions statement by statement (`Read`, `ReadRaw`, `TriggerHandler`),
  and the probe sequence.

The bus receive is an input value (`Recv`: a negative error number or the
bytes delivered), the clock reading is an input `now`, and the results of
the IIO calls probe makes are inputs too. What the driver does to the bus
and the IIO core is recorded on the device: the number of bus receives, the
samples pushed to the buffer, the number of trigger completions, and
whether the triggered buffer was set up and the device registered.

The processed-value expressions at ams5915.c:179 and ams5915.c:183 operate
on `uint32_t` sample fields, so C evaluates them modulo 2^32 and converts
the result to `int`. The model evaluates them exactly so, and proves that
for every catalogue part and every 14-bit (11-bit) raw value the result is
the mathematical value, so the wrap-around is harmless.

Raw temperature 2047, the top of the 11-bit range, reads
`2047 * 200000 / 2048 - 50000` = 149902 m°C. `ams5915_read`
(ams5915.c:112) turns any byte count other than four into `-EIO`, a longer
receive as well as a shorter one.

## Model

| member | source | states |
|---|---|---|
| Variants.Lookup | ams5915.c:278-281 | the type id is accepted exactly when it lies in [0, 22), and an accepted id yields its table entry |
| Variants.Derive | ams5915.c:295-296 | `press_scale_mul` is pmax - pmin and `press_offset` plus 1638 times it is pmin * 13107 |
| Variants.CatalogCalibrationBounded | ams5915.c:77-100 | every table entry has pmin < pmax, so its scale is positive, and its scale and offset are bounded and fit in `int` |
| Variants.NumeratorInterpolates | ams5915.c:296 | the processed pressure numerator is pmin * 13107 + (raw - 1638) * (pmax - pmin) for every range and raw value |
| Variants.CalibrationEndpoints | ams5915.c:21-26 | raw 1638 gives numerator pmin * 13107 and raw 14745 gives pmax * 13107 |
| Variants.NumeratorStrictlyIncreasing | ams5915.c:183 | on a catalogue calibration a larger raw pressure gives a strictly larger numerator |
| Variants.NumeratorInInt32 | ams5915.c:183 | for a catalogue calibration and any 14-bit raw pressure, the product is below 2^32 and the numerator fits in `int` |
| Kernel.ToU32 | ams5915.c:179 | conversion of a signed operand to `uint32_t` is congruent to it modulo 2^32 and leaves values in [0, 2^32) unchanged |
| Kernel.MulU32 | ams5915.c:179 | `uint32_t` multiplication is congruent to the product modulo 2^32 and equals it when the product is below 2^32 |
| Kernel.AddU32 | ams5915.c:179 | `uint32_t` addition is congruent to the sum modulo 2^32, equal to it below 2^32 and 2^32 less above |
| Kernel.DivU32 | ams5915.c:179 | `uint32_t` division gives the quotient rounded down |
| Kernel.ToInt32 | ams5915.c:179 | storing a `uint32_t` in `int` keeps it congruent modulo 2^32 and unchanged below 2^31 |
| Kernel.WrapRoundTrip | ams5915.c:183 | a value that fits in `int` is unchanged by reduction to `uint32_t` and conversion back |
| Frame.BigEndian16 | ams5915.c:116-117 | the big-endian word of two bytes is hi * 256 + lo |
| Frame.PressField | ams5915.c:116 | the pressure field is the word modulo 2^14 |
| Frame.TempField | ams5915.c:117 | the temperature field is the word divided by 32, below 2^11 |
| Frame.Decode | ams5915.c:116-118 | pressure is (b0 & 0x3F) * 256 + b1 in [0, 16383], temperature is (b2 * 256 + b3) / 32 in [0, 2047], the timestamp is the clock reading |
| Frame.ReadFrame | ams5915.c:108-120 | a receive error is passed through unchanged, any byte count other than 4 is -EIO, and a sample results exactly when 4 bytes arrived |
| Query.ReadFrameDecodes | ams5915.c:108-120 | a receive that delivered four bytes gives exactly the decoded sample of those bytes |
| Frame.DecodeEncode | ams5915.c:116-117 | decoding the frame that carries any 14-bit pressure and 11-bit temperature (status bits clear) gives both back with the clock reading |
| Frame.DecodeIgnoresOnlyStatusBits | ams5915.c:116-117 | two frames decode to the same sample exactly when they agree on the low six bits of byte 0, on bytes 1 and 2 and on the top three bits of byte 3 |
| Frame.StatusBitsIgnored | ams5915.c:116-117 | the top two bits of word 0 and the low five bits of word 1 never affect the decoded sample |
| Frame.SameSampleSameData | ams5915.c:116-117 | equal decoded samples imply equal data bits in the two frames: decoding loses nothing but the status bits |
| Query.ReturnCode | ams5915.c:151-224 | `read_raw` returns a negative number exactly on error, and then the error's own code, IIO_VAL_INT for a plain value and IIO_VAL_FRACTIONAL for a fraction |
| Query.TempProcessedAsWritten | ams5915.c:179 | the temperature expression evaluated in `uint32_t` never wraps: for every 11-bit raw value it equals temp * 200000 / 2048 - 50000 |
| Query.PressProcessedAsWritten | ams5915.c:183 | the pressure expression evaluated in `uint32_t` never wraps: on every bounded calibration and 14-bit raw value it equals raw * scale + offset |
| Query.SampleReply | ams5915.c:158-189 | after a good read: RAW reports the raw field unchanged, PROCESSED temperature is an integer in m°C, PROCESSED pressure is a fraction over 131070 with the true numerator, an unknown channel is -EINVAL and nothing else fails |
| Query.ConstantReply | ams5915.c:191-223 | SCALE and OFFSET give their constants per channel, and an unknown channel or kind is -EINVAL, the only failures |
| Query.ReadRawReply | ams5915.c:143-225 | the query fails exactly for an unknown kind, an unknown channel or a failed read of RAW/PROCESSED; a read error is passed through with its code; otherwise the answer is that of the sample read or the constant |
| Query.TempEndpoints | ams5915.c:13-17 | raw temperature 0 reads -50000 m°C and 2047 reads 149902 m°C |
| Query.TempMonotoneBounded | ams5915.c:178-180 | processed temperature is non-decreasing in the raw value and lies in [-50000, 149902] |
| Query.ConstantQueriesIgnoreBus | ams5915.c:191-220 | SCALE and OFFSET answers do not depend on the bus or clock: (200000, 2048) and -50000 for temperature, (scale, 131070) and (offset, 131070) for pressure |
| Query.QueryErrors | ams5915.c:151-224 | unknown kind is -EINVAL; for RAW and PROCESSED a read error wins over an unknown channel; an unknown channel is -EINVAL after a good read; known channel and kind never fail otherwise |
| Query.ProcessedPressure | ams5915.c:182-185 | processed pressure on a catalogue part is the fraction (pmin * 13107 + (raw - 1638) * (pmax - pmin)) / 131070 |
| Query.ProcessedPressureEndpoints | ams5915.c:182-185 | processed pressure at raw 1638 is (pmin * 13107) / 131070 and at raw 14745 is (pmax * 13107) / 131070 |
| Query.ProcessedTemperature | ams5915.c:178-180 | processed temperature is the integer temp * 200000 / 2048 - 50000, within [-50000, 149902] |
| Query.RepliesFitInInt32 | ams5915.c:143-225 | on a catalogue part every value written to `*val` or `*val2` fits in `int` and every denominator is positive |
| Query.MidScaleOn0200D | ams5915.c:88 | the 0200-D part reading raw pressure 8191 answers 1310600 / 131070 |
| Driver.Device.Alloc | ams5915.c:287-290 | the private data of a new device is zeroed and nothing has been done to the bus or IIO core |
| Driver.Device.Read | ams5915.c:102-121 | one bus receive; four bytes give 0 and their decoded sample, a failure gives the error and leaves the caller's sample unwritten |
| Driver.Device.ReadRaw | ams5915.c:143-225 | the return value and `*val`, `*val2` are those of the query's answer, unwritten outputs keep their values, and only RAW and PROCESSED receive from the bus |
| Driver.Device.TriggerHandler | ams5915.c:123-141 | one receive, the buffer grows by what this firing pushes (its decoded sample exactly when the read succeeded), one trigger completion in every case, IRQ_HANDLED returned; the buffer stays exactly the captures of all firings handled |
| Driver.Pushed | ams5915.c:133-140 | one firing pushes at most one sample, and that sample is the decoded frame of a good read |
| Driver.Captured | ams5915.c:123-141 | over a run of firings the buffer receives at most one sample per firing |
| Driver.CapturedExtend | ams5915.c:133-140 | the captures of a run extended by one firing are those of the run followed by what that firing pushes |
| Driver.CapturedInRange | ams5915.c:116-117 | every sample a run of captures pushes holds a 14-bit pressure and an 11-bit temperature |
| Driver.CapturedCount | ams5915.c:133-140 | a run of failed reads pushes nothing and a run of good reads pushes one sample per firing |
| Driver.Probe | ams5915.c:268-327 | the return code follows the check order; a device is allocated only past the checks, carries the catalogue calibration, and is set up and registered only after a good initial read |
| Driver.ProbeCode | ams5915.c:278-326 | probe returns 0 or a negative number; a bad type id is -EINVAL whatever else happens; an initial read failure is returned as is; 0 holds exactly when every step succeeded |

## Left out

- The I2C transport (`i2c_master_recv`) is not modelled; its result is the input `Recv`.
- `i2c_check_functionality`, `devm_iio_device_alloc`, `devm_iio_triggered_buffer_setup` and `devm_iio_device_register` are foreign kernel calls; their outcomes are inputs of `Probe`.
- `iio_get_time_ns` is an opaque clock; its reading is the input `now`.
- The buffer internals behind `iio_push_to_buffers` and `iio_trigger_notify_done` are not modelled; the device records the pushed samples and counts the completions.
- Probe's assignments of static descriptors to the IIO device (name, info, modes, channels, scan masks, ams5915.c:298-304) configure the IIO core and have no behaviour of their own.
- The channel table, scan masks, compatible-string table, `i2c_device_id` table (its `driver_data` values are the 22 type ids in order) and module macros are static configuration.
- The storage layout of a pushed record (32-bit fields, aligned 64-bit timestamp) is not modelled; a pushed sample is a `RawSample` value.
- On a failed probe the kernel releases the managed allocation; `Probe` returns the device anyway so that what was done to it can be stated.
- Interrupt context and concurrency of the trigger handler are not modelled; the engine is sequential.
- `dev_err` logging is not modelled.
