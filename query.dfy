/**
 * `ams5915_read_raw`: the answer to one IIO query, over channel type and
 * info kind, and the arithmetic it performs. The C expressions are modelled
 * as written, in `uint32_t` arithmetic stored back into `int`; lemmas show
 * that for every catalogue part they equal the mathematical values.
 */
module Query {
  import opened Kernel
  import opened Variants
  import opened Frame

  const TEMP_SCALE_MUL: int := 200000
  const TEMP_SCALE_DIV: int := 2048
  const TEMP_OFFSET: int := -50000

  /** The channel type of a query; every type other than the two below is `OtherChan`. */
  datatype ChanType = Temp | Pressure | OtherChan

  /** The info kind of a query; every kind other than the four below is `OtherInfo`. */
  datatype InfoKind = RawInfo | Processed | Scale | Offset | OtherInfo

  /**
   * What `read_raw` reports: a plain `*val`, a `*val / *val2` fraction, or a
   * negative error number.
   */
  datatype Reply = IntVal(val: int) | Fractional(val: int, val2: int) | Failure(code: NegErrno)

  /** The value `read_raw` returns for a reply. */
  function ReturnCode(r: Reply): (ret: int)
    ensures ret < 0 <==> r.Failure?
    ensures ret == IIO_VAL_INT <==> r.IntVal?
    ensures ret == IIO_VAL_FRACTIONAL <==> r.Fractional?
    ensures r.Failure? ==> ret == r.code
  {
    match r
    case IntVal(_) => IIO_VAL_INT
    case Fractional(_, _) => IIO_VAL_FRACTIONAL
    case Failure(code) => code
  }

  /** Whether a query kind performs a bus transaction. */
  predicate NeedsRead(info: InfoKind) {
    info == RawInfo || info == Processed
  }

  // ---- The C expressions, as written ----

  /**
   * `raw.temp * TEMP_SCALE_MUL / TEMP_SCALE_DIV + TEMP_OFFSET`, evaluated in
   * `uint32_t`, stored in `int`. It never wraps: for every 11-bit raw value
   * it is the mathematical value.
   */
  function TempProcessedAsWritten(temp: uint32): (r: int32)
    ensures temp < 0x800 ==> r == TempMilliCelsius(temp)
  {
    TempNeverWraps(temp);
    ToInt32(AddU32(DivU32(MulU32(temp, ToU32(TEMP_SCALE_MUL)), ToU32(TEMP_SCALE_DIV)), ToU32(TEMP_OFFSET)))
  }

  /**
   * `raw.press * press_scale_mul + press_offset`, evaluated in `uint32_t`,
   * stored in `int`. It never wraps on a catalogue part: for every 14-bit raw
   * value it is the true numerator.
   */
  function PressProcessedAsWritten(cal: Calibration, press: uint32): (r: int32)
    ensures Bounded(cal) && press < 0x4000 ==> r == PressNumerator(cal, press)
  {
    PressNeverWraps(cal, press);
    ToInt32(AddU32(MulU32(press, ToU32(cal.pressScaleMul)), ToU32(cal.pressOffset)))
  }

  lemma TempNeverWraps(temp: uint32)
    ensures temp < 0x800 ==>
      ToInt32(AddU32(DivU32(MulU32(temp, ToU32(TEMP_SCALE_MUL)), ToU32(TEMP_SCALE_DIV)), ToU32(TEMP_OFFSET)))
        == TempMilliCelsius(temp)
  {
    if temp < 0x800 {
      var q := temp * TEMP_SCALE_MUL / TEMP_SCALE_DIV;
      assert temp * TEMP_SCALE_MUL <= 0x7FF * TEMP_SCALE_MUL;
      assert 0 <= q <= 0x7FF * TEMP_SCALE_MUL / TEMP_SCALE_DIV;
      assert ToU32(TEMP_OFFSET) == TWO_32 + TEMP_OFFSET;
      WrapRoundTrip(q + TEMP_OFFSET);
    }
  }

  lemma PressNeverWraps(cal: Calibration, press: uint32)
    ensures Bounded(cal) && press < 0x4000 ==>
      ToInt32(AddU32(MulU32(press, ToU32(cal.pressScaleMul)), ToU32(cal.pressOffset))) == PressNumerator(cal, press)
  {
    if Bounded(cal) && press < 0x4000 {
      NumeratorInInt32(cal, press);
      var prod := press * cal.pressScaleMul;
      assert MulU32(press, ToU32(cal.pressScaleMul)) == prod;
      WrapRoundTrip(cal.pressOffset);
      WrapRoundTrip(prod + cal.pressOffset);
      if cal.pressOffset < 0 {
        assert ToU32(cal.pressOffset) == cal.pressOffset + TWO_32;
      }
    }
  }

  // ---- The mathematical values ----

  /** Processed temperature in millidegrees Celsius. */
  function TempMilliCelsius(temp: int): int {
    temp * TEMP_SCALE_MUL / TEMP_SCALE_DIV + TEMP_OFFSET
  }

  /** The answer to a query on a sample that has already been read. */
  function SampleReply(cal: Calibration, chan: ChanType, info: InfoKind, s: RawSample): (r: Reply)
    requires NeedsRead(info)
    ensures r.Failure? <==> chan == OtherChan
    ensures r.Failure? ==> r.code == -EINVAL
    ensures info == RawInfo && chan == Temp ==> r == IntVal(s.temp)
    ensures info == RawInfo && chan == Pressure ==> r == IntVal(s.press)
    ensures info == Processed && chan == Temp ==>
      r.IntVal? && (s.temp < 0x800 ==> r.val == TempMilliCelsius(s.temp))
    ensures info == Processed && chan == Pressure ==>
      r.Fractional? && r.val2 == PRESS_SCALE_DIV_KPA &&
      (Bounded(cal) && s.press < 0x4000 ==> r.val == PressNumerator(cal, s.press))
  {
    match chan
    case Temp =>
      if info == RawInfo then IntVal(s.temp) else IntVal(TempProcessedAsWritten(s.temp))
    case Pressure =>
      if info == RawInfo then IntVal(s.press)
      else Fractional(PressProcessedAsWritten(cal, s.press), PRESS_SCALE_DIV_KPA)
    case OtherChan => Failure(-EINVAL)
  }

  /** The answer to a query that needs no bus transaction. */
  function ConstantReply(cal: Calibration, chan: ChanType, info: InfoKind): (r: Reply)
    requires !NeedsRead(info)
    ensures r.Failure? <==> chan == OtherChan || info == OtherInfo
    ensures r.Failure? ==> r.code == -EINVAL
    ensures chan == Temp && info == Scale ==> r == Fractional(TEMP_SCALE_MUL, TEMP_SCALE_DIV)
    ensures chan == Temp && info == Offset ==> r == IntVal(TEMP_OFFSET)
    ensures chan == Pressure && info == Scale ==> r == Fractional(cal.pressScaleMul, PRESS_SCALE_DIV_KPA)
    ensures chan == Pressure && info == Offset ==> r == Fractional(cal.pressOffset, PRESS_SCALE_DIV_KPA)
  {
    if info == Scale then
      match chan
      case Temp => Fractional(TEMP_SCALE_MUL, TEMP_SCALE_DIV)
      case Pressure => Fractional(cal.pressScaleMul, PRESS_SCALE_DIV_KPA)
      case OtherChan => Failure(-EINVAL)
    else if info == Offset then
      match chan
      case Temp => IntVal(TEMP_OFFSET)
      case Pressure => Fractional(cal.pressOffset, PRESS_SCALE_DIV_KPA)
      case OtherChan => Failure(-EINVAL)
    else
      Failure(-EINVAL)
  }

  /**
   * The whole of `ams5915_read_raw` on a device with calibration `cal`,
   * given what the bus receive would return and the clock reading.
   * RAW and PROCESSED read first and only then look at the channel type.
   */
  function ReadRawReply(cal: Calibration, chan: ChanType, info: InfoKind, rx: Recv, now: int64): (r: Reply)
    ensures r.Failure? <==> info == OtherInfo || chan == OtherChan || (NeedsRead(info) && ReadFrame(rx, now).Err?)
    ensures NeedsRead(info) && ReadFrame(rx, now).Err? ==> r == Failure(ReadFrame(rx, now).code)
    ensures NeedsRead(info) && ReadFrame(rx, now).Ok? ==> r == SampleReply(cal, chan, info, ReadFrame(rx, now).value)
    ensures !NeedsRead(info) ==> r == ConstantReply(cal, chan, info)
  {
    if NeedsRead(info) then
      match ReadFrame(rx, now)
      case Err(code) => Failure(code)
      case Ok(s) => SampleReply(cal, chan, info, s)
    else
      ConstantReply(cal, chan, info)
  }

  // ---- Properties ----

  /** A receive that delivered four bytes yields the decoded sample of those bytes. */
  lemma ReadFrameDecodes(rx: Recv, now: int64)
    requires rx.Got? && |rx.bytes| == FRAME_LEN
    ensures ReadFrame(rx, now) == Ok(Decode(rx.bytes, now))
  {
  }

  /** Raw temperature 0 reads as -50000 m°C and 2047 as 149902 m°C. */
  lemma TempEndpoints()
    ensures TempProcessedAsWritten(0) == -50000
    ensures TempProcessedAsWritten(0x7FF) == 149902
  {
  }

  /** Processed temperature never decreases as the raw value grows, and stays within [-50000, 149902]. */
  lemma {:induction false} TempMonotoneBounded(t: uint32, u: uint32)
    requires t <= u < 0x800
    ensures TempProcessedAsWritten(t) <= TempProcessedAsWritten(u)
    ensures -50000 <= TempProcessedAsWritten(t) <= 149902
  {
    DivMonotone(t * TEMP_SCALE_MUL, u * TEMP_SCALE_MUL, TEMP_SCALE_DIV);
    DivMonotone(u * TEMP_SCALE_MUL, 0x7FF * TEMP_SCALE_MUL, TEMP_SCALE_DIV);
  }

  lemma DivMonotone(a: int, b: int, d: int)
    requires 0 <= a <= b && 0 < d
    ensures a / d <= b / d
  {
    if a / d > b / d {
      MulLeft(d, b / d + 1, a / d);
      assert false;
    }
  }

  lemma MulLeft(d: int, x: int, y: int)
    requires 0 < d && x <= y
    ensures x * d <= y * d
  {
  }

  /** SCALE, OFFSET and unknown kinds perform no bus read: their answer does not depend on the bus or the clock. */
  lemma ConstantQueriesIgnoreBus(cal: Calibration, chan: ChanType, info: InfoKind,
                                 rx: Recv, rx': Recv, now: int64, now': int64)
    requires !NeedsRead(info)
    ensures ReadRawReply(cal, chan, info, rx, now) == ReadRawReply(cal, chan, info, rx', now')
    ensures info == Scale && chan == Temp ==>
      ReadRawReply(cal, chan, info, rx, now) == Fractional(200000, 2048)
    ensures info == Scale && chan == Pressure ==>
      ReadRawReply(cal, chan, info, rx, now) == Fractional(cal.pressScaleMul, 131070)
    ensures info == Offset && chan == Temp ==>
      ReadRawReply(cal, chan, info, rx, now) == IntVal(-50000)
    ensures info == Offset && chan == Pressure ==>
      ReadRawReply(cal, chan, info, rx, now) == Fractional(cal.pressOffset, 131070)
  {
  }

  /**
   * Error paths of `read_raw`: an unknown info kind is `-EINVAL`; for RAW and
   * PROCESSED a failed read is reported as is, before the channel type is
   * looked at, and an unknown channel is `-EINVAL` only after a good read.
   */
  lemma QueryErrors(cal: Calibration, chan: ChanType, info: InfoKind, rx: Recv, now: int64)
    ensures info == OtherInfo ==> ReadRawReply(cal, chan, info, rx, now) == Failure(-EINVAL)
    ensures NeedsRead(info) && ReadFrame(rx, now).Err? ==>
      ReadRawReply(cal, chan, info, rx, now) == Failure(ReadFrame(rx, now).code)
    ensures NeedsRead(info) && rx.Got? && |rx.bytes| != FRAME_LEN ==>
      ReadRawReply(cal, chan, info, rx, now) == Failure(-EIO)
    ensures chan == OtherChan ==>
      ReadRawReply(cal, chan, info, rx, now).Failure?
    ensures chan == OtherChan && !(NeedsRead(info) && ReadFrame(rx, now).Err?) ==>
      ReadRawReply(cal, chan, info, rx, now) == Failure(-EINVAL)
    ensures chan != OtherChan && info != OtherInfo && !(NeedsRead(info) && ReadFrame(rx, now).Err?) ==>
      !ReadRawReply(cal, chan, info, rx, now).Failure?
  {
  }

  /**
   * A processed pressure query on a catalogue part answers the fraction
   * numerator / 131070 kPa, whose numerator interpolates linearly between
   * pmin * 13107 at raw 1638 and pmax * 13107 at raw 14745.
   */
  lemma {:induction false} ProcessedPressure(typeId: int, rx: Recv, now: int64)
    requires 0 <= typeId < TYPE_COUNT
    requires ReadFrame(rx, now).Ok?
    ensures var spec, press := Types[typeId], ReadFrame(rx, now).value.press;
      ReadRawReply(Derive(spec), Pressure, Processed, rx, now)
        == Fractional(spec.pmin * 13107 + (press - 1638) * (spec.pmax - spec.pmin), 131070)
  {
    var spec, press := Types[typeId], ReadFrame(rx, now).value.press;
    CatalogCalibrationBounded(typeId);
    NumeratorInterpolates(spec, press);
  }

  /** A processed pressure query reads pmin at the bottom of the raw range and pmax at the top. */
  lemma {:induction false} ProcessedPressureEndpoints(typeId: int, rx: Recv, now: int64)
    requires 0 <= typeId < TYPE_COUNT
    requires ReadFrame(rx, now).Ok?
    ensures var spec, press := Types[typeId], ReadFrame(rx, now).value.press;
      (press == PRESS_RAW_MIN ==>
        ReadRawReply(Derive(spec), Pressure, Processed, rx, now) == Fractional(spec.pmin * 13107, 131070)) &&
      (press == PRESS_RAW_MAX ==>
        ReadRawReply(Derive(spec), Pressure, Processed, rx, now) == Fractional(spec.pmax * 13107, 131070))
  {
    var spec, press := Types[typeId], ReadFrame(rx, now).value.press;
    CatalogCalibrationBounded(typeId);
    CalibrationEndpoints(spec);
  }

  /**
   * A processed temperature query answers an integer number of m°C: the
   * 11-bit raw value scaled by 200000 / 2048, rounded down, less 50000.
   */
  lemma {:induction false} ProcessedTemperature(cal: Calibration, rx: Recv, now: int64)
    requires ReadFrame(rx, now).Ok?
    ensures var t := ReadFrame(rx, now).value.temp;
      ReadRawReply(cal, Temp, Processed, rx, now) == IntVal(t * 200000 / 2048 - 50000) &&
      -50000 <= t * 200000 / 2048 - 50000 <= 149902
  {
    var t := ReadFrame(rx, now).value.temp;
    TempMonotoneBounded(t, t);
  }

  /** Every value `read_raw` writes to `*val` or `*val2` on a catalogue part fits in `int`. */
  lemma {:induction false} RepliesFitInInt32(typeId: int, chan: ChanType, info: InfoKind, rx: Recv, now: int64)
    requires 0 <= typeId < TYPE_COUNT
    ensures var r := ReadRawReply(Derive(Types[typeId]), chan, info, rx, now);
      (r.IntVal? ==> InInt32(r.val)) && (r.Fractional? ==> InInt32(r.val) && InInt32(r.val2) && r.val2 > 0)
  {
    CatalogCalibrationBounded(typeId);
    if NeedsRead(info) && ReadFrame(rx, now).Ok? && chan == Pressure && info == Processed {
      NumeratorInInt32(Derive(Types[typeId]), ReadFrame(rx, now).value.press);
    }
  }

  /** The 0200-D part reading raw pressure 8191 answers 1310600 / 131070 kPa, about 10 kPa. */
  lemma MidScaleOn0200D(now: int64)
    ensures Types[10] == VariantSpec(0, 200)
    ensures ReadRawReply(Derive(Types[10]), Pressure, Processed, Got([0x1F, 0xFF, 0x00, 0x00]), now)
         == Fractional(1310600, 131070)
  {
    ProcessedPressure(10, Got([0x1F, 0xFF, 0x00, 0x00]), now);
  }
}
