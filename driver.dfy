/**
 * The AMS5915 device: its private data (the calibration probe stores), the
 * bus read that fills a sample, the `read_raw` query, the triggered-buffer
 * capture and the probe sequence. The bus receive, the clock and the IIO
 * calls probe makes are inputs; what the driver does to the IIO core
 * (buffer pushes, trigger completions, setup, registration) is recorded in
 * fields of the device.
 */
module Driver {
  import opened Kernel
  import opened Variants
  import opened Frame
  import opened Query

  class Device {
    // `AMS5915_DATA_T`
    var pressScaleMul: int
    var pressOffset: int

    // What the driver has done to the bus and the IIO core.
    var transactions: nat        // bus receives issued
    var pushed: seq<RawSample>   // samples handed to `iio_push_to_buffers`
    var notified: nat            // calls of `iio_trigger_notify_done`
    var bufferSetUp: bool        // `devm_iio_triggered_buffer_setup` succeeded
    var registered: bool         // `devm_iio_device_register` succeeded
    ghost var fired: seq<Trigger> // the trigger firings handled so far

    /** `devm_iio_device_alloc`: private data zeroed, nothing done yet. */
    constructor Alloc()
      ensures pressScaleMul == 0 && pressOffset == 0
      ensures transactions == 0 && pushed == [] && notified == 0
      ensures !bufferSetUp && !registered
      ensures fired == []
    {
      pressScaleMul, pressOffset := 0, 0;
      transactions, pushed, notified := 0, [], 0;
      bufferSetUp, registered := false, false;
      fired := [];
    }

    function Cal(): Calibration
      reads this
    {
      Calibration(pressScaleMul, pressOffset)
    }

    /**
     * The state of a device that probe has calibrated from the catalogue:
     * the calibration is bounded, every firing handled so far was completed,
     * and the buffer holds exactly the samples those firings captured.
     */
    ghost predicate Valid()
      reads this
    {
      Bounded(Cal()) && notified == |fired| && pushed == Captured(fired)
    }

    /**
     * `ams5915_read`: one bus receive into a local buffer; the caller's
     * sample `raw` is overwritten only when four bytes arrived.
     */
    method Read(rx: Recv, now: int64, raw: RawSample) returns (ret: int, raw': RawSample)
      modifies this`transactions
      ensures transactions == old(transactions) + 1
      ensures ReadFrame(rx, now).Ok? ==> ret == 0 && raw' == ReadFrame(rx, now).value
      ensures rx.Got? && |rx.bytes| == FRAME_LEN ==> raw' == Decode(rx.bytes, now)
      ensures ReadFrame(rx, now).Err? ==> ret == ReadFrame(rx, now).code && raw' == raw
    {
      transactions := transactions + 1;
      var received := if rx.Failed? then rx.code else |rx.bytes|;
      if received < 0 {
        return received, raw;
      }
      if received != FRAME_LEN {
        return -EIO, raw;
      }
      var buf := rx.bytes;
      var press := PressField(BigEndian16(buf[0], buf[1]));
      var temp := TempField(BigEndian16(buf[2], buf[3]));
      ret, raw' := 0, RawSample(press, temp, now);
    }

    /**
     * `ams5915_read_raw`: answers one query, writing `*val` and `*val2`
     * (given here as `val` and `val2` on entry) only where the query has a
     * value for them. Only RAW and PROCESSED touch the bus.
     */
    method ReadRaw(chan: ChanType, info: InfoKind, rx: Recv, now: int64, val: int, val2: int)
      returns (ret: int, val': int, val2': int)
      modifies this`transactions
      ensures transactions == old(transactions) + (if NeedsRead(info) then 1 else 0)
      ensures var r := ReadRawReply(Cal(), chan, info, rx, now);
        ret == ReturnCode(r) &&
        val' == (if r.Failure? then val else r.val) &&
        val2' == (if r.Fractional? then r.val2 else val2)
    {
      val', val2' := val, val2;
      var raw := RawSample(0, 0, 0);
      match info {
      case RawInfo =>
        ret, raw := Read(rx, now, raw);
        if ret != 0 {
          return;
        }
        match chan {
        case Temp =>
          val' := raw.temp;
          ret := IIO_VAL_INT;
        case Pressure =>
          val' := raw.press;
          ret := IIO_VAL_INT;
        case OtherChan =>
          ret := -EINVAL;
        }
      case Processed =>
        ret, raw := Read(rx, now, raw);
        if ret != 0 {
          return;
        }
        match chan {
        case Temp =>
          val' := TempProcessedAsWritten(raw.temp);
          ret := IIO_VAL_INT;
        case Pressure =>
          val' := PressProcessedAsWritten(Cal(), raw.press);
          val2' := PRESS_SCALE_DIV_KPA;
          ret := IIO_VAL_FRACTIONAL;
        case OtherChan =>
          ret := -EINVAL;
        }
      case Scale =>
        match chan {
        case Temp =>
          val', val2' := TEMP_SCALE_MUL, TEMP_SCALE_DIV;
          ret := IIO_VAL_FRACTIONAL;
        case Pressure =>
          val', val2' := pressScaleMul, PRESS_SCALE_DIV_KPA;
          ret := IIO_VAL_FRACTIONAL;
        case OtherChan =>
          ret := -EINVAL;
        }
      case Offset =>
        match chan {
        case Temp =>
          val' := TEMP_OFFSET;
          ret := IIO_VAL_INT;
        case Pressure =>
          val', val2' := pressOffset, PRESS_SCALE_DIV_KPA;
          ret := IIO_VAL_FRACTIONAL;
        case OtherChan =>
          ret := -EINVAL;
        }
      case OtherInfo =>
        ret := -EINVAL;
      }
    }

    /**
     * `ams5915_trigger_handler`: one capture cycle. The sample is pushed only
     * when the read succeeded; the trigger is told the cycle is done in
     * every case.
     */
    method TriggerHandler(rx: Recv, now: int64) returns (irq: int)
      requires Valid()
      modifies this`transactions, this`pushed, this`notified, this`fired
      ensures irq == IRQ_HANDLED
      ensures transactions == old(transactions) + 1
      ensures notified == old(notified) + 1
      ensures pushed == old(pushed) + Pushed(Trigger(rx, now))
      ensures fired == old(fired) + [Trigger(rx, now)]
      ensures Valid()
    {
      var raw := RawSample(0, 0, 0);
      var ret;
      ret, raw := Read(rx, now, raw);
      if ret >= 0 {
        pushed := pushed + [raw];
      }
      notified := notified + 1;
      CapturedExtend(fired, Trigger(rx, now));
      fired := fired + [Trigger(rx, now)];
      irq := IRQ_HANDLED;
    }
  }

  /** One firing of the trigger: what the bus delivers and the clock reading. */
  datatype Trigger = Trigger(rx: Recv, now: int64)

  /**
   * The samples the trigger handler pushes over a run of firings, in order:
   * the decoded sample of every firing whose read succeeded, nothing for the
   * others. At most one sample per firing.
   */
  function Captured(ts: seq<Trigger>): (s: seq<RawSample>)
    ensures |s| <= |ts|
  {
    if ts == [] then [] else Pushed(ts[0]) + Captured(ts[1..])
  }

  /** What one firing pushes: its sample when the read succeeded, else nothing. */
  function Pushed(t: Trigger): (s: seq<RawSample>)
    ensures |s| <= 1
    ensures |s| == 1 <==> ReadFrame(t.rx, t.now).Ok?
    ensures |s| == 1 ==> s[0] == ReadFrame(t.rx, t.now).value
  {
    var r := ReadFrame(t.rx, t.now);
    if r.Ok? then [r.value] else []
  }

  /**
   * Capturing a run and then one more firing is capturing the extended run:
   * a device whose buffer holds `Captured(ts)` holds `Captured(ts + [t])`
   * after `TriggerHandler` handles `t`.
   */
  lemma {:induction false} CapturedExtend(ts: seq<Trigger>, t: Trigger)
    ensures Captured(ts + [t]) == Captured(ts) + Pushed(t)
  {
    if ts == [] {
      assert ts + [t] == [t];
      assert Captured([t]) == Pushed(t) + Captured([]);
    } else {
      var us := ts + [t];
      assert us[0] == ts[0] && us[1..] == ts[1..] + [t];
      CapturedExtend(ts[1..], t);
      calc {
        Captured(us);
        Pushed(ts[0]) + Captured(ts[1..] + [t]);
        Pushed(ts[0]) + (Captured(ts[1..]) + Pushed(t));
        (Pushed(ts[0]) + Captured(ts[1..])) + Pushed(t);
      }
    }
  }

  /** Every sample a run of captures pushes holds a 14-bit pressure and an 11-bit temperature. */
  lemma {:induction false} CapturedInRange(ts: seq<Trigger>)
    ensures forall i :: 0 <= i < |Captured(ts)| ==>
      Captured(ts)[i].press < 0x4000 && Captured(ts)[i].temp < 0x800
  {
    if ts != [] {
      CapturedInRange(ts[1..]);
    }
  }

  /** A run in which every read fails pushes nothing; one in which every read succeeds pushes a sample per firing. */
  lemma {:induction false} CapturedCount(ts: seq<Trigger>)
    ensures (forall i :: 0 <= i < |ts| ==> ReadFrame(ts[i].rx, ts[i].now).Err?) ==> Captured(ts) == []
    ensures (forall i :: 0 <= i < |ts| ==> ReadFrame(ts[i].rx, ts[i].now).Ok?) ==> |Captured(ts)| == |ts|
  {
    if ts != [] {
      assert forall i :: 0 <= i < |ts[1..]| ==> ts[1..][i] == ts[i + 1];
      CapturedCount(ts[1..]);
    }
  }

  /**
   * The value `ams5915_i2c_probe` returns, given the outcome of each call it
   * makes: the type check, the bus capability check, the allocation, the
   * initial read, the triggered-buffer setup and the registration, in that
   * order, the first failure ending the probe.
   */
  function ProbeCode(typeId: int, i2cCapable: bool, allocOk: bool, rx: Recv, now: int64,
                     setupRet: int, registerRet: int): (ret: int)
    ensures ret <= 0
    ensures Lookup(typeId).None? ==> ret == -EINVAL
    ensures Lookup(typeId).Some? && i2cCapable && allocOk && ReadFrame(rx, now).Err? ==>
      ret == ReadFrame(rx, now).code
    ensures ret == 0 <==> Lookup(typeId).Some? && i2cCapable && allocOk && ReadFrame(rx, now).Ok? &&
                          setupRet >= 0 && registerRet >= 0
  {
    if Lookup(typeId).None? then -EINVAL
    else if !i2cCapable then -EOPNOTSUPP
    else if !allocOk then -ENOMEM
    else if ReadFrame(rx, now).Err? then ReadFrame(rx, now).code
    else if setupRet < 0 then setupRet
    else if registerRet < 0 then registerRet
    else 0
  }

  /**
   * `ams5915_i2c_probe`. `dev` is the allocated device whenever allocation
   * was reached and succeeded (on a failure the kernel releases it; it is
   * returned so that what was done to it can be stated).
   */
  method Probe(typeId: int, i2cCapable: bool, allocOk: bool, rx: Recv, now: int64,
               setupRet: int, registerRet: int) returns (ret: int, dev: Device?)
    ensures ret == ProbeCode(typeId, i2cCapable, allocOk, rx, now, setupRet, registerRet)
    ensures dev != null <==> 0 <= typeId < TYPE_COUNT && i2cCapable && allocOk
    ensures dev != null ==>
      fresh(dev) && dev.Cal() == Derive(Types[typeId]) && dev.Valid() &&
      dev.transactions == 1 && dev.pushed == [] && dev.notified == 0 &&
      dev.bufferSetUp == (ReadFrame(rx, now).Ok? && setupRet >= 0) &&
      dev.registered == (ret == 0)
  {
    dev := null;
    if Lookup(typeId).None? {
      return -EINVAL, dev;
    }
    if !i2cCapable {
      return -EOPNOTSUPP, dev;
    }
    if !allocOk {
      return -ENOMEM, dev;
    }
    dev := new Device.Alloc();
    var spec := Lookup(typeId).value;
    dev.pressScaleMul := spec.pmax - spec.pmin;
    dev.pressOffset := spec.pmin * PRESS_SCALE_DIV - PRESS_RAW_MIN * dev.pressScaleMul;
    CatalogCalibrationBounded(typeId);

    var raw := RawSample(0, 0, 0);
    ret, raw := dev.Read(rx, now, raw);
    if ret < 0 {
      return;
    }
    if setupRet < 0 {
      return setupRet, dev;
    }
    dev.bufferSetUp := true;
    if registerRet < 0 {
      return registerRet, dev;
    }
    dev.registered := true;
    ret := 0;
  }
}
