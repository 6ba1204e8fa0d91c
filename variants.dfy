/**
 * The AMS5915 part catalogue and the per-device calibration derived from it
 * when the device is probed.
 */
module Variants {
  import opened Kernel

  const PRESS_RAW_MIN: int := 1638
  const PRESS_RAW_MAX: int := 14745
  const PRESS_SCALE_DIV: int := PRESS_RAW_MAX - PRESS_RAW_MIN
  /** The denominator of every pressure fraction: mbar scaled to kPa. */
  const PRESS_SCALE_DIV_KPA: int := PRESS_SCALE_DIV * 10

  const TYPE_COUNT: int := 22

  /** Pressure range of one part number, in mbar. */
  datatype VariantSpec = VariantSpec(pmin: int, pmax: int)

  /** The two calibration fields of a probed device (`press_scale_mul`, `press_offset`). */
  datatype Calibration = Calibration(pressScaleMul: int, pressOffset: int)

  /** The variant table, indexed by the driver's type id. */
  const Types: seq<VariantSpec> := [
    VariantSpec(0, 5),        // 0005-D
    VariantSpec(0, 10),       // 0010-D
    VariantSpec(-5, 5),       // 0005-D-B
    VariantSpec(-10, 10),     // 0010-D-B
    VariantSpec(0, 20),       // 0020-D
    VariantSpec(0, 50),       // 0050-D
    VariantSpec(0, 100),      // 0100-D
    VariantSpec(-20, 20),     // 0020-D-B
    VariantSpec(-50, 50),     // 0050-D-B
    VariantSpec(-100, 100),   // 0100-D-B
    VariantSpec(0, 200),      // 0200-D
    VariantSpec(0, 350),      // 0350-D
    VariantSpec(0, 1000),     // 1000-D
    VariantSpec(0, 2000),     // 2000-D
    VariantSpec(0, 4000),     // 4000-D
    VariantSpec(0, 7000),     // 7000-D
    VariantSpec(0, 10000),    // 10000-D
    VariantSpec(-200, 200),   // 0200-D-B
    VariantSpec(-350, 350),   // 0350-D-B
    VariantSpec(-1000, 1000), // 1000-D-B
    VariantSpec(0, 1000),     // 1000-A
    VariantSpec(700, 1200)    // 1200-B
  ]

  /** Table lookup guarded by the range check probe performs first. */
  function Lookup(typeId: int): (r: Option<VariantSpec>)
    ensures r.Some? <==> 0 <= typeId < TYPE_COUNT
    ensures r.Some? ==> r.value == Types[typeId]
  {
    if typeId < 0 || typeId >= TYPE_COUNT then None else Some(Types[typeId])
  }

  /** The calibration probe stores for a variant. */
  function Derive(spec: VariantSpec): (cal: Calibration)
    ensures cal.pressScaleMul == spec.pmax - spec.pmin
    ensures cal.pressOffset + PRESS_RAW_MIN * cal.pressScaleMul == spec.pmin * PRESS_SCALE_DIV
  {
    var mul := spec.pmax - spec.pmin;
    Calibration(mul, spec.pmin * PRESS_SCALE_DIV - PRESS_RAW_MIN * mul)
  }

  /** The true (unwrapped) numerator of a processed pressure reading. */
  function PressNumerator(cal: Calibration, press: int): int {
    press * cal.pressScaleMul + cal.pressOffset
  }

  /**
   * Bounds that every catalogue calibration meets; they are what keeps the
   * driver's integer arithmetic inside `int`.
   */
  predicate Bounded(cal: Calibration) {
    0 < cal.pressScaleMul <= 10000 && -16383000 <= cal.pressOffset <= 8355900
  }

  /** The calibration of a table entry: both fields positive-range and fitting in `int`. */
  lemma CatalogCalibrationBounded(typeId: int)
    requires 0 <= typeId < TYPE_COUNT
    ensures Types[typeId].pmin < Types[typeId].pmax
    ensures Bounded(Derive(Types[typeId]))
    ensures InInt32(Derive(Types[typeId]).pressScaleMul) && InInt32(Derive(Types[typeId]).pressOffset)
  {
  }

  /**
   * The processed pressure numerator is the linear interpolation that puts
   * raw PRESS_RAW_MIN at pmin and each raw count at (pmax - pmin) / 13107 mbar.
   */
  lemma {:induction false} NumeratorInterpolates(spec: VariantSpec, press: int)
    ensures PressNumerator(Derive(spec), press)
         == spec.pmin * PRESS_SCALE_DIV + (press - PRESS_RAW_MIN) * (spec.pmax - spec.pmin)
  {
    var mul := spec.pmax - spec.pmin;
    calc {
      PressNumerator(Derive(spec), press);
      press * mul + (spec.pmin * PRESS_SCALE_DIV - PRESS_RAW_MIN * mul);
      { assert press * mul - PRESS_RAW_MIN * mul == (press - PRESS_RAW_MIN) * mul; }
      spec.pmin * PRESS_SCALE_DIV + (press - PRESS_RAW_MIN) * mul;
    }
  }

  /**
   * Calibration endpoints: raw PRESS_RAW_MIN maps to pmin and raw
   * PRESS_RAW_MAX to pmax, both scaled by PRESS_SCALE_DIV.
   */
  lemma {:induction false} CalibrationEndpoints(spec: VariantSpec)
    ensures PressNumerator(Derive(spec), PRESS_RAW_MIN) == spec.pmin * PRESS_SCALE_DIV
    ensures PressNumerator(Derive(spec), PRESS_RAW_MAX) == spec.pmax * PRESS_SCALE_DIV
  {
    NumeratorInterpolates(spec, PRESS_RAW_MIN);
    NumeratorInterpolates(spec, PRESS_RAW_MAX);
  }

  /** A larger raw pressure always gives a strictly larger numerator on a catalogue part. */
  lemma {:induction false} NumeratorStrictlyIncreasing(cal: Calibration, p: int, q: int)
    requires Bounded(cal)
    requires p < q
    ensures PressNumerator(cal, p) < PressNumerator(cal, q)
  {
    assert q * cal.pressScaleMul - p * cal.pressScaleMul == (q - p) * cal.pressScaleMul;
  }

  /** For every 14-bit raw pressure the numerator lies inside `int` on a catalogue part. */
  lemma {:induction false} NumeratorInInt32(cal: Calibration, press: int)
    requires Bounded(cal)
    requires 0 <= press < 0x4000
    ensures 0 <= press * cal.pressScaleMul < 0x4000 * 10000
    ensures InInt32(PressNumerator(cal, press))
  {
    MulMonotone(press, cal.pressScaleMul, 10000);
    MulMonotone(10000, press, 0x4000 - 1);
  }

  lemma MulMonotone(x: int, y: int, z: int)
    requires 0 <= x && y <= z
    ensures x * y <= x * z
  {
  }
}
