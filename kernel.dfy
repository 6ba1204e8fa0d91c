/**
 * The pieces of the C and Linux kernel environment that the AMS5915 driver
 * relies on: fixed-width integer types, the usual arithmetic conversions of
 * `uint32_t` arithmetic, error numbers and the IIO return codes.
 */
module Kernel {

  const TWO_31: int := 0x8000_0000
  const TWO_32: int := 0x1_0000_0000

  type uint32 = x: int | 0 <= x < 0x1_0000_0000
  type int32 = x: int | -0x8000_0000 <= x < 0x8000_0000
  type int64 = x: int | -0x8000_0000_0000_0000 <= x < 0x8000_0000_0000_0000

  /** A negative error number as returned by kernel calls (`-EIO`, ...). */
  type NegErrno = x: int | x < 0 witness -1

  // Error numbers from the kernel's errno headers.
  const EIO: int := 5
  const ENOMEM: int := 12
  const EINVAL: int := 22
  const EOPNOTSUPP: int := 95

  // Return codes of an IIO `read_raw` callback and of an interrupt handler.
  const IIO_VAL_INT: int := 1
  const IIO_VAL_FRACTIONAL: int := 10
  const IRQ_HANDLED: int := 1

  predicate InInt32(x: int) {
    -TWO_31 <= x < TWO_31
  }

  /** Either a value or a negative error number, as C returns them. */
  datatype Result<T> = Ok(value: T) | Err(code: NegErrno)

  datatype Option<T> = None | Some(value: T)

  /** Conversion of a signed operand to `uint32_t`: reduction modulo 2^32. */
  function ToU32(x: int): (r: uint32)
    ensures (r - x) % TWO_32 == 0
    ensures 0 <= x < TWO_32 ==> r == x
  {
    x % TWO_32
  }

  /** `a * b` on two `uint32_t` operands: the product modulo 2^32. */
  function MulU32(a: uint32, b: uint32): (r: uint32)
    ensures (r - a * b) % TWO_32 == 0
    ensures a * b < TWO_32 ==> r == a * b
  {
    var p := a * b;
    ReduceU32(p);
    p % TWO_32
  }

  lemma ReduceU32(p: int)
    ensures (p % TWO_32 - p) % TWO_32 == 0
    ensures 0 <= p < TWO_32 ==> p % TWO_32 == p
  {
    var q := p / TWO_32;
    assert p % TWO_32 - p == -q * TWO_32;
  }

  /** `a + b` on two `uint32_t` operands: the sum modulo 2^32. */
  function AddU32(a: uint32, b: uint32): (r: uint32)
    ensures (r - (a + b)) % TWO_32 == 0
    ensures a + b < TWO_32 ==> r == a + b
    ensures TWO_32 <= a + b ==> r == a + b - TWO_32
  {
    (a + b) % TWO_32
  }

  /** `a / b` on two `uint32_t` operands: the quotient rounded down. */
  function DivU32(a: uint32, b: uint32): (r: uint32)
    requires b != 0
    ensures r * b <= a < (r + 1) * b
  {
    a / b
  }

  /**
   * Storing a `uint32_t` into an `int`: values above INT_MAX wrap to the
   * negative half, as the kernel's two's-complement targets do.
   */
  function ToInt32(u: uint32): (r: int32)
    ensures (r - u) % TWO_32 == 0
    ensures u < TWO_31 ==> r == u
  {
    if u < TWO_31 then u else u - TWO_32
  }

  /**
   * A value that fits in `int` survives the trip through `uint32_t` and back
   * unchanged: the wrap-around of unsigned arithmetic is harmless for it.
   */
  lemma WrapRoundTrip(x: int)
    requires InInt32(x)
    ensures ToInt32(ToU32(x)) == x
  {
    if x < 0 {
      assert ToU32(x) == x + TWO_32;
    }
  }
}
