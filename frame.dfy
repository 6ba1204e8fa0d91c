/**
 * The sensor's 4-byte response and `ams5915_read`'s decoding of it: two
 * big-endian 16-bit words, pressure in the low 14 bits of the first and
 * temperature in 11 bits of the second starting at bit 5.
 */
module Frame {
  import opened Kernel

  const FRAME_LEN: int := 4

  const PRESS_RAW_SHIFT: bv16 := 0
  const PRESS_RAW_MASK: bv16 := 0x3FFF
  const TEMP_RAW_SHIFT: bv16 := 5
  const TEMP_RAW_MASK: bv16 := 0x7FF

  /** One decoded sample: the `AMS5915_RAW_T` record pushed to the buffer. */
  datatype RawSample = RawSample(press: uint32, temp: uint32, timestamp: int64)

  /**
   * What the bus receive gave back: a negative error number, or the bytes it
   * delivered (their count is the receive's return value).
   */
  datatype Recv = Failed(code: NegErrno) | Got(bytes: seq<bv8>)

  /** `be16_to_cpu` of two consecutive bytes. */
  function BigEndian16(hi: bv8, lo: bv8): (w: bv16)
    ensures w as int == hi as int * 256 + lo as int
  {
    ShiftOr(hi, lo);
    JoinByte(hi as bv16, lo as bv16);
    Widen(hi);
    Widen(lo);
    (hi as bv16 << 8) | lo as bv16
  }

  /** The pressure field of the first word. */
  function PressField(w: bv16): (p: uint32)
    ensures p == w as int % 0x4000
  {
    LowBits(w);
    ((w >> PRESS_RAW_SHIFT) & PRESS_RAW_MASK) as int
  }

  /** The temperature field of the second word. */
  function TempField(w: bv16): (t: uint32)
    ensures t == w as int / 32
    ensures t < 0x800
  {
    HighBits(w);
    ((w >> TEMP_RAW_SHIFT) & TEMP_RAW_MASK) as int
  }

  /** Decodes a complete frame, stamping it with the clock reading `now`. */
  function Decode(bytes: seq<bv8>, now: int64): (s: RawSample)
    requires |bytes| == FRAME_LEN
    ensures s.press == (bytes[0] & 0x3F) as int * 256 + bytes[1] as int
    ensures s.temp == (bytes[2] as int * 256 + bytes[3] as int) / 32
    ensures s.press < 0x4000 && s.temp < 0x800
    ensures s.timestamp == now
  {
    PressFromBytes(bytes[0], bytes[1]);
    RawSample(PressField(BigEndian16(bytes[0], bytes[1])),
              TempField(BigEndian16(bytes[2], bytes[3])),
              now)
  }

  /**
   * `ams5915_read`: a receive error is passed through unchanged, any byte
   * count other than four becomes `-EIO`, and four bytes decode to a sample.
   */
  function ReadFrame(rx: Recv, now: int64): (r: Result<RawSample>)
    ensures rx.Failed? ==> r == Err(rx.code)
    ensures rx.Got? && |rx.bytes| != FRAME_LEN ==> r == Err(-EIO)
    ensures r.Ok? <==> rx.Got? && |rx.bytes| == FRAME_LEN
  {
    match rx
    case Failed(code) => Err(code)
    case Got(bytes) => if |bytes| != FRAME_LEN then Err(-EIO) else Ok(Decode(bytes, now))
  }

  /**
   * The sensor side of the wire format: the frame that carries a 14-bit
   * pressure and an 11-bit temperature, with the status bits (the top two
   * bits of word 0, the low five of word 1) clear.
   */
  function Encode(press: bv16, temp: bv16): (bytes: seq<bv8>)
    requires press < 0x4000 && temp < 0x800
    ensures |bytes| == FRAME_LEN
  {
    var w1 := temp << TEMP_RAW_SHIFT;
    [(press >> 8) as bv8, (press & 0xFF) as bv8, (w1 >> 8) as bv8, (w1 & 0xFF) as bv8]
  }

  /** Decoding an encoded frame gives back the pressure and temperature that went in. */
  lemma {:induction false} DecodeEncode(press: bv16, temp: bv16, now: int64)
    requires press < 0x4000 && temp < 0x800
    ensures Decode(Encode(press, temp), now) == RawSample(press as int, temp as int, now)
  {
    PressOfEncode(press, temp);
    TempOfEncode(press, temp);
    DecodeFromFields(Encode(press, temp), now, press as int, temp as int);
  }

  /**
   * Two frames decode to the same sample exactly when they agree outside the
   * status bits: on the low six bits of byte 0, on bytes 1 and 2 and on the
   * top three bits of byte 3.
   */
  lemma {:induction false} DecodeIgnoresOnlyStatusBits(a: seq<bv8>, b: seq<bv8>, now: int64)
    requires |a| == FRAME_LEN && |b| == FRAME_LEN
    ensures Decode(a, now) == Decode(b, now) <==>
      (a[0] & 0x3F == b[0] & 0x3F && a[1] == b[1] && a[2] == b[2] && a[3] & 0xE0 == b[3] & 0xE0)
  {
    if a[0] & 0x3F == b[0] & 0x3F && a[1] == b[1] && a[2] == b[2] && a[3] & 0xE0 == b[3] & 0xE0 {
      StatusBitsIgnored(a, b, now);
    }
    if Decode(a, now) == Decode(b, now) {
      SameSampleSameData(a, b, now);
    }
  }

  lemma StatusBitsIgnored(a: seq<bv8>, b: seq<bv8>, now: int64)
    requires |a| == FRAME_LEN && |b| == FRAME_LEN
    requires a[0] & 0x3F == b[0] & 0x3F && a[1] == b[1] && a[2] == b[2] && a[3] & 0xE0 == b[3] & 0xE0
    ensures Decode(a, now) == Decode(b, now)
  {
    DecodedFields(a, now);
    DecodedFields(b, now);
  }

  lemma SameSampleSameData(a: seq<bv8>, b: seq<bv8>, now: int64)
    requires |a| == FRAME_LEN && |b| == FRAME_LEN
    requires Decode(a, now) == Decode(b, now)
    ensures a[0] & 0x3F == b[0] & 0x3F && a[1] == b[1] && a[2] == b[2] && a[3] & 0xE0 == b[3] & 0xE0
  {
    DecodedFields(a, now);
    DecodedFields(b, now);
    PressBytesEqual(a[0] & 0x3F, a[1], b[0] & 0x3F, b[1]);
    TempBytesEqual(a[2], a[3], b[2], b[3]);
  }

  /** The 14-bit pressure determines the six low bits of byte 0 and all of byte 1. */
  lemma PressBytesEqual(x: bv8, y: bv8, x': bv8, y': bv8)
    requires x as int * 256 + y as int == x' as int * 256 + y' as int
    ensures x == x' && y == y'
  {
    Unpair(x as int, y as int, x' as int, y' as int, 256);
    SameByte(x, x');
    SameByte(y, y');
  }

  /** The 11-bit temperature determines byte 2 and the three high bits of byte 3. */
  lemma TempBytesEqual(x: bv8, y: bv8, x': bv8, y': bv8)
    requires x as int * 8 + (y & 0xE0) as int / 32 == x' as int * 8 + (y' & 0xE0) as int / 32
    ensures x == x' && y & 0xE0 == y' & 0xE0
  {
    Top3Aligned(y);
    Top3Aligned(y');
    SameQuotient(x as int, (y & 0xE0) as int, x' as int, (y' & 0xE0) as int);
    SameByte(x, x');
    SameByte(y & 0xE0, y' & 0xE0);
  }

  lemma Top3Aligned(y: bv8)
    ensures (y & 0xE0) as int % 32 == 0
  {
    Top3(y);
    MultipleOf32(y as int / 32);
  }

  lemma MultipleOf32(q: int)
    ensures (q * 32) % 32 == 0
  {
    DivModUnique(q * 32, q, 0, 32);
  }

  lemma SameQuotient(x: int, y: int, x': int, y': int)
    requires 0 <= y < 256 && 0 <= y' < 256 && y % 32 == 0 && y' % 32 == 0
    requires x * 8 + y / 32 == x' * 8 + y' / 32
    ensures x == x' && y == y'
  {
    Unpair(x, y / 32, x', y' / 32, 8);
  }

  // ---- Helpers: bit-vector operations read as integer arithmetic ----

  lemma ShiftOr(hi: bv8, lo: bv8)
    ensures (hi as bv16 << 8) | lo as bv16 == hi as bv16 * 256 + lo as bv16
  {
  }

  lemma JoinByte(a: bv16, b: bv16)
    requires a < 256 && b < 256
    ensures (a * 256 + b) as int == a as int * 256 + b as int
  {
  }

  lemma Widen(b: bv8)
    ensures (b as bv16) as int == b as int
  {
  }

  lemma Narrow(w: bv16)
    requires w < 256
    ensures (w as bv8) as int == w as int
  {
  }

  lemma SameByte(a: bv8, b: bv8)
    ensures a as int == b as int <==> a == b
  {
    ByteFromValue(a);
    ByteFromValue(b);
  }

  lemma ByteFromValue(b: bv8)
    ensures (b as int) as bv8 == b
  {
  }

  lemma Low6(b: bv8)
    ensures (b & 0x3F) as int == b as int % 64
  {
  }

  lemma Top3(b: bv8)
    ensures (b & 0xE0) as int == b as int / 32 * 32
  {
  }

  lemma LowBits(w: bv16)
    ensures ((w >> PRESS_RAW_SHIFT) & PRESS_RAW_MASK) as int == w as int % 0x4000
  {
    SplitLow(w);
    JoinLow(w >> 14, w & 0x3FFF);
    DivModUnique(w as int, (w >> 14) as int, (w & 0x3FFF) as int, 0x4000);
  }

  lemma HighBits(w: bv16)
    ensures ((w >> TEMP_RAW_SHIFT) & TEMP_RAW_MASK) as int == w as int / 32
  {
    SplitHigh(w);
    JoinHigh(w >> 5, w & 0x1F);
    DivModUnique(w as int, (w >> 5) as int, (w & 0x1F) as int, 32);
  }

  lemma SplitLow(w: bv16)
    ensures (w >> PRESS_RAW_SHIFT) & PRESS_RAW_MASK == w & 0x3FFF
    ensures w == (w >> 14) * 0x4000 + (w & 0x3FFF)
    ensures (w >> 14) < 4 && (w & 0x3FFF) < 0x4000
  {
  }

  lemma SplitHigh(w: bv16)
    ensures w == (w >> 5) * 32 + (w & 0x1F)
    ensures (w >> TEMP_RAW_SHIFT) & TEMP_RAW_MASK == w >> 5
    ensures (w >> 5) < 0x800 && (w & 0x1F) < 32
  {
  }

  lemma JoinLow(q: bv16, r: bv16)
    requires q < 4 && r < 0x4000
    ensures (q * 0x4000 + r) as int == q as int * 0x4000 + r as int
  {
  }

  lemma JoinHigh(q: bv16, r: bv16)
    requires q < 0x800 && r < 32
    ensures (q * 32 + r) as int == q as int * 32 + r as int
  {
  }

  lemma DivModUnique(w: int, q: int, r: int, d: int)
    requires d == 8 || d == 32 || d == 256 || d == 0x4000
    requires w == q * d + r && 0 <= r < d
    ensures w / d == q && w % d == r
  {
  }

  lemma PressFromBytes(hi: bv8, lo: bv8)
    ensures PressField(BigEndian16(hi, lo)) == (hi & 0x3F) as int * 256 + lo as int
  {
    Low6(hi);
    var x, y := hi as int, lo as int;
    var q, m := x / 64, x % 64;
    assert x == q * 64 + m && 0 <= m < 64;
    assert x * 256 == q * 0x4000 + m * 256;
    assert 0 <= m * 256 + y < 0x4000;
    DivModUnique(x * 256 + y, q, m * 256 + y, 0x4000);
    var w := BigEndian16(hi, lo);
    assert w as int == x * 256 + y;
    assert PressField(w) == w as int % 0x4000;
  }

  lemma PressOfEncode(press: bv16, temp: bv16)
    requires press < 0x4000 && temp < 0x800
    ensures var b := Encode(press, temp);
      (b[0] & 0x3F) as int * 256 + b[1] as int == press as int
  {
    PressBytes(press);
  }

  lemma PressBytes(press: bv16)
    requires press < 0x4000
    ensures ((press >> 8) as bv8 & 0x3F) as int * 256 + ((press & 0xFF) as bv8) as int == press as int
  {
    SplitWord(press);
    HighByteFits(press);
    Narrow(press >> 8);
    Narrow(press & 0xFF);
  }

  lemma HighByteFits(press: bv16)
    requires press < 0x4000
    ensures (press >> 8) as bv8 & 0x3F == (press >> 8) as bv8
  {
  }

  lemma SplitWord(w: bv16)
    ensures w >> 8 < 256 && w & 0xFF < 256
    ensures w as int == (w >> 8) as int * 256 + (w & 0xFF) as int
  {
    assert w == (w >> 8) * 256 + (w & 0xFF);
    JoinByte(w >> 8, w & 0xFF);
  }

  lemma TempOfEncode(press: bv16, temp: bv16)
    requires press < 0x4000 && temp < 0x800
    ensures var b := Encode(press, temp);
      (b[2] as int * 256 + b[3] as int) / 32 == temp as int
  {
    var w1 := temp << TEMP_RAW_SHIFT;
    var b := Encode(press, temp);
    assert b[2] == (w1 >> 8) as bv8 && b[3] == (w1 & 0xFF) as bv8;
    TempBytes(temp, w1);
  }

  lemma TempBytes(temp: bv16, w1: bv16)
    requires temp < 0x800 && w1 == temp << TEMP_RAW_SHIFT
    ensures (((w1 >> 8) as bv8) as int * 256 + ((w1 & 0xFF) as bv8) as int) / 32 == temp as int
  {
    SplitWord(w1);
    Narrow(w1 >> 8);
    Narrow(w1 & 0xFF);
    ShiftBack(temp, w1);
    HighBits(w1);
  }

  lemma ShiftBack(temp: bv16, w1: bv16)
    requires temp < 0x800 && w1 == temp << TEMP_RAW_SHIFT
    ensures (w1 >> TEMP_RAW_SHIFT) & TEMP_RAW_MASK == temp
  {
  }

  lemma DecodedFields(bytes: seq<bv8>, now: int64)
    requires |bytes| == FRAME_LEN
    ensures Decode(bytes, now).temp == bytes[2] as int * 8 + (bytes[3] & 0xE0) as int / 32
    ensures (bytes[3] & 0xE0) as int / 32 < 8
  {
    var x, y := bytes[2] as int, bytes[3] as int;
    DivModUnique(x * 256 + y, x * 8 + y / 32, y % 32, 32);
    Top3(bytes[3]);
    DivModUnique(y / 32 * 32, y / 32, 0, 32);
  }

  lemma Unpair(x1: int, y1: int, x2: int, y2: int, k: int)
    requires k == 8 || k == 256
    requires 0 <= y1 < k && 0 <= y2 < k
    ensures x1 * k + y1 == x2 * k + y2 <==> x1 == x2 && y1 == y2
  {
    if x1 * k + y1 == x2 * k + y2 {
      DivModUnique(x1 * k + y1, x1, y1, k);
      DivModUnique(x2 * k + y2, x2, y2, k);
    }
  }

  lemma DecodeFromFields(bytes: seq<bv8>, now: int64, press: int, temp: int)
    requires |bytes| == FRAME_LEN
    requires (bytes[0] & 0x3F) as int * 256 + bytes[1] as int == press
    requires (bytes[2] as int * 256 + bytes[3] as int) / 32 == temp
    ensures Decode(bytes, now) == RawSample(press, temp, now)
  {
  }
}
