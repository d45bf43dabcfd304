/** Machine integer ranges, the common Point value and the byte-level helpers
    that every producer of the laser pipeline shares. */
module Types {

  type u8 = x: int | 0 <= x < 0x100
  type u16 = x: int | 0 <= x < 0x1_0000
  type u32 = x: int | 0 <= x < 0x1_0000_0000

  datatype Option<T> = None | Some(value: T)

  /** One output sample: beam position and three colour intensities, each an
      unsigned 16-bit DAC code. x and y are centred on 0x8000. */
  datatype Point = Point(x: u16, y: u16, r: u16, g: u16, b: u16)

  /** The all-zero point that `Point p = {0}` builds. */
  const Blank: Point := Point(0, 0, 0, 0, 0)

  /** `(hi << 8) | lo`: a big-endian 16-bit value. */
  function Be16(hi: u8, lo: u8): u16
  {
    hi * 0x100 + lo
  }

  /** Splitting a 16-bit value gives back the two bytes it was assembled from. */
  lemma Be16Bytes(hi: u8, lo: u8)
    ensures Hi(Be16(hi, lo)) == hi && Lo(Be16(hi, lo)) == lo
  {
  }

  /** High and low byte of a 16-bit value, `(v >> 8) & 0xFF` and `v & 0xFF`. */
  function Hi(v: u16): (b: u8)
    ensures b * 0x100 <= v < (b + 1) * 0x100
  {
    v / 0x100
  }

  function Lo(v: u16): (b: u8)
    ensures Hi(v) * 0x100 + b == v
  {
    v % 0x100
  }

  /** Four bytes assembled big-endian, as `ntohl` or an explicit shift chain does. */
  function Be32(b0: u8, b1: u8, b2: u8, b3: u8): u32
  {
    b0 * 0x100_0000 + b1 * 0x1_0000 + b2 * 0x100 + b3
  }

  /** The four bytes of a 32-bit value, most significant first, as `>I`
      packs them. */
  function Be32Bytes(v: u32): (bs: seq<u8>)
    ensures |bs| == 4
  {
    var b0, r0 := v / 0x100_0000, v % 0x100_0000;
    var b1, r1 := r0 / 0x1_0000, r0 % 0x1_0000;
    var b2, b3 := r1 / 0x100, r1 % 0x100;
    [b0, b1, b2, b3]
  }

  /** Assembling the four bytes of a 32-bit value gives the value back. */
  lemma Be32BytesRoundTrip(v: u32)
    ensures var bs := Be32Bytes(v); Be32(bs[0], bs[1], bs[2], bs[3]) == v
  {
  }

  /** Truncation to 16 bits, as an assignment to a `uint16_t` does. */
  function Wrap16(v: int): (w: u16)
    ensures (v - w) % 0x1_0000 == 0
    ensures 0 <= v < 0x1_0000 ==> w == v
  {
    v % 0x1_0000
  }

  /** Two's-complement reading of a 16-bit pattern as an `int16_t`. */
  function Signed16(v: u16): (s: int)
    ensures -0x8000 <= s < 0x8000
    ensures s == v || s == v - 0x1_0000
  {
    if v < 0x8000 then v else v - 0x1_0000
  }

  /** Truncating the signed reading to 16 bits gives the pattern back. */
  lemma Signed16Wraps(v: u16)
    ensures Wrap16(Signed16(v)) == v
  {
  }

  /** An 8-bit channel widened to 16 bits by byte replication, `(v << 8) | v`:
      both bytes of the result are the channel. */
  function Widen8(v: u8): (w: u16)
    ensures Hi(w) == v && Lo(w) == v
  {
    v * 0x101
  }

  /** `raw + 0x8000` stored in a `uint16_t`: a signed coordinate shifted so that
      0 lands on the centre code 0x8000. */
  function CenterX(raw: u16): (c: u16)
    ensures c == Signed16(raw) + 0x8000
  {
    Wrap16(raw + 0x8000)
  }

  /** `-raw + 0x8000` stored in a `uint16_t`: the vertical flip. Every signed
      coordinate except the most negative one maps to 0x8000 minus itself. */
  function FlipY(raw: u16): (c: u16)
    ensures Signed16(raw) > -0x8000 ==> c == 0x8000 - Signed16(raw)
    ensures Signed16(raw) == -0x8000 ==> c == 0
  {
    Wrap16(0x8000 - raw)
  }

  /** The flip undoes itself. */
  lemma FlipYInvolutive(raw: u16)
    ensures FlipY(FlipY(raw)) == raw
  {
  }

  /** Bit 6 of a status byte, the ILDA blanking flag (`status & 0x40`). */
  predicate Bit6(status: u8)
  {
    (status / 0x40) % 2 == 1
  }

  /** Integer division truncating toward zero, as C's `/` on `int` and
      Python's `int(a / b)` compute it. */
  function TruncDiv(a: int, b: int): int
    requires b != 0
  {
    if (a >= 0) == (b > 0) then (if a >= 0 then a / b else (-a) / (-b))
    else -((if a >= 0 then a else -a) / (if b > 0 then b else -b))
  }

  function Min(a: int, b: int): int
  {
    if a <= b then a else b
  }
}
