/** The SPI frames the DAC80508 driver builds: every transfer is 24 bits, a
    register selector followed by a 16-bit value, high byte first. */
module Dac {
  import opened Types

  const REG_SYNC: u8 := 0x02
  const REG_GAIN: u8 := 0x04
  const REG_TRIGGER: u8 := 0x05
  /** First DAC data register; channel c lives at REG_DACX + c. */
  const REG_DACX: u8 := 0x08

  const CH_X: u8 := 6
  const CH_Y: u8 := 7
  const CH_R: u8 := 5
  const CH_G: u8 := 4
  const CH_B: u8 := 3

  /** One 24-bit SPI transfer. */
  datatype Frame = Frame(reg: u8, b1: u8, b2: u8)

  /** The 16-bit value a frame carries. */
  function Payload(f: Frame): u16
  {
    Be16(f.b1, f.b2)
  }

  /** `write_register`: the selector and two data bytes exactly as given. */
  function WriteRegister(reg: u8, b1: u8, b2: u8): (f: Frame)
    ensures f.reg == reg && Payload(f) == b1 * 0x100 + b2
  {
    Frame(reg, b1, b2)
  }

  /** `dac_write`: one data register update. */
  function DacWrite(channel: u8, value: u16): (f: Frame)
    requires channel < 8
    ensures f.reg == REG_DACX + channel && Payload(f) == value
  {
    Frame(REG_DACX + channel, Hi(value), Lo(value))
  }

  /** The LDAC trigger that latches every channel at once (also `dac_sync`). */
  const TriggerFrame: Frame := Frame(REG_TRIGGER, 0x00, 0x10)

  /** `dac_write_point`: X, Y, R, G, B, then the trigger. */
  function PointFrames(p: Point): (fs: seq<Frame>)
    ensures |fs| == 6 && fs[5] == SyncFrame()
    ensures fs[0].reg == 0x0E && fs[1].reg == 0x0F && fs[2].reg == 0x0D
    ensures fs[3].reg == 0x0C && fs[4].reg == 0x0B
  {
    [DacWrite(CH_X, p.x), DacWrite(CH_Y, p.y), DacWrite(CH_R, p.r),
     DacWrite(CH_G, p.g), DacWrite(CH_B, p.b), TriggerFrame]
  }

  /** `dac_write_color`: R, G, B, then the trigger; no frame touches the X
      or Y register, so the position is left alone. */
  function ColorFrames(r: u16, g: u16, b: u16): (fs: seq<Frame>)
    ensures |fs| == 4 && fs[3] == SyncFrame()
    ensures fs[0].reg == 0x0D && fs[1].reg == 0x0C && fs[2].reg == 0x0B
    ensures Payload(fs[0]) == r && Payload(fs[1]) == g && Payload(fs[2]) == b
  {
    [DacWrite(CH_R, r), DacWrite(CH_G, g), DacWrite(CH_B, b), TriggerFrame]
  }

  /** `dac_sync`: the trigger alone, the same frame that closes every point
      and colour write. */
  function SyncFrame(): (f: Frame)
    ensures f.reg == REG_TRIGGER && Payload(f) == 0x10
  {
    TriggerFrame
  }

  /** The register writes `begin` issues after setting up the bus: soft reset,
      gain, then broadcast and sync enable. */
  function BeginFrames(): (fs: seq<Frame>)
    ensures |fs| == 3
    ensures fs[0].reg == REG_TRIGGER && Payload(fs[0]) == 0x0A
    ensures fs[1].reg == REG_GAIN && Payload(fs[1]) == 0xFF
    ensures fs[2].reg == REG_SYNC && Payload(fs[2]) == 0xFFFF
  {
    [WriteRegister(REG_TRIGGER, 0x00, 0x0A), WriteRegister(REG_GAIN, 0x00, 0xFF),
     WriteRegister(REG_SYNC, 0xFF, 0xFF)]
  }

  /** What a DAC80508 receiving six frames would latch as a point: the five
      channel registers in the driver's order, followed by the trigger. */
  function DecodePoint(fs: seq<Frame>): Option<Point>
  {
    if |fs| == 6 && fs[0].reg == REG_DACX + CH_X && fs[1].reg == REG_DACX + CH_Y
       && fs[2].reg == REG_DACX + CH_R && fs[3].reg == REG_DACX + CH_G
       && fs[4].reg == REG_DACX + CH_B && fs[5] == TriggerFrame
    then Some(Point(Payload(fs[0]), Payload(fs[1]), Payload(fs[2]), Payload(fs[3]), Payload(fs[4])))
    else None
  }

  /** Every point survives the trip through its SPI frames. */
  lemma PointFramesRoundTrip(p: Point)
    ensures DecodePoint(PointFrames(p)) == Some(p)
  {
  }

  /** The frame sequence determines the point: distinct points never produce
      the same SPI traffic. */
  lemma PointFramesInjective(p: Point, q: Point)
    requires PointFrames(p) == PointFrames(q)
    ensures p == q
  {
    PointFramesRoundTrip(p);
    PointFramesRoundTrip(q);
  }
}
