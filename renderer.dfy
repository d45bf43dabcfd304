/** The render scheduler's state and its single steps: the output period,
    the brightness, the two run flags, the consumer step that drains the
    point buffer into DAC frames and the file-playback producer step. */
module Render {
  import opened Types
  import opened PointBuffer
  import opened Ilda
  import opened Dac

  /** `1000000 / 100000`: the period in microseconds that `start` sets. */
  const START_PERIOD: u32 := 1000000 / 100000
  /** Periods below this are refused by `change_freq`. */
  const MIN_PERIOD: u32 := 10
  /** Full brightness, in percent. */
  const FULL_BRIGHTNESS: u8 := 100
  /** Size of the local point arrays both tasks work through. */
  const CHUNK: u16 := 512

  /** `(channel * brightness) / 100` when brightness is below 100, the
      channel itself otherwise. */
  function Scale(c: u16, brightness: u8): u16
  {
    if brightness < FULL_BRIGHTNESS then c * brightness / 100 else c
  }

  /** Scaling never makes a channel brighter, black stays black, full
      brightness changes nothing and zero brightness is black. */
  lemma ScaleBounds(c: u16, brightness: u8)
    ensures Scale(c, brightness) <= c
    ensures c == 0 ==> Scale(c, brightness) == 0
    ensures brightness >= FULL_BRIGHTNESS ==> Scale(c, brightness) == c
    ensures brightness == 0 ==> Scale(c, brightness) == 0
  {
    if brightness < FULL_BRIGHTNESS {
      assert c * brightness <= c * 100;
    }
  }

  /** At brightness 50 every channel is halved, rounding down. */
  lemma ScaleHalf(c: u16)
    ensures Scale(c, 50) == c / 2
  {
  }

  /** A brighter setting never gives a darker channel. */
  lemma ScaleMonotone(c: u16, b1: u8, b2: u8)
    requires b1 <= b2 <= FULL_BRIGHTNESS
    ensures Scale(c, b1) <= Scale(c, b2)
  {
    assert c * b1 <= c * b2;
    if b2 == FULL_BRIGHTNESS {
      assert c * b2 / 100 == c;
    }
  }

  /** The point the DAC task writes: position as queued, colours scaled. */
  function ScalePoint(p: Point, brightness: u8): (q: Point)
    ensures q.x == p.x && q.y == p.y
    ensures q.r <= p.r && q.g <= p.g && q.b <= p.b
    ensures brightness >= FULL_BRIGHTNESS ==> q == p
    ensures brightness == 0 ==> q.r == 0 && q.g == 0 && q.b == 0
  {
    ScaleBounds(p.r, brightness);
    ScaleBounds(p.g, brightness);
    ScaleBounds(p.b, brightness);
    Point(p.x, p.y, Scale(p.r, brightness), Scale(p.g, brightness), Scale(p.b, brightness))
  }

  /** The SPI traffic of writing the points `ps`, in order, at `brightness`. */
  function OutputFrames(ps: seq<Point>, brightness: u8): (fs: seq<Frame>)
    ensures |fs| == 6 * |ps|
    decreases |ps|
  {
    if ps == [] then []
    else OutputFrames(ps[..|ps| - 1], brightness) + PointFrames(ScalePoint(ps[|ps| - 1], brightness))
  }

  /** The DAC latches exactly the drained points, scaled, in FIFO order:
      the k-th group of six frames decodes to the k-th point. */
  lemma {:induction false} OutputFramesDecode(ps: seq<Point>, brightness: u8, k: nat)
    requires k < |ps|
    ensures DecodePoint(OutputFrames(ps, brightness)[6 * k..6 * k + 6]) == Some(ScalePoint(ps[k], brightness))
    decreases |ps|
  {
    var n := |ps| - 1;
    var front := OutputFrames(ps[..n], brightness);
    var last := PointFrames(ScalePoint(ps[n], brightness));
    assert OutputFrames(ps, brightness) == front + last;
    if k < n {
      OutputFramesDecode(ps[..n], brightness, k);
      assert (front + last)[6 * k..6 * k + 6] == front[6 * k..6 * k + 6];
      assert ps[..n][k] == ps[k];
    } else {
      assert (front + last)[6 * k..6 * k + 6] == last;
      PointFramesRoundTrip(ScalePoint(ps[n], brightness));
    }
  }

  /** The inner loop of `DACTask`: scale each of the `n` drained points in
      place, then hand it to `dac_write_point`; `written` is the sequence of
      points handed over, whose SPI traffic is `OutputFrames`. */
  method WritePoints(points: array<Point>, n: u16, brightness: u8) returns (written: seq<Point>)
    requires n as int <= points.Length
    modifies points
    ensures |written| == n as int
    ensures forall j :: 0 <= j < n ==> written[j] == points[j] == ScalePoint(old(points[j]), brightness)
    ensures points[n..] == old(points[n..])
  {
    ghost var drained := points[..n];
    written := [];
    var i: u16 := 0;
    while i < n
      invariant 0 <= i <= n
      invariant points[i..] == old(points[i..])
      invariant |written| == i as int
      invariant forall j :: 0 <= j < i ==> written[j] == points[j] == ScalePoint(drained[j], brightness)
    {
      assert points[i] == old(points[i..])[0] == drained[i];
      points[i] := ScalePoint(points[i], brightness);
      written := written + [points[i]];
      i := i + 1;
      assert points[i..] == old(points[i..]);
    }
  }

  /** `Renderer`: the scheduler state shared by the tasks. `buffer` is the
      file-static point buffer and `ilda` the file decoder. */
  class Renderer {
    const buffer: PointRingBuffer
    const ilda: IldaStream
    /** `timer_val`: the output period in microseconds. */
    var timerVal: u32
    /** Percent, 0 to 100. */
    var brightness: u8
    var rendererRunning: bool
    var sdRunning: bool

    ghost predicate Valid()
      reads this, buffer, buffer.buffer, ilda, ilda.palette
    {
      buffer.Valid() && ilda.Valid() &&
      MIN_PERIOD <= timerVal && brightness <= FULL_BRIGHTNESS
    }

    /** The state the declarations give: period 10, full brightness, both
        flags off, an empty buffer and no file. */
    constructor ()
      ensures Valid() && fresh(buffer) && fresh(buffer.buffer) && fresh(ilda) && fresh(ilda.palette)
      ensures timerVal == 10 && brightness == FULL_BRIGHTNESS && !rendererRunning && !sdRunning
      ensures buffer.Contents == [] && ilda.file.None?
    {
      buffer := new PointRingBuffer();
      var palette := new u8[PALETTE_SIZE, 3];
      ilda := new IldaStream(palette);
      timerVal, brightness := 10, FULL_BRIGHTNESS;
      rendererRunning, sdRunning := false, false;
    }

    /** `buffer_add_points`: the buffer's own `addPoints`, its result dropped. */
    method BufferAddPoints(points: seq<Point>)
      requires Valid() && |points| < 0x1_0000
      modifies buffer, buffer.buffer
      ensures Valid() && buffer.Contents == AfterAdd(old(buffer.Contents), points)
    {
      var _ := buffer.AddPoints(points);
    }

    /** `buffer_clear_points`. */
    method BufferClearPoints()
      requires Valid()
      modifies buffer
      ensures Valid() && buffer.Contents == []
    {
      buffer.Clear();
    }

    /** `start`: the period goes back to its start value, whatever
        `change_freq` set before, and rendering is on. */
    method Start()
      requires Valid()
      modifies this
      ensures Valid() && timerVal == START_PERIOD && rendererRunning
      ensures brightness == old(brightness) && sdRunning == old(sdRunning)
    {
      timerVal := START_PERIOD;
      rendererRunning := true;
    }

    /** `stop`: rendering off, the DAC reset to the all-zero point (the
        point returned, written through `dac_write_point`), and the buffer
        emptied. */
    method Stop() returns (reset: Point)
      requires Valid()
      modifies this, buffer
      ensures Valid() && !rendererRunning && buffer.Contents == []
      ensures reset == Blank
      ensures timerVal == old(timerVal) && brightness == old(brightness) && sdRunning == old(sdRunning)
    {
      rendererRunning := false;
      reset := Blank;
      BufferClearPoints();
    }

    /** `sd_stop`: playback off and the file closed. The decoder reads
        through the same handle, so it is detached too. */
    method SdStop()
      requires Valid()
      modifies this, ilda
      ensures Valid() && !sdRunning && ilda.file.None?
      ensures rendererRunning == old(rendererRunning) && timerVal == old(timerVal) && brightness == old(brightness)
      ensures ilda.Rows == old(ilda.Rows)
    {
      sdRunning := false;
      ilda.CloseFile();
    }

    /** `sd_start`: playback runs exactly when the decoder accepts the
        file's first header; otherwise this is `sd_stop`. */
    method SdStart(f: Option<seq<u8>>)
      requires Valid()
      modifies this, ilda
      ensures Valid() && (sdRunning <==> f.Some? && HeaderAccepted(f.value))
      ensures sdRunning ==> ilda.file == f && ilda.Cur() == Restart(f.value)
      ensures !sdRunning ==> ilda.file.None?
      ensures rendererRunning == old(rendererRunning) && timerVal == old(timerVal) && brightness == old(brightness)
      ensures ilda.Rows == old(ilda.Rows)
    {
      var rc := ilda.ReadHeader(f);
      if rc != 0 {
        SdStop();
        return;
      }
      sdRunning := true;
    }

    /** `change_freq`: periods below 10 are refused, others taken. */
    method ChangeFreq(val: u32)
      requires Valid()
      modifies this
      ensures Valid() && timerVal == (if val < MIN_PERIOD then old(timerVal) else val)
      ensures brightness == old(brightness)
      ensures rendererRunning == old(rendererRunning) && sdRunning == old(sdRunning)
    {
      if val < MIN_PERIOD {
        return;
      }
      timerVal := val;
    }

    /** `change_brightness`: values above 100 are refused, others taken. */
    method ChangeBrightness(val: u8)
      requires Valid()
      modifies this
      ensures Valid() && brightness == (if val <= FULL_BRIGHTNESS then val else old(brightness))
      ensures timerVal == old(timerVal)
      ensures rendererRunning == old(rendererRunning) && sdRunning == old(sdRunning)
    {
      if val <= FULL_BRIGHTNESS {
        brightness := val;
      }
    }

    /** One pass of `DACTask`: with rendering off nothing happens; otherwise
        up to 512 of the oldest points are drained and each is written
        scaled (`written`, in order, each through `dac_write_point`), or, on
        an empty buffer, the colours alone are blanked: `blanking` is the
        traffic of `dac_write_color(0, 0, 0)`, sent only on such an idle
        pass. The timer tick each point waits for is not modelled. */
    method DacStep() returns (written: seq<Point>, idle: bool, blanking: seq<Frame>)
      requires Valid()
      modifies buffer
      ensures Valid()
      ensures !rendererRunning ==> written == [] && !idle && buffer.Contents == old(buffer.Contents)
      ensures rendererRunning ==>
                var n := if |old(buffer.Contents)| < CHUNK as int then |old(buffer.Contents)| else CHUNK as int;
                buffer.Contents == old(buffer.Contents)[n..] && (idle <==> n == 0) && |written| == n &&
                forall k :: 0 <= k < n ==> written[k] == ScalePoint(old(buffer.Contents)[k], brightness)
      ensures blanking == if idle then ColorFrames(0, 0, 0) else []
    {
      if !rendererRunning {
        return [], false, [];
      }
      ghost var queued := buffer.Contents;
      var points := new Point[CHUNK](_ => Blank);
      var n := buffer.GetPoints(points, CHUNK);
      if n == 0 {
        return [], true, ColorFrames(0, 0, 0);
      }
      ghost var drained := points[..n];
      assert drained == queued[..n];
      written := WritePoints(points, n, brightness);
      assert forall k :: 0 <= k < n ==> written[k] == ScalePoint(drained[k], brightness);
      idle, blanking := false, [];
    }

    /** One pass of `SDTask`: with playback off nothing happens; otherwise a
        chunk of up to 512 points is read from the file into a local array
        that starts out as `scratch` (it is uninitialised in the firmware).
        A non-empty chunk is pushed only once `canItFit` says all of it
        fits, and then all of it goes in. The task polls again after a
        delay while it does not fit; this step reports `pushed == false`
        for that case and leaves the buffer alone. */
    method SdStep(scratch: seq<Point>, stale: seq<u8>, fuel: nat) returns (chunk: seq<Point>, pushed: bool)
      requires Valid() && |scratch| == CHUNK as int && |stale| == TEMP_SIZE
      modifies ilda, ilda.palette, buffer, buffer.buffer
      ensures Valid()
      ensures !sdRunning ==> chunk == [] && !pushed && buffer.Contents == old(buffer.Contents)
      ensures |chunk| <= CHUNK as int
      ensures old(sdRunning && ilda.file.Some? && ilda.bytesPerRecord > 0) ==>
                chunk == Points(old(ilda.Rows), old(Reads(ilda.file.value, ilda.bytesPerRecord, ilda.Cur(), CHUNK, fuel)).records,
                                scratch, stale)
      ensures pushed <==> sdRunning && 0 < |chunk| <= CAPACITY - |old(buffer.Contents)|
      ensures buffer.Contents == if pushed then old(buffer.Contents) + chunk else old(buffer.Contents)
    {
      if !sdRunning {
        return [], false;
      }
      var p := new Point[CHUNK](i requires 0 <= i < CHUNK as int => scratch[i]);
      assert p[..CHUNK] == scratch;
      var count, _ := ilda.ReadChunk(p, CHUNK, stale, fuel);
      chunk := p[..count];
      pushed := PushWhole(chunk);
    }

    /** The SD task's push: a non-empty chunk goes in only when `canItFit`
        says all of it fits, and then all of it goes in. */
    method PushWhole(chunk: seq<Point>) returns (pushed: bool)
      requires Valid() && |chunk| <= CHUNK as int
      modifies buffer, buffer.buffer
      ensures Valid()
      ensures pushed <==> 0 < |chunk| <= CAPACITY - |old(buffer.Contents)|
      ensures buffer.Contents == if pushed then old(buffer.Contents) + chunk else old(buffer.Contents)
    {
      if |chunk| == 0 {
        return false;
      }
      var fits := buffer.CanItFit(|chunk| as u16);
      if !fits {
        return false;
      }
      BufferAddPoints(chunk);
      assert chunk[..Accepted(|old(buffer.Contents)|, |chunk|)] == chunk;
      pushed := true;
    }
  }

  /** The SD task's "wait for room, then push" is all-or-nothing when it is
      the only producer: whenever `canItFit(n)` held, `addPoints` of those
      `n` points appends every one of them and reports success. */
  lemma CanItFitThenAddAppendsAll(contents: seq<Point>, points: seq<Point>)
    requires |contents| <= CAPACITY && |points| <= CAPACITY - |contents|
    ensures AfterAdd(contents, points) == contents + points
    ensures Accepted(|contents|, |points|) == |points|
  {
    assert points[..|points|] == points;
  }

  /** `change_brightness` takes a `uint8_t`: an `int` argument is cut to its
      low byte first. */
  function ToU8(v: int): (b: u8)
    ensures (v - b) % 0x100 == 0
  {
    v % 0x100
  }

  /** A request for 356 % arrives as 100 % and is accepted; one for 101 %
      is refused. */
  lemma BrightnessTruncationExample()
    ensures ToU8(356) == 100 && ToU8(356) <= FULL_BRIGHTNESS
    ensures ToU8(101) > FULL_BRIGHTNESS
  {
  }
}
