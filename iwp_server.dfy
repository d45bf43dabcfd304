/** The IWP (ILDA Wave Protocol) UDP server: a datagram is a run of tagged
    records — turn off, output period, an 8-bit-colour point or a
    16-bit-colour point — that is decoded front to back, applying period
    and turn-off records to the renderer as they come and queuing the
    decoded points in one batch at the end. */
module Iwp {
  import opened Types
  import opened PointBuffer
  import opened Render
  import opened Udp

  /** Most points one datagram may queue. */
  const IWP_BUFFER_SIZE: nat := 1024
  /** Length of the local `points` array as the firmware declares it. */
  const AS_WRITTEN_ARRAY: nat := 512

  const IW_TYPE_0: u8 := 0x00
  const IW_TYPE_1: u8 := 0x01
  const IW_TYPE_2: u8 := 0x02
  const IW_TYPE_3: u8 := 0x03

  /** One decoded record. */
  datatype Rec =
    | TurnOff
    | SetPeriod(period: u32)
    | Rgb8(x: u16, y: u16, r: u8, g: u8, b: u8)
    | Rgb16(p: Point)

  /** The renderer fields a datagram can touch or must leave alone. */
  datatype RendererState = RendererState(timerVal: u32, contents: seq<Point>, brightness: u8,
                                         rendererRunning: bool, sdRunning: bool)

  /** The wire form of one record: its tag, then its fields big-endian. */
  function Encode(r: Rec): (bs: seq<u8>)
    ensures |bs| == match r
                     case TurnOff => 1
                     case SetPeriod(_) => 5
                     case Rgb8(_, _, _, _, _) => 8
                     case Rgb16(_) => 11
  {
    match r
    case TurnOff => [IW_TYPE_0]
    case SetPeriod(v) => [IW_TYPE_1] + Be32Bytes(v)
    case Rgb8(x, y, cr, cg, cb) => [IW_TYPE_2, Hi(x), Lo(x), Hi(y), Lo(y), cr, cg, cb]
    case Rgb16(p) => [IW_TYPE_3, Hi(p.x), Lo(p.x), Hi(p.y), Lo(p.y), Hi(p.r), Lo(p.r),
                      Hi(p.g), Lo(p.g), Hi(p.b), Lo(p.b)]
  }

  /** A run of records laid end to end. */
  function Serialize(rs: seq<Rec>): seq<u8>
  {
    if rs == [] then [] else Encode(rs[0]) + Serialize(rs[1..])
  }

  /** The record at the front of `d`, if the loop accepts one there: `None`
      for no data, an unknown tag, or a record the data cuts short. The
      record takes as many bytes as its encoding has. */
  function Head(d: seq<u8>): (h: Option<Rec>)
    ensures h.Some? ==> |Encode(h.value)| <= |d|
  {
    if |d| == 0 then None
    else if d[0] == IW_TYPE_0 then Some(TurnOff)
    else if d[0] == IW_TYPE_1 then
      if |d| < 5 then None
      else Some(SetPeriod(Be32(d[1], d[2], d[3], d[4])))
    else if d[0] == IW_TYPE_2 then
      if |d| < 8 then None
      else Some(Rgb8(Be16(d[1], d[2]), Be16(d[3], d[4]), d[5], d[6], d[7]))
    else if d[0] == IW_TYPE_3 then
      if |d| < 11 then None
      else
        Some(Rgb16(Point(Be16(d[1], d[2]), Be16(d[3], d[4]), Be16(d[5], d[6]),
                         Be16(d[7], d[8]), Be16(d[9], d[10]))))
    else None
  }

  /** The record at the front re-encodes to exactly the bytes it was read
      from. */
  lemma HeadPrefix(d: seq<u8>)
    requires Head(d).Some?
    ensures var e := Encode(Head(d).value); e == d[..|e|]
  {
    if d[0] == IW_TYPE_1 {
      var v := Be32(d[1], d[2], d[3], d[4]);
      Be32BytesRoundTrip(v);
      Be32Unique(d[1..5], Be32Bytes(v));
      assert Encode(Head(d).value) == [d[0]] + d[1..5];
    } else if d[0] == IW_TYPE_2 {
      Be16Bytes(d[1], d[2]); Be16Bytes(d[3], d[4]);
    } else if d[0] == IW_TYPE_3 {
      Be16Bytes(d[1], d[2]); Be16Bytes(d[3], d[4]); Be16Bytes(d[5], d[6]);
      Be16Bytes(d[7], d[8]); Be16Bytes(d[9], d[10]);
    }
  }

  /** The records the parse loop takes from `d`, in order. */
  function Parse(d: seq<u8>): seq<Rec>
    decreases |d|
  {
    match Head(d)
    case None => []
    case Some(r) => [r] + Parse(d[|Encode(r)|..])
  }

  /** Whatever the parse takes re-encodes to a prefix of the data: the
      decoder never invents or skips a byte. */
  lemma {:induction false} ParsePrefix(d: seq<u8>)
    ensures |Serialize(Parse(d))| <= |d| && Serialize(Parse(d)) == d[..|Serialize(Parse(d))|]
    decreases |d|
  {
    match Head(d)
    case None =>
    case Some(r) =>
      var n := |Encode(r)|;
      var rest := Parse(d[n..]);
      HeadPrefix(d);
      ParsePrefix(d[n..]);
      assert ([r] + rest)[1..] == rest;
      assert d == d[..n] + d[n..];
  }

  /** Two four-byte groups with the same big-endian value are the same bytes. */
  lemma Be32Unique(a: seq<u8>, b: seq<u8>)
    requires |a| == 4 && |b| == 4 && Be32(a[0], a[1], a[2], a[3]) == Be32(b[0], b[1], b[2], b[3])
    ensures a == b
  {
    assert a[0] == b[0];
    assert a[1] == b[1];
    assert a[2] == b[2];
  }

  /** A record's encoding is read back as that record, whatever follows. */
  lemma HeadEncode(r: Rec, tail: seq<u8>)
    ensures Head(Encode(r) + tail) == Some(r)
  {
    match r {
      case TurnOff =>
      case SetPeriod(v) => HeadEncodePeriod(v, tail);
      case Rgb8(x, y, cr, cg, cb) => HeadEncodeRgb8(x, y, cr, cg, cb, tail);
      case Rgb16(p) => HeadEncodeRgb16(p, tail);
    }
  }

  lemma HeadEncodePeriod(v: u32, tail: seq<u8>)
    ensures Head(Encode(SetPeriod(v)) + tail) == Some(SetPeriod(v))
  {
    var d := Encode(SetPeriod(v)) + tail;
    Be32BytesRoundTrip(v);
    assert d[1..5] == Be32Bytes(v);
  }

  lemma HeadEncodeRgb8(x: u16, y: u16, cr: u8, cg: u8, cb: u8, tail: seq<u8>)
    ensures Head(Encode(Rgb8(x, y, cr, cg, cb)) + tail) == Some(Rgb8(x, y, cr, cg, cb))
  {
    var d := Encode(Rgb8(x, y, cr, cg, cb)) + tail;
    assert Be16(d[1], d[2]) == x && Be16(d[3], d[4]) == y;
  }

  lemma HeadEncodeRgb16(p: Point, tail: seq<u8>)
    ensures Head(Encode(Rgb16(p)) + tail) == Some(Rgb16(p))
  {
    var d := Encode(Rgb16(p)) + tail;
    assert Be16(d[1], d[2]) == p.x && Be16(d[3], d[4]) == p.y;
    assert Be16(d[5], d[6]) == p.r && Be16(d[7], d[8]) == p.g && Be16(d[9], d[10]) == p.b;
  }

  /** Decoding undoes encoding: a datagram built from records gives those
      records back, and decoding then carries on with what follows. */
  lemma {:induction false} ParseSerialize(rs: seq<Rec>, tail: seq<u8>)
    ensures Parse(Serialize(rs) + tail) == rs + Parse(tail)
    decreases |rs|
  {
    if rs != [] {
      var r := rs[0];
      var e := Encode(r);
      var d := Serialize(rs) + tail;
      assert d == e + (Serialize(rs[1..]) + tail);
      HeadEncode(r, Serialize(rs[1..]) + tail);
      assert d[|e|..] == Serialize(rs[1..]) + tail;
      ParseSerialize(rs[1..], tail);
      assert rs == [r] + rs[1..];
    } else {
      assert Serialize(rs) + tail == tail;
    }
  }

  /** Every datagram made of records decodes to exactly those records. */
  lemma ParseSerializeExact(rs: seq<Rec>)
    ensures Parse(Serialize(rs)) == rs
  {
    ParseSerialize(rs, []);
    assert Serialize(rs) + [] == Serialize(rs);
  }

  /** Arduino's `map(v, 0, 0xFF, 0, 0xFFFF)`, integer arithmetic. */
  function ArduinoMap(v: u8): u16
  {
    (v - 0) * (0xFFFF - 0) / (0xFF - 0) + 0
  }

  /** The 8-bit colour scaling is exact: it is byte replication, so 0 stays
      0, 0xFF becomes 0xFFFF, and the top byte is the original channel. */
  lemma ArduinoMapIsWiden(v: u8)
    ensures ArduinoMap(v) == Widen8(v)
    ensures Hi(ArduinoMap(v)) == v
  {
    assert v * 0xFFFF == (v * 0x101) * 0xFF;
  }

  /** The point a record queues: a turn-off queues the all-zero point, the
      8-bit form widens its colours, a period record queues nothing. */
  function PointOf(r: Rec): (p: Option<Point>)
    ensures p.None? <==> r.SetPeriod?
    ensures r.TurnOff? ==> p == Some(Blank)
    ensures r.Rgb16? ==> p == Some(r.p)
    ensures r.Rgb8? ==> p.value.x == r.x && p.value.y == r.y && Hi(p.value.r) == r.r
                        && Hi(p.value.g) == r.g && Hi(p.value.b) == r.b
  {
    match r
    case TurnOff => Some(Blank)
    case SetPeriod(_) => None
    case Rgb8(x, y, cr, cg, cb) =>
      ArduinoMapIsWiden(cr);
      ArduinoMapIsWiden(cg);
      ArduinoMapIsWiden(cb);
      Some(Point(x, y, ArduinoMap(cr), ArduinoMap(cg), ArduinoMap(cb)))
    case Rgb16(p) => Some(p)
  }

  /** The points of a run of records, in order. */
  function Emitted(rs: seq<Rec>): (ps: seq<Point>)
    ensures |ps| <= |rs|
    ensures (forall i :: 0 <= i < |rs| ==> !rs[i].SetPeriod?) ==> |ps| == |rs|
  {
    if rs == [] then []
    else
      var last := rs[|rs| - 1];
      Emitted(rs[..|rs| - 1]) + (if last.SetPeriod? then [] else [PointOf(last).value])
  }

  /** The points a datagram queues: the first 1024 it carries. */
  function Stored(rs: seq<Rec>): (ps: seq<Point>)
    ensures |ps| <= IWP_BUFFER_SIZE
    ensures |ps| == |Emitted(rs)| || |ps| == IWP_BUFFER_SIZE
    ensures |ps| <= |Emitted(rs)| && ps == Emitted(rs)[..|ps|]
  {
    var e := Emitted(rs);
    if |e| <= IWP_BUFFER_SIZE then e else e[..IWP_BUFFER_SIZE]
  }

  /** How many points the firmware stores into its local array: the guard
      admits 1024 although the array it writes has 512 slots. */
  function StoredAsWritten(rs: seq<Rec>): nat
  {
    var n := |Emitted(rs)|;
    if n <= IWP_BUFFER_SIZE then n else IWP_BUFFER_SIZE
  }

  /** `n` zero bytes are `n` turn-off records. */
  lemma {:induction false} ZerosParse(n: nat)
    ensures Parse(seq(n, _ => 0)) == seq(n, _ => TurnOff)
  {
    if n > 0 {
      var d: seq<u8> := seq(n, _ => 0);
      ZerosParse(n - 1);
      assert d[1..] == seq(n - 1, _ => 0);
    }
  }

  /** A run of `n` turn-off records emits `n` points. */
  lemma {:induction false} TurnOffsEmit(n: nat)
    ensures |Emitted(seq(n, _ => TurnOff))| == n
  {
    var rs: seq<Rec> := seq(n, _ => TurnOff);
    assert forall i :: 0 <= i < |rs| ==> !rs[i].SetPeriod?;
  }

  /** A 513-byte datagram of zeros, well within one read, makes the firmware
      store 513 points into its 512-slot array: the last one lands past
      its end. */
  lemma AsWrittenOverflowsPoints()
    ensures var d: seq<u8> := seq(513, _ => 0);
            |d| <= RX_SIZE && StoredAsWritten(Parse(d)) > AS_WRITTEN_ARRAY
  {
    ZerosParse(513);
    TurnOffsEmit(513);
  }

  /** The period after the renderer's `change_freq` has seen every period
      record in order: periods below 10 are refused. The result is the old
      period or one the datagram carried, and never below 10 if the old
      one was not. */
  function FreqAfter(rs: seq<Rec>, t: u32): (f: u32)
    ensures f == t || SetPeriod(f) in rs
    ensures MIN_PERIOD <= t ==> MIN_PERIOD <= f
  {
    if rs == [] then t
    else
      var before := FreqAfter(rs[..|rs| - 1], t);
      var last := rs[|rs| - 1];
      assert forall r :: r in rs[..|rs| - 1] ==> r in rs;
      if last.SetPeriod? && MIN_PERIOD <= last.period then last.period else before
  }

  /** The period records that are refused leave the period alone: a
      datagram whose periods are all below 10 keeps it. */
  lemma {:induction false} RefusedPeriodsKeepPeriod(rs: seq<Rec>, t: u32)
    requires forall r :: r in rs && r.SetPeriod? ==> r.period < MIN_PERIOD
    ensures FreqAfter(rs, t) == t
  {
    if rs != [] {
      assert forall r :: r in rs[..|rs| - 1] ==> r in rs;
      RefusedPeriodsKeepPeriod(rs[..|rs| - 1], t);
    }
  }

  /** The queue after a datagram: any turn-off record empties it first,
      whatever its place among the records, then the stored points go in
      as one `addPoints` batch, if there are any. */
  function AfterDatagram(rs: seq<Rec>, contents: seq<Point>): seq<Point>
    requires |contents| <= CAPACITY
  {
    var base := if TurnOff in rs then [] else contents;
    if Stored(rs) == [] then base else AfterAdd(base, Stored(rs))
  }

  /** Points carried before a turn-off in the same datagram are not lost:
      the turn-off empties the renderer's queue, not the local batch, so
      the queue ends up holding exactly the datagram's stored points. */
  lemma TurnOffKeepsBatch(rs: seq<Rec>, contents: seq<Point>)
    requires |contents| <= CAPACITY && TurnOff in rs
    ensures AfterDatagram(rs, contents) == Stored(rs)
  {
    var s := Stored(rs);
    assert s[..|s|] == s;
  }

  /** A datagram without turn-off records appends its stored points after
      what is queued, all of them when they fit. */
  lemma PointsAppendWhenTheyFit(rs: seq<Rec>, contents: seq<Point>)
    requires TurnOff !in rs && |contents| + |Stored(rs)| <= CAPACITY
    ensures AfterDatagram(rs, contents) == contents + Stored(rs)
  {
    var s := Stored(rs);
    assert s[..|s|] == s;
  }

  /** `IWPServer`: the socket's open flag, the receive buffer and the
      renderer it feeds. */
  class IwpServer {
    const renderer: Renderer
    /** `netRxBuffer`. */
    const rx: array<u8>
    /** `udpOpen`. */
    var open: bool

    ghost predicate Valid()
      reads this, renderer, renderer.buffer, renderer.buffer.buffer, renderer.ilda, renderer.ilda.palette
    {
      rx.Length == RX_SIZE && renderer.Valid()
    }

    /** A closed server feeding `r` (`setRendererHandle`). */
    constructor (r: Renderer)
      requires r.Valid()
      ensures Valid() && renderer == r && !open && fresh(rx)
    {
      renderer := r;
      rx := new u8[RX_SIZE](_ => 0);
      open := false;
    }

    /** `begin`: the socket is opened. */
    method Begin()
      modifies this
      ensures open
    {
      open := true;
    }

    /** `stop`: the socket is closed. */
    method Stop()
      modifies this
      ensures !open
    {
      open := false;
    }

    /** The record test chain of `loop` at `offset`: the tag decides the
        record's length, and a record the datagram cuts short ends the parse. */
    method DecodeAt(offset: nat, len: nat, ghost received: seq<u8>) returns (h: Option<Rec>)
      requires offset < len <= rx.Length && received == rx[..len]
      ensures h == Head(received[offset..])
    {
      ghost var d := rx[offset..len];
      assert d == received[offset..];
      assert d[0] == rx[offset];
      var tag := rx[offset];
      if tag == IW_TYPE_0 {
        h := Some(TurnOff);
      } else if tag == IW_TYPE_1 {
        if offset + 5 > len {
          return None;
        }
        assert d[1] == rx[offset + 1] && d[2] == rx[offset + 2] && d[3] == rx[offset + 3] && d[4] == rx[offset + 4];
        h := Some(SetPeriod(Be32(rx[offset + 1], rx[offset + 2], rx[offset + 3], rx[offset + 4])));
      } else if tag == IW_TYPE_2 {
        if offset + 8 > len {
          return None;
        }
        assert forall k :: 1 <= k < 8 ==> d[k] == rx[offset + k];
        h := Some(Rgb8(Be16(rx[offset + 1], rx[offset + 2]), Be16(rx[offset + 3], rx[offset + 4]),
                       rx[offset + 5], rx[offset + 6], rx[offset + 7]));
      } else if tag == IW_TYPE_3 {
        if offset + 11 > len {
          return None;
        }
        assert forall k :: 1 <= k < 11 ==> d[k] == rx[offset + k];
        h := Some(Rgb16(Point(Be16(rx[offset + 1], rx[offset + 2]), Be16(rx[offset + 3], rx[offset + 4]),
                              Be16(rx[offset + 5], rx[offset + 6]), Be16(rx[offset + 7], rx[offset + 8]),
                              Be16(rx[offset + 9], rx[offset + 10]))));
      } else {
        h := None;
      }
    }

    /** What one record does inside `loop`: a turn-off stores the all-zero
        point and empties the renderer's queue, a period goes to
        `change_freq`, a point is stored; stores stop once `points` is full. */
    method Apply(r: Rec, points: array<Point>, count: nat) returns (count': nat)
      requires Valid() && points.Length == IWP_BUFFER_SIZE && count <= IWP_BUFFER_SIZE
      modifies points, renderer, renderer.buffer
      ensures Valid()
      ensures count' == if count < IWP_BUFFER_SIZE && !r.SetPeriod? then count + 1 else count
      ensures points[..count'] == old(points[..count]) + (if count' > count then [PointOf(r).value] else [])
      ensures renderer.timerVal == if r.SetPeriod? && MIN_PERIOD <= r.period then r.period else old(renderer.timerVal)
      ensures renderer.buffer.Contents == if r.TurnOff? then [] else old(renderer.buffer.Contents)
      ensures renderer.brightness == old(renderer.brightness)
      ensures renderer.rendererRunning == old(renderer.rendererRunning) && renderer.sdRunning == old(renderer.sdRunning)
    {
      count' := count;
      match r {
        case TurnOff =>
          if count < IWP_BUFFER_SIZE {
            points[count] := Blank;
            count' := count + 1;
          }
          renderer.BufferClearPoints();
        case SetPeriod(value) =>
          renderer.ChangeFreq(value);
        case Rgb8(x, y, cr, cg, cb) =>
          var p := Point(x, y, ArduinoMap(cr), ArduinoMap(cg), ArduinoMap(cb));
          if count < IWP_BUFFER_SIZE {
            points[count] := p;
            count' := count + 1;
          }
        case Rgb16(p) =>
          if count < IWP_BUFFER_SIZE {
            points[count] := p;
            count' := count + 1;
          }
      }
    }

    /** `loop` with one pending datagram `dgram` (an empty one stands for
        "nothing pending"). With the socket closed or nothing read nothing
        happens; otherwise the records are applied in order and the
        points queued. */
    method Loop(dgram: seq<u8>)
      requires Valid()
      modifies rx, renderer, renderer.buffer, renderer.buffer.buffer
      ensures Valid()
      ensures !open || dgram == [] ==>
                renderer.timerVal == old(renderer.timerVal) && renderer.buffer.Contents == old(renderer.buffer.Contents)
      ensures open && dgram != [] ==>
                var rs := Parse(Received(dgram));
                renderer.timerVal == FreqAfter(rs, old(renderer.timerVal)) &&
                renderer.buffer.Contents == AfterDatagram(rs, old(renderer.buffer.Contents))
      ensures renderer.brightness == old(renderer.brightness)
      ensures renderer.rendererRunning == old(renderer.rendererRunning) && renderer.sdRunning == old(renderer.sdRunning)
    {
      if !open {
        return;
      }
      var len := ReadInto(rx, dgram);
      if len == 0 {
        return;
      }
      var points, count := Records(len);
      if count > 0 {
        renderer.BufferAddPoints(points[..count]);
      }
    }

    /** The renderer fields `loop` reads back: its period, queue, brightness
        and run flags. */
    ghost function Snapshot(): RendererState
      reads renderer, renderer.buffer
    {
      RendererState(renderer.timerVal, renderer.buffer.Contents, renderer.brightness,
                    renderer.rendererRunning, renderer.sdRunning)
    }

    /** The state `loop` has reached once it has applied the records `done`
        to the renderer state `s0`: the stored points, the period and the
        queue each reflect exactly those records, and nothing else moved. */
    ghost predicate Applied(done: seq<Rec>, points: array<Point>, count: nat, s0: RendererState)
      reads this, renderer, renderer.buffer, renderer.buffer.buffer, renderer.ilda, renderer.ilda.palette, points
    {
      Valid() && points.Length == IWP_BUFFER_SIZE &&
      count == |Stored(done)| && points[..count] == Stored(done) &&
      renderer.timerVal == FreqAfter(done, s0.timerVal) &&
      renderer.buffer.Contents == (if TurnOff in done then [] else s0.contents) &&
      renderer.brightness == s0.brightness &&
      renderer.rendererRunning == s0.rendererRunning && renderer.sdRunning == s0.sdRunning
    }

    /** `Apply`, seen from the parse: one more record applied. */
    method ApplyNext(r: Rec, points: array<Point>, count: nat, ghost done: seq<Rec>, ghost s0: RendererState)
        returns (count': nat)
      requires Applied(done, points, count, s0)
      modifies points, renderer, renderer.buffer
      ensures Applied(done + [r], points, count', s0)
    {
      count' := Apply(r, points, count);
      StoredStep(done, r, s0.timerVal);
    }

    /** The record loop of `loop` over the first `len` received bytes: the
        records are applied in order and the points stored locally, in a
        fresh array of `IWP_BUFFER_SIZE` slots. */
    method Records(len: nat) returns (points: array<Point>, count: nat)
      requires Valid() && 0 < len <= rx.Length
      modifies renderer, renderer.buffer
      ensures fresh(points) && Applied(Parse(rx[..len]), points, count, old(Snapshot()))
    {
      ghost var d := rx[..len];
      ghost var s0 := Snapshot();
      points := NewBatch();
      count := 0;
      var offset := 0;
      ghost var done: seq<Rec> := [];
      assert d[0..] == d;
      assert ParsedUpTo(d, 0, []);
      while offset < len
        invariant 0 <= offset <= len && rx[..len] == d
        invariant ParsedUpTo(d, offset, done)
        invariant Applied(done, points, count, s0)
        decreases len - offset
      {
        ParseResumes(d, offset, done);
        var h := DecodeAt(offset, len, d);
        if h.None? {
          break;
        }
        count := ApplyNext(h.value, points, count, done, s0);
        offset := offset + |Encode(h.value)|;
        done := done + [h.value];
      }
      ParseResumes(d, offset, done);
    }

    /** The local `points` array, empty of stored points. */
    method NewBatch() returns (points: array<Point>)
      requires Valid()
      ensures fresh(points) && Applied([], points, 0, Snapshot())
    {
      points := new Point[IWP_BUFFER_SIZE](_ => Blank);
    }
  }

  /** The parse of `d` is the records `done` followed by the parse of what
      is left from `offset` on. */
  ghost predicate ParsedUpTo(d: seq<u8>, offset: nat, done: seq<Rec>)
  {
    offset <= |d| && done + Parse(d[offset..]) == Parse(d)
  }

  /** The loop's bookkeeping: once `done` has been taken and parsing resumes
      at `offset`, it either ends there with `done` the whole parse or takes
      one more record and resumes after it. */
  lemma ParseResumes(d: seq<u8>, offset: nat, done: seq<Rec>)
    requires ParsedUpTo(d, offset, done)
    ensures Head(d[offset..]).None? ==> done == Parse(d)
    ensures offset == |d| ==> done == Parse(d)
    ensures Head(d[offset..]).Some? ==>
              var r := Head(d[offset..]).value;
              ParsedUpTo(d, offset + |Encode(r)|, done + [r])
  {
    var rest := d[offset..];
    if offset == |d| {
      assert rest == [];
      assert done + [] == done;
    }
    if Head(rest).Some? {
      var r := Head(rest).value;
      var n := |Encode(r)|;
      assert Parse(rest) == [r] + Parse(rest[n..]);
      assert rest[n..] == d[offset + n..];
      assert (done + [r]) + Parse(rest[n..]) == done + Parse(rest);
    }
  }

  /** How the stored batch, the period and the turn-off flag grow by one
      record. */
  lemma StoredStep(done: seq<Rec>, r: Rec, t: u32)
    ensures Stored(done + [r]) ==
              if |Stored(done)| < IWP_BUFFER_SIZE && !r.SetPeriod? then Stored(done) + [PointOf(r).value] else Stored(done)
    ensures FreqAfter(done + [r], t) == if r.SetPeriod? && MIN_PERIOD <= r.period then r.period else FreqAfter(done, t)
    ensures (TurnOff in done + [r]) <==> TurnOff in done || r.TurnOff?
  {
    assert (done + [r])[..|done|] == done;
  }
}
