/** The host-side sender: it parses an ILDA file into frames of points,
    resolving indexed colours through a palette as it goes, and streams each
    frame to the projector as IWP datagrams of 16-bit-colour point records,
    after one datagram that sets the output period from the scan rate. */
module Sender {
  import opened Types
  import Ilda
  import Iwp
  import Render

  const ILDA_HEADER_SIZE: nat := 32
  const PALETTE_SIZE: nat := 256
  /** UDP port of the projector's IWP server. */
  const IWP_PORT: nat := 7200
  /** Largest datagram the sender builds. */
  const MAX_PACKET_SIZE: nat := 1023
  /** `struct.calcsize(">B H H H H H")`. */
  const POINT_SIZE: nat := 11
  /** Whole point records per datagram, `max_packet_size // point_size`
      (see PacketCapacity). */
  const MAX_POINTS_PER_PACKET: nat := 93

  /** The header fields `read_ilda_header` returns. Names are the raw bytes
      with trailing zero bytes stripped. */
  datatype IldaHeader = IldaHeader(format: u8, frameName: seq<u8>, companyName: seq<u8>, records: u16,
                                   frameNumber: u16, totalFrames: u16, projectorNumber: u8)

  /** A parsed point `(x, y, z, status, r, g, b)`: signed coordinates and
      8-bit colours already resolved. */
  datatype Sample = Sample(x: int, y: int, z: int, status: u8, r: u8, g: u8, b: u8)

  datatype IldaFrame = IldaFrame(format: u8, points: seq<Sample>)

  /** What `parse_ilda` returns: the frames and the final palette. */
  datatype Parsed = Parsed(frames: seq<IldaFrame>, palette: seq<Ilda.Colour>)

  /** Every palette entry starts white. */
  function InitialPalette(): (pal: seq<Ilda.Colour>)
    ensures |pal| == PALETTE_SIZE && forall k :: 0 <= k < PALETTE_SIZE ==> pal[k] == Ilda.Colour(255, 255, 255)
  {
    seq(PALETTE_SIZE, _ => Ilda.Colour(255, 255, 255))
  }

  // ---------------------------------------------------------------------
  // Headers

  /** `bytes.rstrip(b"\x00")`. */
  function StripZeros(s: seq<u8>): (t: seq<u8>)
    ensures |t| <= |s| && t == s[..|t|]
    ensures t == [] || t[|t| - 1] != 0
    ensures forall i :: |t| <= i < |s| ==> s[i] == 0
    decreases |s|
  {
    if s == [] || s[|s| - 1] != 0 then s else StripZeros(s[..|s| - 1])
  }

  /** `read_ilda_header`: the header at `offset` and the offset after it,
      or `None` and the same offset when fewer than 32 bytes are left or
      the magic is not "ILDA". */
  function ReadIldaHeader(buf: seq<u8>, offset: nat): (r: (Option<IldaHeader>, nat))
    ensures r.0.Some? <==> offset + ILDA_HEADER_SIZE <= |buf| && buf[offset..offset + 4] == Ilda.MAGIC
    ensures r.0.None? ==> r.1 == offset
    ensures r.0.Some? ==> r.1 == offset + ILDA_HEADER_SIZE
  {
    if offset + ILDA_HEADER_SIZE > |buf| then (None, offset)
    else
      var head := buf[offset..offset + ILDA_HEADER_SIZE];
      assert head[..4] == buf[offset..offset + 4];
      if head[..4] != Ilda.MAGIC then (None, offset)
      else
        (Some(IldaHeader(head[7], StripZeros(head[8..16]), StripZeros(head[16..24]), Be16(head[24], head[25]),
                         Be16(head[26], head[27]), Be16(head[28], head[29]), head[30])),
         offset + ILDA_HEADER_SIZE)
  }

  /** The sender and the firmware read the same format and record count
      out of a header. */
  lemma HeaderAgreesWithFirmware(buf: seq<u8>, offset: nat)
    requires ReadIldaHeader(buf, offset).0.Some?
    ensures var h := ReadIldaHeader(buf, offset).0.value;
            Ilda.ParseHeader(buf[offset..offset + ILDA_HEADER_SIZE]) == Ilda.Header(Ilda.MAGIC, h.format, h.records)
  {
    assert buf[offset..offset + ILDA_HEADER_SIZE][..4] == buf[offset..offset + 4];
  }

  /** A header as a writer lays it out reads back with its format and
      record count, empty names and zero numbers, and the offset moves past
      it. */
  lemma HeaderRoundTrip(format: u8, records: u16, rest: seq<u8>)
    ensures ReadIldaHeader(Ilda.HeaderBytes(format, records) + rest, 0) ==
            (Some(IldaHeader(format, [], [], records, 0, 0, 0)), ILDA_HEADER_SIZE)
  {
    var buf := Ilda.HeaderBytes(format, records) + rest;
    var head := buf[..ILDA_HEADER_SIZE];
    assert head == Ilda.HeaderBytes(format, records);
    assert buf[0..4] == head[..4] == Ilda.MAGIC;
    Be16Bytes(0, 0);
    Be16Bytes(Hi(records), Lo(records));
    assert StripZeros(head[8..16]) == [] by {
      ZerosStrip(head[8..16]);
    }
    assert StripZeros(head[16..24]) == [] by {
      ZerosStrip(head[16..24]);
    }
  }

  /** A field of zero bytes strips to nothing. */
  lemma {:induction false} ZerosStrip(s: seq<u8>)
    requires forall i :: 0 <= i < |s| ==> s[i] == 0
    ensures StripZeros(s) == []
    decreases |s|
  {
    if s != [] {
      ZerosStrip(s[..|s| - 1]);
    }
  }

  // ---------------------------------------------------------------------
  // Records

  /** `rec_size` per format; 0 for the formats the parser stops at. */
  function RecordSize(format: u8): nat
  {
    if format == 0 then 8 else if format == 1 then 6 else if format == 2 then 3
    else if format == 4 then 10 else if format == 5 then 8 else 0
  }

  /** The sender's record sizes are the firmware's. */
  lemma RecordSizesAgree(format: u8)
    ensures RecordSize(format) == Ilda.BytesPerRecord(format)
  {
  }

  /** The formats that make a frame of points. */
  predicate PointFormat(format: u8)
  {
    format == 0 || format == 1 || format == 4 || format == 5
  }

  /** One point record as `struct.unpack` reads it from the `rec_size`
      bytes at `at`: X, Y, [Z,] status, then a palette index (looked up in
      `pal` now) or blue, green, red. */
  function DecodeRecord(format: u8, data: seq<u8>, at: nat, pal: seq<Ilda.Colour>): (s: Sample)
    requires PointFormat(format) && at + RecordSize(format) <= |data| && |pal| == PALETTE_SIZE
    ensures -0x8000 <= s.x < 0x8000 && -0x8000 <= s.y < 0x8000 && -0x8000 <= s.z < 0x8000
    ensures (format == 1 || format == 5) ==> s.z == 0
  {
    var x, y := Signed16(Be16(data[at], data[at + 1])), Signed16(Be16(data[at + 2], data[at + 3]));
    if format == 0 then
      var c := pal[data[at + 7]];
      Sample(x, y, Signed16(Be16(data[at + 4], data[at + 5])), data[at + 6], c.r, c.g, c.b)
    else if format == 1 then
      var c := pal[data[at + 5]];
      Sample(x, y, 0, data[at + 4], c.r, c.g, c.b)
    else if format == 4 then
      Sample(x, y, Signed16(Be16(data[at + 4], data[at + 5])), data[at + 6], data[at + 9], data[at + 8], data[at + 7])
    else
      Sample(x, y, 0, data[at + 4], data[at + 7], data[at + 6], data[at + 5])
  }

  /** A record reads the same whatever bytes surround it. */
  lemma DecodeInContext(format: u8, a: seq<u8>, b: seq<u8>, c: seq<u8>, at: nat, pal: seq<Ilda.Colour>)
    requires PointFormat(format) && at + RecordSize(format) <= |b| && |pal| == PALETTE_SIZE
    ensures DecodeRecord(format, a + b + c, |a| + at, pal) == DecodeRecord(format, b, at, pal)
  {
  }

  /** A firmware record read as the sender reads it: signed coordinates,
      and the palette entry or the record's own colour. */
  function FromFields(format: u8, f: Ilda.Record, pal: seq<Ilda.Colour>): Sample
    requires |pal| == PALETTE_SIZE
  {
    var z := if Ilda.ThreeD(format) then Signed16(f.z) else 0;
    if format == 0 || format == 1 then
      var c := pal[f.colorIndex];
      Sample(Signed16(f.x), Signed16(f.y), z, f.status, c.r, c.g, c.b)
    else Sample(Signed16(f.x), Signed16(f.y), z, f.status, f.red, f.green, f.blue)
  }

  /** The sender decodes every point record exactly as the firmware's
      corrected field layout does, whatever the rest of the firmware's
      scratch buffer holds. */
  lemma DecodeAgreesWithFirmware(format: u8, data: seq<u8>, at: nat, temp: seq<u8>, pal: seq<Ilda.Colour>)
    requires PointFormat(format) && at + RecordSize(format) <= |data| && |pal| == PALETTE_SIZE
    requires |temp| == Ilda.TEMP_SIZE && temp[..RecordSize(format)] == data[at..at + RecordSize(format)]
    ensures DecodeRecord(format, data, at, pal) == FromFields(format, Ilda.Fields(format, temp), pal)
  {
    var size := RecordSize(format);
    assert forall i :: 0 <= i < size ==> temp[i] == data[at + i] by {
      forall i | 0 <= i < size ensures temp[i] == data[at + i] {
        assert temp[..size][i] == temp[i];
        assert data[at..at + size][i] == data[at + i];
      }
    }
  }

  /** A palette record in file order: red, green, blue. */
  function PaletteEntry(data: seq<u8>, at: nat): (c: Ilda.Colour)
    requires at + 3 <= |data|
    ensures c.r == data[at] && c.g == data[at + 1] && c.b == data[at + 2]
  {
    Ilda.Colour(data[at], data[at + 1], data[at + 2])
  }

  /** The sender stores a palette record in the order the firmware's
      corrected store uses. */
  lemma PaletteEntryAgreesWithFirmware(data: seq<u8>, at: nat)
    requires at + 3 <= |data|
    ensures PaletteEntry(data, at) == Ilda.PaletteSlots(data[at..at + 3])
  {
    assert data[at..at + 3][0] == data[at];
  }

  /** How many records a record loop reads from `offset`: it stops after
      `records` of them or at the first one the data cuts short. */
  function Fit(len: nat, offset: nat, size: nat, records: nat): (m: nat)
    requires 0 < size
    ensures m <= records
    decreases records
  {
    if records == 0 || offset + size > len then 0
    else 1 + Fit(len, offset + size, size, records - 1)
  }

  /** The points of the record loop of a point section: point `k` is the
      record `k` places after `offset`, for as many records as fit. */
  function PointsFrom(format: u8, data: seq<u8>, offset: nat, records: nat, pal: seq<Ilda.Colour>): (ps: seq<Sample>)
    requires PointFormat(format) && offset <= |data| && |pal| == PALETTE_SIZE
    ensures |ps| == Fit(|data|, offset, RecordSize(format), records)
  {
    var size := RecordSize(format);
    var m := Fit(|data|, offset, size, records);
    FitEnd(|data|, offset, size, records);
    seq(m, k requires 0 <= k < m => MulLe(k + 1, m, size); DecodeRecord(format, data, offset + k * size, pal))
  }

  /** Where a record loop leaves the offset: after the last whole record it
      reads. */
  function RecordsEnd(len: nat, offset: nat, size: nat, records: nat): (e: nat)
    requires 0 < size && offset <= len
    ensures offset <= e <= len
    decreases records
  {
    if records == 0 || offset + size > len then offset
    else RecordsEnd(len, offset + size, size, records - 1)
  }

  /** The palette after the record loop of a palette section, from `offset`
      with record `i` next: each whole record is stored at row `i` while `i`
      is below 256, and later records are read and dropped. */
  function PaletteFrom(pal: seq<Ilda.Colour>, data: seq<u8>, offset: nat, i: nat, records: nat): (pal': seq<Ilda.Colour>)
    requires |pal| == PALETTE_SIZE && offset <= |data|
    ensures |pal'| == PALETTE_SIZE
    decreases records
  {
    if records == 0 || offset + 3 > |data| then pal
    else
      var row := if i < PALETTE_SIZE then pal[i := PaletteEntry(data, offset)] else pal;
      PaletteFrom(row, data, offset + 3, i + 1, records - 1)
  }

  /** The records read and the offset reached agree: the offset moves one
      record per record read, and when fewer than `records` are read the
      next record is cut short by the end of the data. */
  lemma {:induction false} FitEnd(len: nat, offset: nat, size: nat, records: nat)
    requires 0 < size && offset <= len
    ensures var m := Fit(len, offset, size, records);
            RecordsEnd(len, offset, size, records) == offset + m * size &&
            (m < records ==> offset + m * size + size > len)
    decreases records
  {
    if records > 0 && offset + size <= len {
      FitEnd(len, offset + size, size, records - 1);
      var m := Fit(len, offset + size, size, records - 1);
      assert offset + size + m * size == offset + (m + 1) * size;
    }
  }

  /** With all `records` records present every one is read, and the loop
      ends right after the last record. */
  lemma {:induction false} FitWhole(len: nat, offset: nat, size: nat, records: nat)
    requires 0 < size && offset + records * size <= len
    ensures Fit(len, offset, size, records) == records
    ensures RecordsEnd(len, offset, size, records) == offset + records * size
    decreases records
  {
    if records > 0 {
      assert offset + size + (records - 1) * size == offset + records * size;
      FitWhole(len, offset + size, size, records - 1);
    }
  }

  /** With all `records` palette records present, row `k` holds record
      `k - i` for the rows the loop reaches, and every other row is kept. */
  lemma {:induction false} PaletteFromWhole(pal: seq<Ilda.Colour>, data: seq<u8>, offset: nat, i: nat, records: nat)
    requires |pal| == PALETTE_SIZE && offset + 3 * records <= |data|
    ensures RecordsEnd(|data|, offset, 3, records) == offset + 3 * records
    ensures var pal' := PaletteFrom(pal, data, offset, i, records);
            forall k :: 0 <= k < PALETTE_SIZE ==>
              pal'[k] == if i <= k < i + records
                         then Ilda.Colour(data[offset + 3 * (k - i)], data[offset + 3 * (k - i) + 1], data[offset + 3 * (k - i) + 2])
                         else pal[k]
    decreases records
  {
    if records > 0 {
      var row := if i < PALETTE_SIZE then pal[i := PaletteEntry(data, offset)] else pal;
      PaletteFromWhole(row, data, offset + 3, i + 1, records - 1);
      var pal' := PaletteFrom(pal, data, offset, i, records);
      assert pal' == PaletteFrom(row, data, offset + 3, i + 1, records - 1);
      forall k | 0 <= k < PALETTE_SIZE
        ensures pal'[k] == if i <= k < i + records
                           then Ilda.Colour(data[offset + 3 * (k - i)], data[offset + 3 * (k - i) + 1], data[offset + 3 * (k - i) + 2])
                           else pal[k]
      {
        if i + 1 <= k < i + records {
          assert offset + 3 + 3 * (k - (i + 1)) == offset + 3 * (k - i);
        } else if k == i {
          assert pal'[k] == row[k] == PaletteEntry(data, offset);
        }
      }
    }
  }

  /** One section: the frame it adds, if any, where the next header is
      looked for, and the palette after it. */
  datatype Section = Section(frame: Option<IldaFrame>, next: nat, palette: seq<Ilda.Colour>)

  /** The section at `offset`, or `None` where the loop stops: at the end
      of the data, at a missing header, at an unknown format. A section cut
      short keeps the whole records before the cut. */
  function NextSection(data: seq<u8>, offset: nat, pal: seq<Ilda.Colour>): (s: Option<Section>)
    requires offset <= |data| && |pal| == PALETTE_SIZE
    ensures s.Some? ==> offset < s.value.next <= |data| && |s.value.palette| == PALETTE_SIZE
    ensures s.Some? && s.value.frame.Some? ==> PointFormat(s.value.frame.value.format) && s.value.palette == pal
  {
    if offset == |data| then None
    else
      var read := ReadIldaHeader(data, offset);
      if read.0.None? then None
      else
        var format, records, body := read.0.value.format, read.0.value.records as nat, read.1;
        if format == 2 then Some(Section(None, RecordsEnd(|data|, body, 3, records), PaletteFrom(pal, data, body, 0, records)))
        else if PointFormat(format) then
          Some(Section(Some(IldaFrame(format, PointsFrom(format, data, body, records, pal))),
                       RecordsEnd(|data|, body, RecordSize(format), records), pal))
        else None
  }

  /** `parse_ilda` from `offset` on with palette `pal`: section after
      section until the loop stops. */
  function ParseFrom(data: seq<u8>, offset: nat, pal: seq<Ilda.Colour>): (p: Parsed)
    requires offset <= |data| && |pal| == PALETTE_SIZE
    ensures |p.palette| == PALETTE_SIZE
    ensures forall f :: f in p.frames ==> PointFormat(f.format)
    decreases |data| - offset
  {
    match NextSection(data, offset, pal)
    case None => Parsed([], pal)
    case Some(s) =>
      var rest := ParseFrom(data, s.next, s.palette);
      Parsed((if s.frame.Some? then [s.frame.value] else []) + rest.frames, rest.palette)
  }

  /** `parse_ilda` on a whole file. */
  function ParseFile(data: seq<u8>): (p: Parsed)
    ensures |p.palette| == PALETTE_SIZE
  {
    ParseFrom(data, 0, InitialPalette())
  }

  /** Frames parsed so far in front of what the rest parses to. */
  function Then(frames: seq<IldaFrame>, rest: Parsed): Parsed
  {
    Parsed(frames + rest.frames, rest.palette)
  }

  /** The section after a header as a writer lays it out: the header is
      read back and the records are read from byte 32. */
  lemma HeaderThenSection(format: u8, records: u16, tail: seq<u8>, pal: seq<Ilda.Colour>)
    requires Ilda.SupportedFormat(format) && |pal| == PALETTE_SIZE
    ensures var data := Ilda.HeaderBytes(format, records) + tail;
            var n := records as nat;
            NextSection(data, 0, pal) ==
              if format == 2
              then Some(Section(None, RecordsEnd(|data|, ILDA_HEADER_SIZE, 3, n), PaletteFrom(pal, data, ILDA_HEADER_SIZE, 0, n)))
              else Some(Section(Some(IldaFrame(format, PointsFrom(format, data, ILDA_HEADER_SIZE, n, pal))),
                                RecordsEnd(|data|, ILDA_HEADER_SIZE, RecordSize(format), n), pal))
  {
    HeaderRoundTrip(format, records, tail);
  }

  lemma Assoc(a: seq<u8>, b: seq<u8>, c: seq<u8>)
    ensures a + b + c == a + (b + c)
  {
  }

  /** Parsing from a section is that section's frame, if any, in front of
      parsing from where the section ends. */
  lemma SectionStep(data: seq<u8>, offset: nat, pal: seq<Ilda.Colour>, s: Section)
    requires offset <= |data| && |pal| == PALETTE_SIZE && NextSection(data, offset, pal) == Some(s)
    ensures s.next <= |data| && |s.palette| == PALETTE_SIZE
    ensures ParseFrom(data, offset, pal) == Then(if s.frame.Some? then [s.frame.value] else [], ParseFrom(data, s.next, s.palette))
  {
  }

  /** The records of a point section with all of them present: point `k`
      is record `k` of the body, and the loop ends at the end of the body. */
  lemma WholeSectionPoints(format: u8, body: seq<u8>, rest: seq<u8>, pal: seq<Ilda.Colour>, records: u16)
    requires PointFormat(format) && |pal| == PALETTE_SIZE && |body| == records as int * RecordSize(format)
    ensures var data := Ilda.HeaderBytes(format, records) + body + rest;
            var size := RecordSize(format);
            var pts := PointsFrom(format, data, ILDA_HEADER_SIZE, records as nat, pal);
            |pts| == records as int && RecordsEnd(|data|, ILDA_HEADER_SIZE, size, records as nat) == ILDA_HEADER_SIZE + |body| &&
            forall k :: 0 <= k < records ==>
              k * size + size <= |body| && pts[k] == DecodeRecord(format, body, k * size, pal)
  {
    var header := Ilda.HeaderBytes(format, records);
    var data := header + body + rest;
    var size := RecordSize(format);
    var n := records as nat;
    FitWhole(|data|, ILDA_HEADER_SIZE, size, n);
    var pts := PointsFrom(format, data, ILDA_HEADER_SIZE, n, pal);
    forall k | 0 <= k < n
      ensures k * size + size <= |body| && pts[k] == DecodeRecord(format, body, k * size, pal)
    {
      WholeSectionPoint(format, header, body, rest, pal, records, k);
    }
  }

  /** Point `k` of such a section, on its own, whatever the header holds. */
  lemma WholeSectionPoint(format: u8, header: seq<u8>, body: seq<u8>, rest: seq<u8>, pal: seq<Ilda.Colour>, records: u16, k: nat)
    requires PointFormat(format) && |header| == ILDA_HEADER_SIZE && |pal| == PALETTE_SIZE
    requires |body| == records as int * RecordSize(format) && k < records as nat
    ensures var data := header + body + rest;
            var size := RecordSize(format);
            var pts := PointsFrom(format, data, ILDA_HEADER_SIZE, records as nat, pal);
            k < |pts| && k * size + size <= |body| && pts[k] == DecodeRecord(format, body, k * size, pal)
  {
    var data := header + body + rest;
    var size := RecordSize(format);
    FitWhole(|data|, ILDA_HEADER_SIZE, size, records as nat);
    MulLe(k + 1, records as nat, size);
    DecodeInContext(format, header, body, rest, k * size, pal);
  }

  /** A point section with all its records present is one frame holding
      the section's points (`WholeSectionPoints`: every record's point,
      coloured through the palette in force), and parsing goes on right
      after it. */
  lemma WholeSectionIsOneFrame(format: u8, body: seq<u8>, rest: seq<u8>, pal: seq<Ilda.Colour>, records: u16)
    requires PointFormat(format) && |pal| == PALETTE_SIZE && |body| == records as int * RecordSize(format)
    ensures var data := Ilda.HeaderBytes(format, records) + body + rest;
            ParseFrom(data, 0, pal) ==
              Then([IldaFrame(format, PointsFrom(format, data, ILDA_HEADER_SIZE, records as nat, pal))],
                   ParseFrom(data, ILDA_HEADER_SIZE + |body|, pal))
  {
    var data := Ilda.HeaderBytes(format, records) + body + rest;
    Assoc(Ilda.HeaderBytes(format, records), body, rest);
    HeaderThenSection(format, records, body + rest, pal);
    FitWhole(|data|, ILDA_HEADER_SIZE, RecordSize(format), records as nat);
    SectionStep(data, 0, pal, NextSection(data, 0, pal).value);
  }

  /** A section cut short by the end of the file still yields its frame,
      holding every whole record before the cut, and parsing ends there. */
  lemma TruncatedSectionKeepsFrame(format: u8, body: seq<u8>, pal: seq<Ilda.Colour>, records: u16)
    requires PointFormat(format) && |pal| == PALETTE_SIZE && |body| < records as int * RecordSize(format)
    ensures var p := ParseFrom(Ilda.HeaderBytes(format, records) + body, 0, pal);
            var m := |p.frames[0].points|;
            |p.frames| == 1 && m * RecordSize(format) <= |body| < m * RecordSize(format) + RecordSize(format) &&
            p.palette == pal
  {
    var data := Ilda.HeaderBytes(format, records) + body;
    var size := RecordSize(format);
    HeaderThenSection(format, records, body, pal);
    FitEnd(|data|, ILDA_HEADER_SIZE, size, records as nat);
    var m := |PointsFrom(format, data, ILDA_HEADER_SIZE, records as nat, pal)|;
    assert m < records as nat;
    var next := ILDA_HEADER_SIZE + m * size;
    assert NextSection(data, next, pal).None? by {
      assert ReadIldaHeader(data, next).0.None?;
    }
  }

  /** The rows a palette section with all its records present stores:
      row `k` is record `k` of the body for the first 256 records, in red,
      green, blue order, and the loop ends at the end of the body. */
  lemma PaletteSectionRows(body: seq<u8>, rest: seq<u8>, pal: seq<Ilda.Colour>, records: u16)
    requires |pal| == PALETTE_SIZE && |body| == records as int * 3
    ensures var data := Ilda.HeaderBytes(2, records) + body + rest;
            var pal' := PaletteFrom(pal, data, ILDA_HEADER_SIZE, 0, records as nat);
            RecordsEnd(|data|, ILDA_HEADER_SIZE, 3, records as nat) == ILDA_HEADER_SIZE + |body| &&
            forall k :: 0 <= k < PALETTE_SIZE ==>
              pal'[k] == if k < records as int then Ilda.Colour(body[3 * k], body[3 * k + 1], body[3 * k + 2]) else pal[k]
  {
    var data := Ilda.HeaderBytes(2, records) + body + rest;
    PaletteFromWhole(pal, data, ILDA_HEADER_SIZE, 0, records as nat);
    var pal' := PaletteFrom(pal, data, ILDA_HEADER_SIZE, 0, records as nat);
    forall k | 0 <= k < PALETTE_SIZE
      ensures pal'[k] == if k < records as int then Ilda.Colour(body[3 * k], body[3 * k + 1], body[3 * k + 2]) else pal[k]
    {
      PaletteSectionRow(Ilda.HeaderBytes(2, records), body, rest, pal, records, k);
    }
  }

  /** Row `k` of such a section, on its own, whatever the header holds. */
  lemma PaletteSectionRow(header: seq<u8>, body: seq<u8>, rest: seq<u8>, pal: seq<Ilda.Colour>, records: u16, k: nat)
    requires |header| == ILDA_HEADER_SIZE && |pal| == PALETTE_SIZE && |body| == records as int * 3 && k < PALETTE_SIZE
    ensures var data := header + body + rest;
            var pal' := PaletteFrom(pal, data, ILDA_HEADER_SIZE, 0, records as nat);
            pal'[k] == if k < records as int then Ilda.Colour(body[3 * k], body[3 * k + 1], body[3 * k + 2]) else pal[k]
  {
    var data := header + body + rest;
    PaletteFromWhole(pal, data, ILDA_HEADER_SIZE, 0, records as nat);
    if k < records as int {
      assert data[ILDA_HEADER_SIZE + 3 * k] == body[3 * k];
      assert data[ILDA_HEADER_SIZE + 3 * k + 1] == body[3 * k + 1];
      assert data[ILDA_HEADER_SIZE + 3 * k + 2] == body[3 * k + 2];
    }
  }

  /** A palette section adds no frame: parsing goes on right after it
      with the palette its records leave (`PaletteSectionRows`). */
  lemma PaletteSectionAddsNoFrame(body: seq<u8>, rest: seq<u8>, pal: seq<Ilda.Colour>, records: u16)
    requires |pal| == PALETTE_SIZE && |body| == records as int * 3
    ensures var data := Ilda.HeaderBytes(2, records) + body + rest;
            ParseFrom(data, 0, pal) == ParseFrom(data, ILDA_HEADER_SIZE + |body|, PaletteFrom(pal, data, ILDA_HEADER_SIZE, 0, records as nat))
  {
    var data := Ilda.HeaderBytes(2, records) + body + rest;
    Assoc(Ilda.HeaderBytes(2, records), body, rest);
    HeaderThenSection(2, records, body + rest, pal);
    FitWhole(|data|, ILDA_HEADER_SIZE, 3, records as nat);
    var palette := PaletteFrom(pal, data, ILDA_HEADER_SIZE, 0, records as nat);
    SectionStep(data, 0, pal, Section(None, ILDA_HEADER_SIZE + |body|, palette));
    var later := ParseFrom(data, ILDA_HEADER_SIZE + |body|, palette);
    assert [] + later.frames == later.frames;
  }

  // ---------------------------------------------------------------------
  // The parse loops

  /** The point-record loop of one section: records are read from `offset`
      until `records` are read or one is cut short. */
  method ReadFrame(data: seq<u8>, offset: nat, format: u8, records: u16, palette: seq<Ilda.Colour>)
    returns (points: seq<Sample>, offset': nat)
    requires PointFormat(format) && offset <= |data| && |palette| == PALETTE_SIZE
    ensures points == PointsFrom(format, data, offset, records as nat, palette)
    ensures offset' == RecordsEnd(|data|, offset, RecordSize(format), records as nat)
  {
    var size := RecordSize(format);
    points := [];
    offset' := offset;
    var k: nat := 0;
    ghost var all := PointsFrom(format, data, offset, records as nat, palette);
    while k < records as nat
      invariant k <= records as nat && offset' == offset + k * size && offset' <= |data|
      invariant k + Fit(|data|, offset', size, records as nat - k) == |all|
      invariant RecordsEnd(|data|, offset', size, records as nat - k) == RecordsEnd(|data|, offset, size, records as nat)
      invariant |points| == k && forall j :: 0 <= j < k ==> points[j] == all[j]
    {
      if offset' + size > |data| {
        break;
      }
      var point := DecodeRecord(format, data, offset', palette);
      points := points + [point];
      offset' := offset' + size;
      k := k + 1;
    }
  }

  /** The palette-record loop: record `i` is stored at row `i` while `i` is
      below 256. */
  method ReadPalette(data: seq<u8>, offset: nat, records: u16, palette: seq<Ilda.Colour>)
    returns (palette': seq<Ilda.Colour>, offset': nat)
    requires offset <= |data| && |palette| == PALETTE_SIZE
    ensures palette' == PaletteFrom(palette, data, offset, 0, records as nat)
    ensures offset' == RecordsEnd(|data|, offset, 3, records as nat)
  {
    palette' := palette;
    offset' := offset;
    var i: nat := 0;
    while i < records as nat
      invariant i <= records as nat && offset' <= |data| && |palette'| == PALETTE_SIZE
      invariant PaletteFrom(palette', data, offset', i, records as nat - i) == PaletteFrom(palette, data, offset, 0, records as nat)
      invariant RecordsEnd(|data|, offset', 3, records as nat - i) == RecordsEnd(|data|, offset, 3, records as nat)
    {
      if offset' + 3 > |data| {
        break;
      }
      if i < PALETTE_SIZE {
        palette' := palette'[i := PaletteEntry(data, offset')];
      }
      offset' := offset' + 3;
      i := i + 1;
    }
  }

  /** One pass of `parse_ilda`'s loop: the header at `offset`, then the
      record loop its format selects; `None` where the loop breaks. */
  method ReadSection(data: seq<u8>, offset: nat, palette: seq<Ilda.Colour>) returns (section: Option<Section>)
    requires offset < |data| && |palette| == PALETTE_SIZE
    ensures section == NextSection(data, offset, palette)
  {
    var read := ReadIldaHeader(data, offset);
    var hdr, body := read.0, read.1;
    if hdr.None? {
      return None;
    }
    var format, records := hdr.value.format, hdr.value.records;
    if format == 2 {
      var palette', next := ReadPalette(data, body, records, palette);
      section := Some(Section(None, next, palette'));
    } else if PointFormat(format) {
      var points, next := ReadFrame(data, body, format, records, palette);
      section := Some(Section(Some(IldaFrame(format, points)), next, palette));
    } else {
      section := None;
    }
  }

  /** What one pass of the loop does to the result still to come: the
      section's frame, if any, moves to the frames found so far. */
  lemma ParseStep(data: seq<u8>, offset: nat, pal: seq<Ilda.Colour>, frames: seq<IldaFrame>, s: Section)
    requires offset <= |data| && |pal| == PALETTE_SIZE && NextSection(data, offset, pal) == Some(s)
    ensures s.next <= |data| && |s.palette| == PALETTE_SIZE
    ensures s.frame.Some? ==>
              Then(frames, ParseFrom(data, offset, pal)) == Then(frames + [s.frame.value], ParseFrom(data, s.next, s.palette))
    ensures s.frame.None? ==>
              Then(frames, ParseFrom(data, offset, pal)) == Then(frames, ParseFrom(data, s.next, s.palette))
  {
    SectionStep(data, offset, pal, s);
    var later := ParseFrom(data, s.next, s.palette);
    if s.frame.Some? {
      assert frames + ([s.frame.value] + later.frames) == frames + [s.frame.value] + later.frames;
    } else {
      assert [] + later.frames == later.frames;
    }
  }

  /** `parse_ilda` on the bytes of a file. */
  method ParseIlda(data: seq<u8>) returns (frames: seq<IldaFrame>, palette: seq<Ilda.Colour>)
    ensures Parsed(frames, palette) == ParseFile(data)
  {
    ghost var result := ParseFile(data);
    var offset: nat := 0;
    frames := [];
    palette := InitialPalette();
    assert Then([], ParseFrom(data, 0, palette)) == result;
    while offset < |data|
      invariant offset <= |data| && |palette| == PALETTE_SIZE
      invariant result == Then(frames, ParseFrom(data, offset, palette))
      decreases |data| - offset
    {
      var section := ReadSection(data, offset, palette);
      if section.None? {
        break;
      }
      var s := section.value;
      ParseStep(data, offset, palette, frames, s);
      if s.frame.Some? {
        frames := frames + [s.frame.value];
      }
      offset, palette := s.next, s.palette;
    }
    assert ParseFrom(data, offset, palette) == Parsed([], palette);
    assert frames + [] == frames;
  }

  // ---------------------------------------------------------------------
  // Packing points into IWP records

  /** `_to_u16_from_u8`, `(c & 0xFF) * 257`: the low byte of `c`, repeated
      in both bytes. */
  function ToU16FromU8(c: int): (v: u16)
    ensures v == (c % 0x100) * 257
    ensures Hi(v) == c % 0x100 && Lo(v) == c % 0x100
  {
    Widen8(c % 0x100)
  }

  /** On a byte the sender's widening is the firmware's 8-bit colour scaling. */
  lemma WideningAgreesWithFirmware(c: u8)
    ensures ToU16FromU8(c) == Widen8(c) == Iwp.ArduinoMap(c)
  {
    assert c % 0x100 == c;
    Iwp.ArduinoMapIsWiden(c);
  }

  /** `_transform_xy`: X moved to the centre code, Y flipped, each masked
      to 16 bits (`_u16` is `Wrap16`). */
  function TransformXY(x: int, y: int): (xy: (u16, u16))
    ensures -0x8000 <= x < 0x8000 ==> xy.0 == x + 0x8000
    ensures -0x8000 < y <= 0x8000 ==> xy.1 == 0x8000 - y
  {
    (Wrap16(x + 0x8000), Wrap16(-y + 0x8000))
  }

  /** On the signed coordinates of a record the transform is the one the
      firmware applies when it plays the record from a file. */
  lemma TransformAgreesWithFirmware(rawX: u16, rawY: u16)
    ensures TransformXY(Signed16(rawX), Signed16(rawY)) == (CenterX(rawX), FlipY(rawY))
  {
  }

  /** The tag-3 record `send_frame` packs for a point: blanked points go out
      black, lit ones with their colours widened to 16 bits. */
  function PackPoint(s: Sample): (rec: Iwp.Rec)
    ensures rec.Rgb16? && (rec.p.x, rec.p.y) == TransformXY(s.x, s.y)
    ensures Bit6(s.status) ==> rec.p.r == 0 && rec.p.g == 0 && rec.p.b == 0
    ensures !Bit6(s.status) ==> Hi(rec.p.r) == s.r && Hi(rec.p.g) == s.g && Hi(rec.p.b) == s.b &&
                                Lo(rec.p.r) == s.r && Lo(rec.p.g) == s.g && Lo(rec.p.b) == s.b
  {
    var xy := TransformXY(s.x, s.y);
    var x16, y16 := xy.0, xy.1;
    if Bit6(s.status) then Iwp.Rgb16(Point(x16, y16, 0, 0, 0))
    else Iwp.Rgb16(Point(x16, y16, ToU16FromU8(s.r), ToU16FromU8(s.g), ToU16FromU8(s.b)))
  }

  /** A file streamed over IWP against the same record played from the
      card: for every point record, the point the sender packs is the point
      the firmware's corrected reader makes, and for the 3-D formats 0 and
      4, which the firmware's reader decodes at the right offsets, it is the
      point the card stream itself plays (given the same palette). */
  lemma StreamedPointIsPlayedPoint(format: u8, data: seq<u8>, at: nat, temp: seq<u8>, pal: seq<Ilda.Colour>, prev: Point)
    requires PointFormat(format) && at + RecordSize(format) <= |data| && |pal| == PALETTE_SIZE
    requires |temp| == Ilda.TEMP_SIZE && temp[..RecordSize(format)] == data[at..at + RecordSize(format)]
    ensures var f := Ilda.Fields(format, temp);
            PackPoint(DecodeRecord(format, data, at, pal)).p == Ilda.RecordToPoint(format, f, pal[f.colorIndex], prev)
    ensures format == 0 || format == 4 ==>
              PackPoint(DecodeRecord(format, data, at, pal)).p == Ilda.EmitPoint(format, temp, pal, prev)
  {
    DecodeAgreesWithFirmware(format, data, at, temp, pal);
    var f := Ilda.Fields(format, temp);
    TransformAgreesWithFirmware(f.x, f.y);
    if format == 0 || format == 4 {
      Ilda.FieldsAgreeOutside2D(format, temp);
    }
  }

  /** 93 is the quotient the sender computes: the most whole 11-byte
      records a 1023-byte datagram holds. */
  lemma PacketCapacity()
    ensures MAX_POINTS_PER_PACKET == MAX_PACKET_SIZE / POINT_SIZE
    ensures MAX_POINTS_PER_PACKET * POINT_SIZE <= MAX_PACKET_SIZE < (MAX_POINTS_PER_PACKET + 1) * POINT_SIZE
  {
  }

  /** The records of a frame, in order. */
  function PackAll(points: seq<Sample>): (rs: seq<Iwp.Rec>)
    ensures |rs| == |points| && forall k :: 0 <= k < |rs| ==> rs[k] == PackPoint(points[k])
  {
    seq(|points|, k requires 0 <= k < |points| => PackPoint(points[k]))
  }

  /** `b"".join(...)`. */
  function Join(parts: seq<seq<u8>>): seq<u8>
  {
    if parts == [] then [] else parts[0] + Join(parts[1..])
  }

  /** Joining the encoded records of a run is serialising the run. */
  lemma {:induction false} JoinEncodes(rs: seq<Iwp.Rec>)
    ensures Join(seq(|rs|, k requires 0 <= k < |rs| => Iwp.Encode(rs[k]))) == Iwp.Serialize(rs)
  {
    if rs != [] {
      var parts := seq(|rs|, k requires 0 <= k < |rs| => Iwp.Encode(rs[k]));
      JoinEncodes(rs[1..]);
      assert parts[1..] == seq(|rs[1..]|, k requires 0 <= k < |rs[1..]| => Iwp.Encode(rs[1..][k]));
    }
  }

  /** The datagrams of a run of records: 93 records each, in order, the
      last one holding the remainder. */
  function Packets(rs: seq<Iwp.Rec>): (ds: seq<seq<u8>>)
    decreases |rs|
  {
    if rs == [] then []
    else
      var k := Min(|rs|, MAX_POINTS_PER_PACKET);
      [Iwp.Serialize(rs[..k])] + Packets(rs[k..])
  }

  /** A run of records all of the 11-byte form. */
  predicate AllRgb16(rs: seq<Iwp.Rec>)
  {
    forall k :: 0 <= k < |rs| ==> rs[k].Rgb16?
  }

  lemma {:induction false} SerializeRgb16Length(rs: seq<Iwp.Rec>)
    requires AllRgb16(rs)
    ensures |Iwp.Serialize(rs)| == POINT_SIZE * |rs|
  {
    if rs != [] {
      SerializeRgb16Length(rs[1..]);
    }
  }

  /** Every datagram is non-empty and at most 1023 bytes, so it fits the
      firmware's 1500-byte receive buffer in one read. */
  lemma {:induction false} PacketsFit(rs: seq<Iwp.Rec>)
    requires AllRgb16(rs)
    ensures forall d :: d in Packets(rs) ==> 0 < |d| <= MAX_PACKET_SIZE
    decreases |rs|
  {
    if rs != [] {
      var k := Min(|rs|, MAX_POINTS_PER_PACKET);
      SerializeRgb16Length(rs[..k]);
      PacketsFit(rs[k..]);
    }
  }

  /** The records the firmware parses out of a run of datagrams, in order. */
  function ParseAll(ds: seq<seq<u8>>): seq<Iwp.Rec>
  {
    if ds == [] then [] else Iwp.Parse(ds[0]) + ParseAll(ds[1..])
  }

  /** Round trip: the firmware parses the datagrams back into exactly the
      records that were packed, in order, none lost or repeated. */
  lemma {:induction false} PacketsRoundTrip(rs: seq<Iwp.Rec>)
    ensures ParseAll(Packets(rs)) == rs
    decreases |rs|
  {
    if rs != [] {
      var k := Min(|rs|, MAX_POINTS_PER_PACKET);
      var first, rest := rs[..k], rs[k..];
      PacketsFirst(rs);
      PacketsRoundTrip(rest);
      assert first + rest == rs;
    }
  }

  /** The first datagram carries the first 93 records. */
  lemma PacketsFirst(rs: seq<Iwp.Rec>)
    requires rs != []
    ensures var k := Min(|rs|, MAX_POINTS_PER_PACKET);
      ParseAll(Packets(rs)) == rs[..k] + ParseAll(Packets(rs[k..]))
  {
    Iwp.ParseSerializeExact(rs[..Min(|rs|, MAX_POINTS_PER_PACKET)]);
  }

  /** The firmware queues every point of each datagram: a datagram of at
      most 1024 point records stores all of them, unchanged. */
  lemma {:induction false} EveryPacketFullyQueued(rs: seq<Iwp.Rec>)
    requires AllRgb16(rs) && |rs| <= MAX_POINTS_PER_PACKET
    ensures Iwp.Stored(Iwp.Parse(Iwp.Serialize(rs))) == seq(|rs|, k requires 0 <= k < |rs| => rs[k].p)
  {
    Iwp.ParseSerializeExact(rs);
    EmittedRgb16(rs);
  }

  lemma {:induction false} EmittedRgb16(rs: seq<Iwp.Rec>)
    requires AllRgb16(rs)
    ensures Iwp.Emitted(rs) == seq(|rs|, k requires 0 <= k < |rs| => rs[k].p)
  {
    if rs != [] {
      EmittedRgb16(rs[..|rs| - 1]);
    }
  }

  // ---------------------------------------------------------------------
  // The output period

  /** `scan_period`: one second over the scan rate, truncated, clamped to
      1 .. 2^32 - 1; `None` for a zero rate, where the division raises. */
  function ScanPeriod(scanRate: int): (p: Option<u32>)
    ensures p.None? <==> scanRate == 0
    ensures scanRate < 0 ==> p == Some(1)
    ensures 1000000 < scanRate ==> p == Some(1)
  {
    if scanRate == 0 then None
    else
      var q := TruncDiv(1000000, scanRate);
      Some(if q < 1 then 1 else if q > 0xFFFF_FFFF then 0xFFFF_FFFF else q)
  }

  /** For a rate from 1 to 1000000 the period is the whole number of
      periods of `scanRate` per second: the largest `p` with
      `p * scanRate <= 1000000`. */
  lemma ScanPeriodIsQuotient(scanRate: int)
    requires 0 < scanRate <= 1000000
    ensures var p := ScanPeriod(scanRate).value;
            p * scanRate <= 1000000 < (p + 1) * scanRate
  {
    var q := 1000000 / scanRate;
    assert q * scanRate + 1000000 % scanRate == 1000000;
    MulLe(1, scanRate, q);
    assert TruncDiv(1000000, scanRate) == q;
  }

  /** The firmware accepts the period, which it refuses below 10, exactly
      for scan rates from 1 to 100000. */
  lemma ScanPeriodAccepted(scanRate: int)
    requires scanRate != 0
    ensures Render.MIN_PERIOD <= ScanPeriod(scanRate).value <==> 0 < scanRate <= 100000
  {
    if 0 < scanRate <= 1000000 {
      ScanPeriodIsQuotient(scanRate);
      var p := ScanPeriod(scanRate).value;
      if scanRate <= 100000 && p < 10 {
        MulLe(p + 1, 10, scanRate);
      } else if scanRate > 100000 && p >= 10 {
        MulLe(10, p, scanRate);
      }
    }
  }

  lemma {:induction false} MulLe(a: nat, b: nat, c: nat)
    requires a <= b
    ensures a * c <= b * c
  {
    if c > 0 {
      MulLe(a, b, c - 1);
    }
  }

  /** The opening datagram `struct.pack(">B I", IW_TYPE_1, period)`. */
  function PeriodDatagram(period: u32): (d: seq<u8>)
    ensures |d| == 5 && d[0] == Iwp.IW_TYPE_1
  {
    [Iwp.IW_TYPE_1] + Be32Bytes(period)
  }

  /** The opening datagram parses to the one period record, and sets the
      renderer's period exactly when the firmware accepts it. */
  lemma PeriodDatagramSetsPeriod(period: u32, t: u32)
    ensures Iwp.Parse(PeriodDatagram(period)) == [Iwp.SetPeriod(period)]
    ensures Iwp.FreqAfter(Iwp.Parse(PeriodDatagram(period)), t) == if Render.MIN_PERIOD <= period then period else t
  {
    assert PeriodDatagram(period) == Iwp.Serialize([Iwp.SetPeriod(period)]);
    Iwp.ParseSerializeExact([Iwp.SetPeriod(period)]);
    assert [Iwp.SetPeriod(period)][..0] == [];
  }

  /** The first loop of `send_frame`: one packed record per point. */
  method PackSamples(points: seq<Sample>) returns (samples: seq<seq<u8>>)
    ensures |samples| == |points| && forall j :: 0 <= j < |points| ==> samples[j] == Iwp.Encode(PackAll(points)[j])
  {
    samples := [];
    for k := 0 to |points|
      invariant |samples| == k && forall j :: 0 <= j < k ==> samples[j] == Iwp.Encode(PackPoint(points[j]))
    {
      var rec := PackPoint(points[k]);
      var bytes := Iwp.Encode(rec);
      ghost var before := samples;
      samples := samples + [bytes];
      assert forall j :: 0 <= j < k ==> samples[j] == before[j];
    }
  }

  /** One pass of the chunking loop: the joined run is the next datagram. */
  lemma ChunkStep(rs: seq<Iwp.Rec>, samples: seq<seq<u8>>, i: nat, end: nat)
    requires |samples| == |rs| && forall j :: 0 <= j < |rs| ==> samples[j] == Iwp.Encode(rs[j])
    requires AllRgb16(rs) && i < |rs| && end == Min(i + MAX_POINTS_PER_PACKET, |rs|)
    ensures Join(samples[i..end]) != [] && Min(i + MAX_POINTS_PER_PACKET, |rs|) == end
    ensures Packets(rs[i..]) == [Join(samples[i..end])] + Packets(rs[end..])
  {
    var run := rs[i..end];
    JoinEncodes(run);
    assert samples[i..end] == seq(|run|, k requires 0 <= k < |run| => Iwp.Encode(run[k]));
    assert rs[i..][..end - i] == run && rs[i..][end - i..] == rs[end..];
    SerializeRgb16Length(run);
  }

  // ---------------------------------------------------------------------
  // The sender

  /** `ProjectorSender`: the period it computed and the datagrams it has
      handed to its socket, in order. */
  class ProjectorSender {
    const port: nat
    const scanPeriod: u32
    var sent: seq<seq<u8>>

    /** Computes the period and sends the datagram that sets it. */
    constructor (scanRate: int)
      requires scanRate != 0
      ensures port == IWP_PORT && Some(scanPeriod) == ScanPeriod(scanRate)
      ensures sent == [PeriodDatagram(scanPeriod)]
    {
      port := IWP_PORT;
      scanPeriod := ScanPeriod(scanRate).value;
      sent := [PeriodDatagram(ScanPeriod(scanRate).value)];
    }

    /** `send_frame`: each point packed into an 11-byte tag-3 record, the
        records joined 93 at a time, each non-empty run sent. */
    method SendFrame(points: seq<Sample>)
      modifies this
      ensures sent == old(sent) + Packets(PackAll(points))
    {
      var samples := PackSamples(points);
      ghost var rs := PackAll(points);
      var i := 0;
      while i < |samples|
        invariant sent + Packets(rs[Min(i, |rs|)..]) == old(sent) + Packets(rs)
        decreases |samples| - i
      {
        var end := Min(i + MAX_POINTS_PER_PACKET, |samples|);
        var chunk := Join(samples[i..end]);
        ChunkStep(rs, samples, i, end);
        if chunk != [] {
          sent := sent + [chunk];
        }
        i := i + MAX_POINTS_PER_PACKET;
      }
    }
  }
}
