/** The resumable ILDA Image Data Transfer Format reader that feeds file
    playback: a cursor over the file's bytes, a persistent 256-entry colour
    palette, and the restart-from-the-top rules that make playback loop. */
module Ilda {
  import opened Types

  const HEADER_SIZE: nat := 32
  const PALETTE_SIZE: nat := 256
  /** Size of the scratch buffer a record is read into. */
  const TEMP_SIZE: nat := 10
  /** The four ASCII bytes "ILDA". */
  const MAGIC: seq<u8> := [0x49, 0x4C, 0x44, 0x41]

  /** The header fields the decoder acts on. */
  datatype Header = Header(magic: seq<u8>, format: u8, records: u16)

  /** A 32-byte header: magic at 0-3, format code at 7, record count
      big-endian at 24-25. */
  function ParseHeader(bytes: seq<u8>): Header
    requires |bytes| == HEADER_SIZE
  {
    Header(bytes[..4], bytes[7], Be16(bytes[24], bytes[25]))
  }

  /** A header as a writer lays it out, with name, company, frame numbers
      and projector left zero. */
  function HeaderBytes(format: u8, records: u16): (bs: seq<u8>)
    ensures |bs| == HEADER_SIZE
    ensures ParseHeader(bs) == Header(MAGIC, format, records)
  {
    MAGIC + [0, 0, 0, format] + seq(16, _ => 0) + [Hi(records), Lo(records)] + seq(6, _ => 0)
  }

  predicate SupportedFormat(format: int)
  {
    format == 0 || format == 1 || format == 2 || format == 4 || format == 5
  }

  /** `bytesPerRecordMap`: record size per format code. */
  function BytesPerRecord(format: u8): (n: nat)
    ensures n <= TEMP_SIZE
    ensures n == 0 <==> !SupportedFormat(format)
    ensures format == 0 || format == 5 ==> n == 8
    ensures format == 1 ==> n == 6
    ensures format == 2 ==> n == 3
    ensures format == 4 ==> n == 10
  {
    if format == 0 || format == 5 then 8 else if format == 1 then 6 else if format == 2 then 3
    else if format == 4 then 10 else 0
  }

  /** The files `readHeader` accepts: a full header, the magic, a known format. */
  predicate HeaderAccepted(data: seq<u8>)
  {
    |data| >= HEADER_SIZE && data[..4] == MAGIC && SupportedFormat(data[7])
  }

  /** `File::read` of n bytes at `pos`: what is left, up to n bytes. A short
      result means fewer bytes remain. */
  function ReadAt(data: seq<u8>, pos: nat, n: nat): (got: seq<u8>)
    requires pos <= |data|
    ensures |got| <= n && pos + |got| <= |data|
    ensures |got| < n <==> pos + n > |data|
    ensures got == data[pos..pos + |got|]
  {
    if pos + n <= |data| then data[pos..pos + n] else data[pos..]
  }

  // ---------------------------------------------------------------------
  // Records

  /** One decoded record; coordinates are the raw big-endian 16-bit patterns. */
  datatype Record = Record(x: u16, y: u16, z: u16, status: u8, colorIndex: u8, red: u8, green: u8, blue: u8)

  /** `ILDA_Record_t rec = {}`. */
  const EmptyRecord: Record := Record(0, 0, 0, 0, 0, 0, 0, 0)

  /** True for the formats whose records carry a Z coordinate. */
  predicate ThreeD(format: u8)
  {
    format == 0 || format == 4
  }

  /** Record fields as the reader takes them out of the 10-byte scratch
      buffer, as written: the cursor skips two bytes after Y whether or not a
      Z was there, so status always comes from byte 6. */
  function FieldsAsWritten(format: u8, temp: seq<u8>): Record
    requires |temp| == TEMP_SIZE
  {
    if format == 2 then EmptyRecord
    else
      var x, y := Be16(temp[0], temp[1]), Be16(temp[2], temp[3]);
      var z := if ThreeD(format) then Be16(temp[4], temp[5]) else 0;
      if format == 0 || format == 1 then Record(x, y, z, temp[6], temp[7], 0, 0, 0)
      else if format == 4 || format == 5 then Record(x, y, z, temp[6], 0, temp[9], temp[8], temp[7])
      else Record(x, y, z, temp[6], 0, 0, 0, 0)
  }

  /** Where the status byte sits: right after Z for 3-D records, right after
      Y for 2-D ones. */
  function StatusOffset(format: u8): nat
  {
    if format == 1 || format == 5 then 4 else 6
  }

  /** Record fields at the offsets the ILDA IDTF layout gives them: X, Y,
      [Z,] status, then a palette index or blue, green, red. */
  function Fields(format: u8, temp: seq<u8>): Record
    requires |temp| == TEMP_SIZE
  {
    if format == 2 then EmptyRecord
    else
      var x, y := Be16(temp[0], temp[1]), Be16(temp[2], temp[3]);
      var z := if ThreeD(format) then Be16(temp[4], temp[5]) else 0;
      var s := StatusOffset(format);
      if format == 0 || format == 1 then Record(x, y, z, temp[s], temp[s + 1], 0, 0, 0)
      else if format == 4 || format == 5 then Record(x, y, z, temp[s], 0, temp[s + 3], temp[s + 2], temp[s + 1])
      else Record(x, y, z, temp[s], 0, 0, 0, 0)
  }

  /** A record of a supported format is decoded from the bytes actually read
      alone: whatever else the scratch buffer holds does not matter. */
  lemma FieldsReadOnlyTheRecord(format: u8, t1: seq<u8>, t2: seq<u8>)
    requires SupportedFormat(format) && |t1| == TEMP_SIZE && |t2| == TEMP_SIZE
    requires t1[..BytesPerRecord(format)] == t2[..BytesPerRecord(format)]
    ensures Fields(format, t1) == Fields(format, t2)
  {
    var n := BytesPerRecord(format);
    forall i | 0 <= i < n ensures t1[i] == t2[i] {
      assert t1[i] == t1[..n][i] && t2[i] == t2[..n][i];
    }
  }

  /** The correction touches only the 2-D formats 1 and 5. */
  lemma FieldsAgreeOutside2D(format: u8, temp: seq<u8>)
    requires |temp| == TEMP_SIZE && format != 1 && format != 5
    ensures Fields(format, temp) == FieldsAsWritten(format, temp)
  {
  }

  /** A palette entry: red, green, blue. */
  datatype Colour = Colour(r: u8, g: u8, b: u8)

  /** A point from a decoded record. `entry` is the palette entry at the
      record's colour index (red, green, blue); `prev` is what the output slot
      held, whose colours a palette record (format 2) leaves in place. */
  function RecordToPoint(format: u8, rec: Record, entry: Colour, prev: Point): (p: Point)
  {
    var x, y := CenterX(rec.x), FlipY(rec.y);
    if Bit6(rec.status) then Point(x, y, 0, 0, 0)
    else if format == 0 || format == 1 then Point(x, y, Widen8(entry.r), Widen8(entry.g), Widen8(entry.b))
    else if format == 4 || format == 5 then Point(x, y, Widen8(rec.red), Widen8(rec.green), Widen8(rec.blue))
    else Point(x, y, prev.r, prev.g, prev.b)
  }

  /** What a point says about its record: X is the signed coordinate moved
      to the centre code, Y the flipped one; a blanked record is black;
      otherwise an indexed record shows its palette entry and a true-colour
      record its own colour, each channel in both bytes. */
  lemma RecordToPointMeaning(format: u8, rec: Record, entry: Colour, prev: Point)
    ensures var p := RecordToPoint(format, rec, entry, prev);
            p.x == Signed16(rec.x) + 0x8000 &&
            (Signed16(rec.y) > -0x8000 ==> p.y == 0x8000 - Signed16(rec.y)) &&
            (Bit6(rec.status) ==> p.r == 0 && p.g == 0 && p.b == 0) &&
            (!Bit6(rec.status) && (format == 0 || format == 1) ==>
               Hi(p.r) == entry.r && Lo(p.r) == entry.r && Hi(p.g) == entry.g && Lo(p.g) == entry.g &&
               Hi(p.b) == entry.b && Lo(p.b) == entry.b) &&
            (!Bit6(rec.status) && (format == 4 || format == 5) ==>
               Hi(p.r) == rec.red && Lo(p.r) == rec.red && Hi(p.g) == rec.green && Lo(p.g) == rec.green &&
               Hi(p.b) == rec.blue && Lo(p.b) == rec.blue)
  {
  }

  /** A palette record (format 2) still produces a point: centred, and with the
      output slot's previous colours. */
  lemma PaletteRecordEmitsCentredPoint(temp: seq<u8>, entry: Colour, prev: Point)
    requires |temp| == TEMP_SIZE
    ensures RecordToPoint(2, Fields(2, temp), entry, prev) == Point(0x8000, 0x8000, prev.r, prev.g, prev.b)
  {
  }

  /** The values a format-2 record stores into palette slots 0, 1, 2, as
      written: the third byte lands in slot 0, which the lookup reads as red. */
  function PaletteSlotsAsWritten(rec: seq<u8>): Colour
    requires |rec| >= 3
  {
    Colour(rec[2], rec[1], rec[0])
  }

  /** The values a format-2 record stores, in the IDTF's red, green, blue order. */
  function PaletteSlots(rec: seq<u8>): Colour
    requires |rec| >= 3
  {
    Colour(rec[0], rec[1], rec[2])
  }

  /** Pure red in a palette file comes out blue through the as-written store. */
  lemma PaletteOrderExample()
    ensures var red: seq<u8> := [0xFF, 0x00, 0x00];
            var asWritten := RecordToPoint(0, EmptyRecord, PaletteSlotsAsWritten(red), Blank);
            var intended := RecordToPoint(0, EmptyRecord, PaletteSlots(red), Blank);
            asWritten.r == 0 && asWritten.b == 0xFFFF && intended.r == 0xFFFF && intended.b == 0
  {
  }

  /** With the corrected store, an indexed point shows exactly the colour its
      palette record gave, each channel widened from 8 to 16 bits. */
  lemma {:induction false} PaletteColourRoundTrip(rec: seq<u8>, status: u8, ci: u8, format: u8)
    requires |rec| >= 3 && !Bit6(status) && (format == 0 || format == 1)
    ensures var p := RecordToPoint(format, Record(0, 0, 0, status, ci, 0, 0, 0), PaletteSlots(rec), Blank);
            Hi(p.r) == rec[0] && Hi(p.g) == rec[1] && Hi(p.b) == rec[2]
  {
    var p := RecordToPoint(format, Record(0, 0, 0, status, ci, 0, 0, 0), PaletteSlots(rec), Blank);
    assert p.r == Widen8(rec[0]) && p.g == Widen8(rec[1]) && p.b == Widen8(rec[2]);
  }

  /** As written, the palette row a format-2 record writes is its record index,
      unchecked; the palette has 256 rows. */
  predicate PaletteWriteInBoundsAsWritten(recordIdx: nat)
  {
    recordIdx < PALETTE_SIZE
  }

  /** The palette row a format-2 record writes, if any: records past the
      256th are skipped. */
  function PaletteRow(recordIdx: nat): (row: Option<nat>)
    ensures row.Some? ==> row.value < PALETTE_SIZE
    ensures row.Some? <==> recordIdx < PALETTE_SIZE
  {
    if recordIdx < PALETTE_SIZE then Some(recordIdx) else None
  }

  /** The format-1 and format-5 records as written read their status (and the
      format-5 colours) from scratch bytes the read did not fill. A blanked
      format-5 record shows up lit when those stale bytes happen to be 0xFF. */
  lemma StaleStatusExample()
    ensures var temp: seq<u8> := [0, 0, 0, 0, 0x40, 0, 0, 0, 0xFF, 0xFF];
            var asWritten := RecordToPoint(5, FieldsAsWritten(5, temp), Colour(0, 0, 0), Blank);
            var intended := RecordToPoint(5, Fields(5, temp), Colour(0, 0, 0), Blank);
            asWritten.r == 0xFFFF && intended == Point(0x8000, 0x8000, 0, 0, 0)
  {
    var temp: seq<u8> := [0, 0, 0, 0, 0x40, 0, 0, 0, 0xFF, 0xFF];
    assert FieldsAsWritten(5, temp) == Record(0, 0, 0, 0, 0, 0xFF, 0xFF, 0);
    assert Fields(5, temp) == Record(0, 0, 0, 0x40, 0, 0, 0, 0);
    assert !Bit6(0) && Bit6(0x40);
  }

  // ---------------------------------------------------------------------
  // The stream cursor and one turn of the decoding loop

  /** The part of the stream state that the decoding loop moves. */
  datatype Cursor = Cursor(pos: nat, header: Header, nextOffset: nat, frameIdx: nat, recordIdx: nat)

  predicate InFile(data: seq<u8>, c: Cursor)
  {
    c.pos <= |data| && c.nextOffset <= |data|
  }

  /** Rewind: seek to 0, re-read the first header, both indices to 0, next
      record right after the header. */
  function Restart(data: seq<u8>): (c: Cursor)
    requires |data| >= HEADER_SIZE
    ensures InFile(data, c)
  {
    Cursor(HEADER_SIZE, ParseHeader(data[..HEADER_SIZE]), HEADER_SIZE, 0, 0)
  }

  /** Outcome of one turn: the new cursor and, when a point is emitted, the
      record bytes it came from. */
  datatype Turn = Turn(next: Cursor, record: Option<seq<u8>>)

  /** One turn of the `readILDAChunk` loop. */
  function NextTurn(data: seq<u8>, bpr: nat, c: Cursor): (t: Turn)
    requires |data| >= HEADER_SIZE && InFile(data, c)
    ensures InFile(data, t.next)
    ensures t.record.Some? ==> |t.record.value| == bpr
  {
    if c.recordIdx >= c.header.records then
      var got := ReadAt(data, c.pos, HEADER_SIZE);
      if |got| != HEADER_SIZE then Turn(Restart(data), None)
      else
        var nh := ParseHeader(got);
        if nh.records == 0 then Turn(Restart(data), None)
        else Turn(Cursor(c.pos + HEADER_SIZE, nh, c.pos + HEADER_SIZE, c.frameIdx + 1, 0), None)
    else
      var got := ReadAt(data, c.nextOffset, bpr);
      if |got| != bpr then Turn(Restart(data), None)
      else Turn(Cursor(c.nextOffset + bpr, c.header, c.nextOffset + bpr, c.frameIdx, c.recordIdx + 1), Some(got))
  }

  /** The palette as the loop's state: 256 rows of red, green, blue. */
  predicate PaletteShape(pal: seq<Colour>)
  {
    |pal| == PALETTE_SIZE
  }

  /** The point the record in scratch buffer `temp` becomes, coloured
      through `pal` and written over the slot's old value `prev`: the fields
      are taken where the firmware takes them (`FieldsAsWritten`). */
  function EmitPoint(fmt: u8, temp: seq<u8>, pal: seq<Colour>, prev: Point): Point
    requires |temp| == TEMP_SIZE && PaletteShape(pal)
  {
    var rec := FieldsAsWritten(fmt, temp);
    RecordToPoint(fmt, rec, pal[rec.colorIndex], prev)
  }

  /** The palette after the record at index `idx`: a format-2 record stores
      its bytes in the firmware's reversed order (`PaletteSlotsAsWritten`);
      any other record leaves the palette alone. A palette record at index
      256 or more writes past the table in the firmware; here it is skipped
      (`PaletteRow`). */
  function StorePalette(pal: seq<Colour>, fmt: u8, idx: nat, temp: seq<u8>): (pal': seq<Colour>)
    requires |temp| == TEMP_SIZE && PaletteShape(pal)
    ensures PaletteShape(pal')
  {
    match PaletteRow(idx)
    case Some(row) => if fmt == 2 then pal[row := PaletteSlotsAsWritten(temp)] else pal
    case None => pal
  }

  /** A record the loop has read: the format of its frame, its index within
      the frame, and the bytes read. */
  datatype Read = Read(format: u8, idx: nat, got: seq<u8>)

  /** What the loop has read after at most `fuel` turns, stopping once
      `need` records are in: where the cursor stands, and the records in the
      order they were read. */
  datatype Reading = Reading(cursor: Cursor, records: seq<Read>)

  /** What a turn of the loop needs of its inputs. */
  predicate Ready(data: seq<u8>, bpr: nat, c: Cursor)
  {
    |data| >= HEADER_SIZE && bpr <= TEMP_SIZE && InFile(data, c)
  }

  /** Every record fits the scratch buffer. */
  predicate Fits(recs: seq<Read>)
  {
    forall j :: 0 <= j < |recs| ==> |recs[j].got| <= TEMP_SIZE
  }

  function Reads(data: seq<u8>, bpr: nat, c: Cursor, need: nat, fuel: nat): (r: Reading)
    requires Ready(data, bpr, c)
    ensures |r.records| <= need && InFile(data, r.cursor) && Fits(r.records)
    decreases fuel
  {
    if need == 0 || fuel == 0 then Reading(c, [])
    else
      var t := NextTurn(data, bpr, c);
      match t.record
      case None => Reads(data, bpr, t.next, need, fuel - 1)
      case Some(got) =>
        var r := Reads(data, bpr, t.next, need - 1, fuel - 1);
        Reading(r.cursor, [Read(c.header.format, c.recordIdx, got)] + r.records)
  }

  /** The scratch buffer once `got` is read into it: those bytes, then what
      the buffer already held past them. */
  function Temp(got: seq<u8>, stale: seq<u8>): (temp: seq<u8>)
    requires |got| <= TEMP_SIZE && |stale| == TEMP_SIZE
    ensures |temp| == TEMP_SIZE && temp[..|got|] == got && temp[|got|..] == stale[|got|..]
  {
    got + stale[|got|..]
  }

  /** The palette once the records `recs` have been through it. */
  function PaletteAfter(pal: seq<Colour>, recs: seq<Read>, stale: seq<u8>): (pal': seq<Colour>)
    requires PaletteShape(pal) && Fits(recs) && |stale| == TEMP_SIZE
    ensures PaletteShape(pal')
    decreases |recs|
  {
    if recs == [] then pal
    else
      var n := |recs| - 1;
      StorePalette(PaletteAfter(pal, recs[..n], stale), recs[n].format, recs[n].idx, Temp(recs[n].got, stale))
  }

  /** The points the records `recs` become, the j-th written over the old
      slot value `prevs[j]` and coloured through the palette as the records
      before it left it. */
  function Points(pal: seq<Colour>, recs: seq<Read>, prevs: seq<Point>, stale: seq<u8>): (ps: seq<Point>)
    requires PaletteShape(pal) && Fits(recs) && |stale| == TEMP_SIZE && |recs| <= |prevs|
    ensures |ps| == |recs|
    decreases |recs|
  {
    if recs == [] then []
    else
      var n := |recs| - 1;
      Points(pal, recs[..n], prevs, stale) +
      [EmitPoint(recs[n].format, Temp(recs[n].got, stale), PaletteAfter(pal, recs[..n], stale), prevs[n])]
  }

  /** One more record: the palette and the points extend by that record's step. */
  lemma ReadOneMore(pal: seq<Colour>, recs: seq<Read>, rd: Read, prevs: seq<Point>, stale: seq<u8>)
    requires PaletteShape(pal) && Fits(recs) && |rd.got| <= TEMP_SIZE && |stale| == TEMP_SIZE && |recs| < |prevs|
    ensures Fits(recs + [rd])
    ensures PaletteAfter(pal, recs + [rd], stale) ==
            StorePalette(PaletteAfter(pal, recs, stale), rd.format, rd.idx, Temp(rd.got, stale))
    ensures Points(pal, recs + [rd], prevs, stale) ==
            Points(pal, recs, prevs, stale) +
            [EmitPoint(rd.format, Temp(rd.got, stale), PaletteAfter(pal, recs, stale), prevs[|recs|])]
  {
    assert (recs + [rd])[..|recs|] == recs;
  }

  /** Each point depends on its own record, its own old slot value and the
      palette as the records before it left it, and on nothing later. */
  lemma {:induction false} PointsAt(pal: seq<Colour>, recs: seq<Read>, prevs: seq<Point>, stale: seq<u8>, j: nat)
    requires PaletteShape(pal) && Fits(recs) && |stale| == TEMP_SIZE && |recs| <= |prevs| && j < |recs|
    ensures Points(pal, recs, prevs, stale)[j] ==
            EmitPoint(recs[j].format, Temp(recs[j].got, stale), PaletteAfter(pal, recs[..j], stale), prevs[j])
    decreases |recs|
  {
    var n := |recs| - 1;
    var front := Points(pal, recs[..n], prevs, stale);
    assert Points(pal, recs, prevs, stale) ==
           front + [EmitPoint(recs[n].format, Temp(recs[n].got, stale), PaletteAfter(pal, recs[..n], stale), prevs[n])];
    if j < n {
      PointsAt(pal, recs[..n], prevs, stale, j);
      assert recs[..n][..j] == recs[..j] && recs[..n][j] == recs[j];
    }
  }

  /** Records of the formats that carry no palette leave the palette as it
      was: only a format-2 file can recolour indexed points. */
  lemma {:induction false} PaletteOnlyFromPaletteRecords(pal: seq<Colour>, recs: seq<Read>, stale: seq<u8>)
    requires PaletteShape(pal) && Fits(recs) && |stale| == TEMP_SIZE
    requires forall j :: 0 <= j < |recs| ==> recs[j].format != 2
    ensures PaletteAfter(pal, recs, stale) == pal
    decreases |recs|
  {
    if recs != [] {
      PaletteOnlyFromPaletteRecords(pal, recs[..|recs| - 1], stale);
    }
  }

  /** An indexed record that is not blanked shows the palette entry its
      colour index names, as the records before it left the palette, each
      channel widened from 8 to 16 bits. */
  lemma IndexedPointColour(pal: seq<Colour>, recs: seq<Read>, prevs: seq<Point>, stale: seq<u8>, j: nat)
    requires PaletteShape(pal) && Fits(recs) && |stale| == TEMP_SIZE && |recs| <= |prevs| && j < |recs|
    requires recs[j].format == 0 || recs[j].format == 1
    requires !Bit6(FieldsAsWritten(recs[j].format, Temp(recs[j].got, stale)).status)
    ensures var c := PaletteAfter(pal, recs[..j], stale)[FieldsAsWritten(recs[j].format, Temp(recs[j].got, stale)).colorIndex];
            var p := Points(pal, recs, prevs, stale)[j];
            p.r == Widen8(c.r) && p.g == Widen8(c.g) && p.b == Widen8(c.b)
  {
    PointsAt(pal, recs, prevs, stale, j);
  }

  /** A palette record for row `i` stores its three bytes there reversed:
      the first byte in the blue slot, the third in the red slot, whatever
      came before it. */
  lemma PaletteRecordStores(pal: seq<Colour>, recs: seq<Read>, i: u8, entry: seq<u8>, stale: seq<u8>)
    requires PaletteShape(pal) && Fits(recs) && |entry| == 3 && |stale| == TEMP_SIZE
    ensures Fits(recs + [Read(2, i as nat, entry)])
    ensures PaletteAfter(pal, recs + [Read(2, i as nat, entry)], stale)[i] == Colour(entry[2], entry[1], entry[0])
  {
    var rd := Read(2, i as nat, entry);
    assert (recs + [rd])[..|recs|] == recs;
    var t := Temp(entry, stale);
    assert t[..3] == entry;
  }

  /** A palette record for row `i` followed by an indexed record naming
      colour `i`: the second point shows the stored bytes with red and blue
      swapped, the record's first byte on the blue channel and its third on
      the red one. */
  lemma PaletteThenIndexedPoint(pal: seq<Colour>, i: u8, entry: seq<u8>, fmt: u8, temp: seq<u8>,
                                prevs: seq<Point>, stale: seq<u8>)
    requires PaletteShape(pal) && |entry| == 3 && |temp| <= TEMP_SIZE && |stale| == TEMP_SIZE && |prevs| >= 2
    requires fmt == 0 || fmt == 1
    requires var rec := FieldsAsWritten(fmt, Temp(temp, stale)); rec.colorIndex == i && !Bit6(rec.status)
    ensures var p := Points(pal, [Read(2, i as nat, entry), Read(fmt, 0, temp)], prevs, stale)[1];
            p.r == Widen8(entry[2]) && p.g == Widen8(entry[1]) && p.b == Widen8(entry[0])
  {
    var first := [Read(2, i as nat, entry)];
    var recs := first + [Read(fmt, 0, temp)];
    PaletteRecordStores(pal, [], i, entry, stale);
    assert [] + first == first && recs[..1] == first;
    IndexedPointColour(pal, recs, prevs, stale, 1);
  }

  /** The blanked format-5 record of `StaleStatusExample`, read as the first
      record of a chunk after a scratch buffer holding 0xFF at bytes 8 and 9,
      is played lit: full red and green, from the stale bytes. */
  lemma StreamStaleStatusExample(pal: seq<Colour>, prevs: seq<Point>)
    requires PaletteShape(pal) && |prevs| >= 1
    ensures var got: seq<u8> := [0, 0, 0, 0, 0x40, 0, 0, 0];
            var stale: seq<u8> := [0, 0, 0, 0, 0, 0, 0, 0, 0xFF, 0xFF];
            Points(pal, [Read(5, 0, got)], prevs, stale) == [Point(0x8000, 0x8000, 0xFFFF, 0xFFFF, 0)]
  {
    var got: seq<u8> := [0, 0, 0, 0, 0x40, 0, 0, 0];
    var stale: seq<u8> := [0, 0, 0, 0, 0, 0, 0, 0, 0xFF, 0xFF];
    var temp := Temp(got, stale);
    assert temp == [0, 0, 0, 0, 0x40, 0, 0, 0, 0xFF, 0xFF];
    assert FieldsAsWritten(5, temp) == Record(0, 0, 0, 0, 0, 0xFF, 0xFF, 0);
    assert [Read(5, 0, got)][..0] == [];
  }

  /** A zero-record header at a frame boundary rewinds to the first frame. */
  lemma TerminatorRewinds(data: seq<u8>, bpr: nat, c: Cursor)
    requires |data| >= HEADER_SIZE && InFile(data, c)
    requires c.recordIdx >= c.header.records && c.pos + HEADER_SIZE <= |data|
    requires ParseHeader(data[c.pos..c.pos + HEADER_SIZE]).records == 0
    ensures NextTurn(data, bpr, c) == Turn(Restart(data), None)
  {
  }

  /** A frame boundary with no room left for a header rewinds too. */
  lemma ShortHeaderRewinds(data: seq<u8>, bpr: nat, c: Cursor)
    requires |data| >= HEADER_SIZE && InFile(data, c)
    requires c.recordIdx >= c.header.records && c.pos + HEADER_SIZE > |data|
    ensures NextTurn(data, bpr, c) == Turn(Restart(data), None)
  {
  }

  /** A frame boundary followed by a real header moves on to that frame. */
  lemma NextFrameAdopted(data: seq<u8>, bpr: nat, c: Cursor)
    requires |data| >= HEADER_SIZE && InFile(data, c)
    requires c.recordIdx >= c.header.records && c.pos + HEADER_SIZE <= |data|
    requires ParseHeader(data[c.pos..c.pos + HEADER_SIZE]).records > 0
    ensures var t := NextTurn(data, bpr, c);
            t.record.None? && t.next.frameIdx == c.frameIdx + 1 && t.next.recordIdx == 0 &&
            t.next.header == ParseHeader(data[c.pos..c.pos + HEADER_SIZE]) &&
            t.next.nextOffset == c.pos + HEADER_SIZE
  {
  }

  /** A file whose first frame holds at least one complete record. */
  predicate Playable(data: seq<u8>, bpr: nat)
  {
    HeaderAccepted(data) && bpr > 0 && |data| >= HEADER_SIZE + bpr &&
    ParseHeader(data[..HEADER_SIZE]).records > 0
  }

  /** After a rewind on a playable file, the next turn replays the file's
      very first record. */
  lemma RestartReplaysFirstRecord(data: seq<u8>, bpr: nat)
    requires Playable(data, bpr)
    ensures NextTurn(data, bpr, Restart(data)).record == Some(data[HEADER_SIZE..HEADER_SIZE + bpr])
  {
  }

  /** Whether one of the next `m` turns from `c` emits a point. */
  predicate EmitsWithin(data: seq<u8>, bpr: nat, c: Cursor, m: nat)
    requires |data| >= HEADER_SIZE && InFile(data, c)
    decreases m
  {
    m > 0 &&
    var t := NextTurn(data, bpr, c);
    t.record.Some? || EmitsWithin(data, bpr, t.next, m - 1)
  }

  /** On a playable file no more than three turns pass between two points:
      at worst a frame boundary, a rewind, then the first record. */
  lemma EmitsWithinThree(data: seq<u8>, bpr: nat, c: Cursor)
    requires Playable(data, bpr) && InFile(data, c)
    ensures EmitsWithin(data, bpr, c, 3)
  {
    var t1 := NextTurn(data, bpr, c);
    if t1.next == Restart(data) {
      RestartReplaysFirstRecord(data, bpr);
    } else if t1.record.None? {
      var t2 := NextTurn(data, bpr, t1.next);
      if t2.next == Restart(data) {
        RestartReplaysFirstRecord(data, bpr);
      }
    }
  }

  /** When a point is due within `m` turns, `m` turns for the first record
      and three for each further one always read `need` records. */
  lemma {:induction false} DueRunCompletes(data: seq<u8>, bpr: nat, c: Cursor, need: nat, fuel: nat, m: nat)
    requires Playable(data, bpr) && bpr <= TEMP_SIZE && InFile(data, c)
    requires need > 0 && EmitsWithin(data, bpr, c, m) && m <= 3 && fuel >= m + 3 * (need - 1)
    ensures |Reads(data, bpr, c, need, fuel).records| == need
    decreases fuel
  {
    var t := NextTurn(data, bpr, c);
    if t.record.Some? {
      if need > 1 {
        EmitsWithinThree(data, bpr, t.next);
        DueRunCompletes(data, bpr, t.next, need - 1, fuel - 1, 3);
      }
    } else {
      DueRunCompletes(data, bpr, t.next, need, fuel - 1, m - 1);
    }
  }

  /** On a playable file the loop never stalls: 3 * need turns always read
      `need` records, and so write `need` points. */
  lemma PlayableNeverStalls(data: seq<u8>, bpr: nat, c: Cursor, need: nat, fuel: nat)
    requires Playable(data, bpr) && bpr <= TEMP_SIZE && InFile(data, c) && fuel >= 3 * need
    ensures |Reads(data, bpr, c, need, fuel).records| == need
  {
    if need > 0 {
      EmitsWithinThree(data, bpr, c);
      DueRunCompletes(data, bpr, c, need, fuel, 3);
    }
  }

  /** A cursor that a turn maps to itself without emitting is never left:
      however long the loop runs, nothing is read. */
  lemma {:induction false} StuckCursorSpins(data: seq<u8>, bpr: nat, c: Cursor, need: nat, fuel: nat)
    requires Ready(data, bpr, c) && NextTurn(data, bpr, c) == Turn(c, None)
    ensures Reads(data, bpr, c, need, fuel) == Reading(c, [])
    decreases fuel
  {
    if need > 0 && fuel > 0 {
      StuckCursorSpins(data, bpr, c, need, fuel - 1);
    }
  }

  /** A file shorter than two headers whose first header declares zero
      records never leaves its first header once rewound: each turn finds no
      room for another header and rewinds again, so playback reads nothing,
      which is why the loop needs a bound on its turns here. */
  lemma ZeroRecordFileSpinsForever(data: seq<u8>, bpr: nat, need: nat, fuel: nat)
    requires HEADER_SIZE <= |data| < 2 * HEADER_SIZE && ParseHeader(data[..HEADER_SIZE]).records == 0
    requires bpr <= TEMP_SIZE
    ensures Reads(data, bpr, Restart(data), need, fuel) == Reading(Restart(data), [])
  {
    var c := Restart(data);
    assert c.recordIdx == 0 && c.header.records == 0 && c.pos == HEADER_SIZE;
    ShortHeaderRewinds(data, bpr, c);
    assert NextTurn(data, bpr, c) == Turn(c, None);
    StuckCursorSpins(data, bpr, c, need, fuel);
  }
  /** A turn inside a frame with a whole record left in the file reads
      that record and moves on to the next. */
  lemma InFrameTurn(data: seq<u8>, bpr: nat, c: Cursor)
    requires |data| >= HEADER_SIZE && InFile(data, c)
    requires c.recordIdx < c.header.records && c.nextOffset + bpr <= |data|
    ensures NextTurn(data, bpr, c) ==
            Turn(Cursor(c.nextOffset + bpr, c.header, c.nextOffset + bpr, c.frameIdx, c.recordIdx + 1),
                 Some(data[c.nextOffset..c.nextOffset + bpr]))
  {
  }

  /** Inside a frame with `need` whole records still in the file, the loop
      reads them one per turn, numbered on from the cursor's record index,
      all of the frame's format. */
  lemma {:induction false} ReadsWithinFrame(data: seq<u8>, bpr: nat, c: Cursor, need: nat, fuel: nat)
    requires Ready(data, bpr, c) && need <= fuel
    requires c.recordIdx + need <= c.header.records && c.nextOffset + need * bpr <= |data|
    ensures var r := Reads(data, bpr, c, need, fuel);
            |r.records| == need &&
            forall j :: 0 <= j < need ==>
              r.records[j].format == c.header.format && r.records[j].idx == c.recordIdx + j
    decreases need
  {
    if need > 0 {
      var c' := Cursor(c.nextOffset + bpr, c.header, c.nextOffset + bpr, c.frameIdx, c.recordIdx + 1);
      assert need * bpr == (need - 1) * bpr + bpr;
      InFrameTurn(data, bpr, c);
      ReadsWithinFrame(data, bpr, c', need - 1, fuel - 1);
      var r' := Reads(data, bpr, c', need - 1, fuel - 1);
      assert Reads(data, bpr, c, need, fuel).records ==
             [Read(c.header.format, c.recordIdx, data[c.nextOffset..c.nextOffset + bpr])] + r'.records;
    }
  }

  /** A palette section whose header declares 257 records: the loop reaches
      record 256, a format-2 record whose palette row lies past the 256-row
      table. */
  lemma PaletteOverrunExample()
    ensures var data := HeaderBytes(2, 257) + seq(257 * 3, _ => 0);
            var r := Reads(data, 3, Restart(data), 257, 257);
            |r.records| == 257 && r.records[256].format == 2 && r.records[256].idx == 256 &&
            !PaletteWriteInBoundsAsWritten(r.records[256].idx) && PaletteRow(r.records[256].idx).None?
  {
    var data := HeaderBytes(2, 257) + seq(257 * 3, _ => 0);
    assert data[..HEADER_SIZE] == HeaderBytes(2, 257);
    var c := Restart(data);
    assert c.header == Header(MAGIC, 2, 257);
    ReadsWithinFrame(data, 3, c, 257, 257);
  }

  /** The palette entry at `ci`: red, green, blue. */
  function EntryOf(palette: array2<u8>, ci: u8): Colour
    reads palette
    requires palette.Length0 == PALETTE_SIZE && palette.Length1 == 3
  {
    Colour(palette[ci, 0], palette[ci, 1], palette[ci, 2])
  }

  /** Readings compose: the records before a stretch of the loop, then the
      ones it reads, then the rest. */
  lemma ReadingComposes(total: Reading, before: seq<Read>, r0: Reading, written: seq<Read>, r: Reading)
    requires total == Reading(r0.cursor, before + r0.records)
    requires r0 == Reading(r.cursor, written + r.records)
    ensures total == Reading(r.cursor, (before + written) + r.records)
  {
    assert before + (written + r.records) == (before + written) + r.records;
  }

  /** `ILDA`: the stream cursor `ildaStream` and the palette `ilda_palette`. */
  class IldaStream {
    const palette: array2<u8>
    /** The attached file's bytes; None when no file is attached. */
    var file: Option<seq<u8>>
    /** The file's read position. */
    var pos: nat
    var header: Header
    var dataOffset: nat
    var nextOffset: nat
    var frameIdx: nat
    var recordIdx: nat
    var bytesPerRecord: nat
    /** The palette's entries. */
    ghost var Rows: seq<Colour>

    ghost predicate Valid()
      reads this, palette
    {
      palette.Length0 == PALETTE_SIZE && palette.Length1 == 3 && bytesPerRecord <= TEMP_SIZE &&
      PaletteShape(Rows) &&
      (forall i :: 0 <= i < PALETTE_SIZE ==> Rows[i] == EntryOf(palette, i)) &&
      (file.Some? ==>
        HeaderAccepted(file.value) && bytesPerRecord == BytesPerRecord(file.value[7]) &&
        InFile(file.value, Cur()))
    }

    ghost function Cur(): Cursor
      reads this
    {
      Cursor(pos, header, nextOffset, frameIdx, recordIdx)
    }

    /** A stream with no file attached, over a caller-supplied palette. */
    constructor (palette: array2<u8>)
      requires palette.Length0 == PALETTE_SIZE && palette.Length1 == 3
      ensures Valid() && this.palette == palette && file.None? && bytesPerRecord == 0
    {
      this.palette := palette;
      Rows := seq(PALETTE_SIZE, i requires 0 <= i < PALETTE_SIZE reads palette => EntryOf(palette, i));
      file := None;
      pos, dataOffset, nextOffset, frameIdx, recordIdx, bytesPerRecord := 0, 0, 0, 0, 0, 0;
      header := Header(MAGIC, 0, 0);
    }

    /** `readHeader`: attach a file if its first header is acceptable. With no
        file nothing changes; otherwise the state is zeroed before the checks,
        so a rejected file leaves the stream detached with no record size. */
    method ReadHeader(f: Option<seq<u8>>) returns (rc: u8)
      requires Valid()
      modifies this
      ensures Valid() && Rows == old(Rows)
      ensures rc == 0 <==> f.Some? && HeaderAccepted(f.value)
      ensures f.None? ==>
                rc == 1 && file == old(file) && Cur() == old(Cur()) &&
                bytesPerRecord == old(bytesPerRecord) && dataOffset == old(dataOffset)
      ensures f.Some? && rc != 0 ==>
                rc == 1 && file.None? && bytesPerRecord == 0 &&
                frameIdx == 0 && recordIdx == 0 && nextOffset == 0 && dataOffset == 0
      ensures rc == 0 ==>
                file == f && Cur() == Restart(f.value) && dataOffset == HEADER_SIZE &&
                bytesPerRecord == BytesPerRecord(f.value[7]) > 0
    {
      if f.None? {
        return 1;
      }
      Detach();
      var data := f.value;
      var got := ReadAt(data, 0, HEADER_SIZE);
      if |got| != HEADER_SIZE {
        return 1;
      }
      header := ParseHeader(got);
      if header.magic != MAGIC {
        return 1;
      }
      if !SupportedFormat(header.format) {
        return 1;
      }
      pos := HEADER_SIZE;
      dataOffset := pos;
      nextOffset := dataOffset;
      frameIdx, recordIdx := 0, 0;
      bytesPerRecord := BytesPerRecord(header.format);
      file := f;
      rc := 0;
    }

    /** The zeroing `readHeader` starts with: no file, position 0, an empty
        header, every offset and index 0 and no record size. */
    method Detach()
      requires Valid()
      modifies this
      ensures Valid() && Rows == old(Rows) && file.None? && bytesPerRecord == 0
      ensures Cur() == Cursor(0, Header([0, 0, 0, 0], 0, 0), 0, 0, 0) && dataOffset == 0
    {
      file, pos, header := None, 0, Header([0, 0, 0, 0], 0, 0);
      dataOffset, nextOffset, frameIdx, recordIdx, bytesPerRecord := 0, 0, 0, 0, 0;
    }

    /** Detach the file (the renderer closing the handle it shares). */
    method CloseFile()
      requires Valid()
      modifies this
      ensures Valid() && file.None? && Cur() == old(Cur()) && bytesPerRecord == old(bytesPerRecord)
      ensures Rows == old(Rows)
    {
      file := None;
    }

    /** The rewind every failure path of the loop takes. */
    method Rewind()
      requires Valid() && file.Some?
      modifies this
      ensures Valid() && file == old(file) && bytesPerRecord == old(bytesPerRecord)
      ensures dataOffset == old(dataOffset) && Rows == old(Rows)
      ensures Cur() == Restart(file.value)
    {
      var data := file.value;
      pos := 0;
      var got := ReadAt(data, pos, HEADER_SIZE);
      assert got == data[..HEADER_SIZE];
      pos := pos + |got|;
      header := ParseHeader(got);
      frameIdx, recordIdx := 0, 0;
      nextOffset := pos;
    }

    /** A turn at a frame boundary: read the next header, adopting it, or
        rewinding on a short read or a zero-record header. */
    method NextHeader()
      requires Valid() && file.Some? && recordIdx >= header.records
      modifies this
      ensures Valid() && file == old(file) && bytesPerRecord == old(bytesPerRecord)
      ensures Cur() == NextTurn(file.value, bytesPerRecord, old(Cur())).next && Rows == old(Rows)
    {
      var data := file.value;
      var got := ReadAt(data, pos, HEADER_SIZE);
      if |got| != HEADER_SIZE {
        Rewind();
        return;
      }
      var nh := ParseHeader(got);
      if nh.records == 0 {
        Rewind();
        return;
      }
      pos := pos + HEADER_SIZE;
      header := nh;
      frameIdx := frameIdx + 1;
      recordIdx := 0;
      nextOffset := pos;
    }

    /** A turn inside a frame: read one record at `nextOffset` into the
        scratch buffer, whose bytes past those read come from `stale`, and
        turn it into `out[k]`; a short read rewinds instead. */
    method ReadRecord(out: array<Point>, k: nat, stale: seq<u8>) returns (emitted: bool)
      requires Valid() && file.Some? && recordIdx < header.records
      requires k < out.Length && |stale| == TEMP_SIZE
      modifies this, palette, out
      ensures Valid() && file == old(file) && bytesPerRecord == old(bytesPerRecord)
      ensures var t := NextTurn(file.value, bytesPerRecord, old(Cur()));
              Cur() == t.next && (emitted <==> t.record.Some?)
      ensures !emitted ==> unchanged(palette) && unchanged(out) && Rows == old(Rows)
      ensures emitted ==>
                var got := NextTurn(file.value, bytesPerRecord, old(Cur())).record.value;
                var temp := Temp(got, stale);
                out[k] == EmitPoint(old(header.format), temp, old(Rows), old(out[k])) &&
                out[..] == old(out[..])[k := out[k]] &&
                Rows == StorePalette(old(Rows), old(header.format), old(recordIdx), temp)
    {
      var data := file.value;
      if pos != nextOffset {
        pos := nextOffset;
      }
      var got := ReadAt(data, pos, bytesPerRecord);
      pos := pos + |got|;
      if |got| != bytesPerRecord {
        Rewind();
        return false;
      }
      EmitRecord(out, k, got, stale);
      emitted := true;
    }

    /** A full record was read: decode it from the scratch buffer, colour
        it through the palette into `out[k]`, store it in the palette if it
        is a palette record, and move on to the next record. */
    method EmitRecord(out: array<Point>, k: nat, got: seq<u8>, stale: seq<u8>)
      requires Valid() && file.Some? && recordIdx < header.records
      requires k < out.Length && |stale| == TEMP_SIZE && |got| == bytesPerRecord
      modifies this, palette, out
      ensures Valid() && file == old(file) && bytesPerRecord == old(bytesPerRecord)
      ensures Cur() == old(Cur()).(nextOffset := old(pos), recordIdx := old(recordIdx) + 1)
      ensures var temp := Temp(got, stale);
              out[k] == EmitPoint(old(header.format), temp, old(Rows), old(out[k])) &&
              out[..] == old(out[..])[k := out[k]] &&
              Rows == StorePalette(old(Rows), old(header.format), old(recordIdx), temp)
    {
      var temp := Temp(got, stale);
      var fmt := header.format;
      var rec := FieldsAsWritten(fmt, temp);
      var entry := EntryOf(palette, rec.colorIndex);
      assert entry == Rows[rec.colorIndex];
      StorePaletteRecord(fmt, recordIdx, temp, Rows);
      Rows := StorePalette(Rows, fmt, recordIdx, temp);
      out[k] := RecordToPoint(fmt, rec, entry, out[k]);
      recordIdx := recordIdx + 1;
      nextOffset := pos;
    }

    /** The palette side of a record: a format-2 record stores its three
        bytes, last first, into the row of its record index, if there is one. */
    method StorePaletteRecord(fmt: u8, idx: nat, temp: seq<u8>, ghost rows: seq<Colour>)
      requires palette.Length0 == PALETTE_SIZE && palette.Length1 == 3
      requires |temp| == TEMP_SIZE && PaletteShape(rows)
      requires forall i :: 0 <= i < PALETTE_SIZE ==> rows[i] == EntryOf(palette, i)
      modifies palette
      ensures forall i :: 0 <= i < PALETTE_SIZE ==> StorePalette(rows, fmt, idx, temp)[i] == EntryOf(palette, i)
    {
      var row := PaletteRow(idx);
      if fmt == 2 && row.Some? {
        palette[row.value, 2] := temp[0];
        palette[row.value, 1] := temp[1];
        palette[row.value, 0] := temp[2];
      }
    }

    /** One turn of the `readILDAChunk` loop with `k` points already written:
        seen against a run of `fuel + 1` turns that still needs `need`
        records, the turn is that run's first step, and the record it read, if any,
        became `out[k]` and went through the palette. */
    method Turn(out: array<Point>, k: nat, stale: seq<u8>, ghost c: Cursor, ghost need: nat, ghost fuel: nat)
      returns (emitted: bool, ghost rd: Read)
      requires Valid() && file.Some? && k < out.Length && |stale| == TEMP_SIZE
      requires c == Cur() && 0 < need
      modifies this, palette, out
      ensures Valid() && file == old(file) && bytesPerRecord == old(bytesPerRecord)
      ensures out[..] == old(out[..])[k := out[k]]
      ensures |rd.got| == bytesPerRecord
      ensures !emitted ==> out[k] == old(out[k]) && Rows == old(Rows)
      ensures emitted ==>
                out[k] == EmitPoint(rd.format, Temp(rd.got, stale), old(Rows), old(out[k])) &&
                Rows == StorePalette(old(Rows), rd.format, rd.idx, Temp(rd.got, stale))
      ensures var r := Reads(file.value, bytesPerRecord, Cur(), if emitted then need - 1 else need, fuel);
              Reads(file.value, bytesPerRecord, c, need, fuel + 1) ==
              Reading(r.cursor, (if emitted then [rd] else []) + r.records)
    {
      var fmt, idx := header.format, recordIdx;
      rd := Read(0, 0, seq(bytesPerRecord, _ => 0));
      if recordIdx >= header.records {
        NextHeader();
        emitted := false;
      } else {
        emitted := ReadRecord(out, k, stale);
        if emitted {
          rd := Read(fmt, idx, NextTurn(file.value, bytesPerRecord, c).record.value);
        }
      }
    }

    /** `readILDAChunk`: fill `out[0..count)` with up to `maxPoints` points.
        With no file or no record size it returns 0 at once. Otherwise the
        loop only ends once `maxPoints` points are written; `fuel` bounds its
        turns, and `stalled` reports that the fuel ran out first. The cursor
        ends where `Reads` leaves it, one point is written per record read,
        and the points and the palette are what those records make of them. */
    method ReadChunk(out: array<Point>, maxPoints: u16, stale: seq<u8>, fuel: nat)
      returns (count: nat, stalled: bool)
      requires Valid() && maxPoints <= out.Length && |stale| == TEMP_SIZE
      modifies this, palette, out
      ensures Valid() && file == old(file) && bytesPerRecord == old(bytesPerRecord)
      ensures count <= maxPoints
      ensures out[count..] == old(out[count..])
      ensures old(file).None? || old(bytesPerRecord) == 0 ==>
                count == 0 && !stalled && Cur() == old(Cur()) && unchanged(palette)
      ensures old(file).Some? && old(bytesPerRecord) > 0 ==>
                var rd := Reads(file.value, bytesPerRecord, old(Cur()), maxPoints, fuel);
                Cur() == rd.cursor && count == |rd.records| && (stalled <==> count < maxPoints) &&
                out[..count] == Points(old(Rows), rd.records, old(out[..maxPoints]), stale) &&
                Rows == PaletteAfter(old(Rows), rd.records, stale)
    {
      if file.None? || bytesPerRecord == 0 {
        return 0, false;
      }
      count, stalled := Fill(out, maxPoints, stale, fuel);
    }

    /** Where the loop of `readILDAChunk` stands after reading the records
        `recs`, with `need` more points wanted and `f` turns left: the
        stream is still on `data`, the rest of the run is `rest`, the whole
        run `total` is `recs` followed by `rest`, and the points and the
        palette are what `recs` made. */
    ghost predicate Progress(out: array<Point>, count: nat, need: nat, maxPoints: u16, stale: seq<u8>, f: nat,
                             data: seq<u8>, bpr: nat, pal: seq<Colour>, prevs: seq<Point>,
                             total: Reading, recs: seq<Read>, rest: Reading)
      reads this, palette, out
    {
      Valid() && file == Some(data) && bytesPerRecord == bpr &&
      count == |recs| && count + need == maxPoints as int <= out.Length && Fits(recs) &&
      |stale| == TEMP_SIZE && PaletteShape(pal) && |prevs| == maxPoints as int &&
      rest == Reads(data, bpr, Cur(), need, f) &&
      total == Reading(rest.cursor, recs + rest.records) &&
      Rows == PaletteAfter(pal, recs, stale) &&
      out[..count] == Points(pal, recs, prevs, stale)
    }

    /** The loop of `readILDAChunk` on an attached file with a record size. */
    method Fill(out: array<Point>, maxPoints: u16, stale: seq<u8>, fuel: nat)
      returns (count: nat, stalled: bool)
      requires Valid() && file.Some? && bytesPerRecord > 0
      requires maxPoints <= out.Length && |stale| == TEMP_SIZE
      modifies this, palette, out
      ensures Valid() && file == old(file) && bytesPerRecord == old(bytesPerRecord)
      ensures count <= maxPoints
      ensures out[count..] == old(out[count..])
      ensures var rd := Reads(file.value, bytesPerRecord, old(Cur()), maxPoints, fuel);
              Cur() == rd.cursor && count == |rd.records| && (stalled <==> count < maxPoints) &&
              out[..count] == Points(old(Rows), rd.records, old(out[..maxPoints]), stale) &&
              Rows == PaletteAfter(old(Rows), rd.records, stale)
    {
      ghost var data, bpr := file.value, bytesPerRecord;
      ghost var pal, prevs := Rows, out[..maxPoints];
      ghost var total := Reads(data, bpr, Cur(), maxPoints as nat, fuel);
      ghost var recs: seq<Read> := [];
      ghost var rest := total;
      ghost var need: nat := maxPoints as nat;
      assert recs + rest.records == rest.records;
      count := 0;
      var f := fuel;
      while count < maxPoints && f > 0
        invariant Progress(out, count, need, maxPoints, stale, f, data, bpr, pal, prevs, total, recs, rest)
        invariant forall i :: count <= i < out.Length ==> out[i] == old(out[i])
        decreases f
      {
        f := f - 1;
        count, need, recs, rest := FillTurn(out, count, need, maxPoints, stale, f, data, bpr, pal, prevs, total, recs, rest);
      }
      assert rest == Reading(Cur(), []);
      assert recs + [] == recs;
      assert out[count..] == old(out[count..]);
      stalled := count < maxPoints;
    }

    /** One pass of `Fill`'s loop: the turn, with the records read so far
        and their count extended by the one it read, if any. */
    method FillTurn(out: array<Point>, count: nat, ghost need: nat, maxPoints: u16, stale: seq<u8>, f: nat,
                    ghost data: seq<u8>, ghost bpr: nat, ghost pal: seq<Colour>, ghost prevs: seq<Point>,
                    ghost total: Reading, ghost recs: seq<Read>, ghost rest: Reading)
      returns (count': nat, ghost need': nat, ghost recs': seq<Read>, ghost rest': Reading)
      requires Progress(out, count, need, maxPoints, stale, f + 1, data, bpr, pal, prevs, total, recs, rest)
      requires 0 < need && out[count] == prevs[count]
      modifies this, palette, out
      ensures Progress(out, count', need', maxPoints, stale, f, data, bpr, pal, prevs, total, recs', rest')
      ensures count <= count' && forall i :: count' <= i < out.Length ==> out[i] == old(out[i])
    {
      ghost var before := out[..count];
      var emitted;
      ghost var rd;
      emitted, rd := Turn(out, count, stale, Cur(), need, f);
      need' := if emitted then need - 1 else need;
      rest' := Reads(file.value, bytesPerRecord, Cur(), need', f);
      ghost var written := if emitted then [rd] else [];
      ReadingComposes(total, recs, rest, written, rest');
      assert out[..count] == before;
      if emitted {
        ReadOneMore(pal, recs, rd, prevs, stale);
        count', recs' := count + 1, recs + [rd];
        assert out[..count + 1] == before + [out[count]];
      } else {
        count', recs' := count, recs;
        assert recs + [] == recs;
      }
    }
  }
}
