# ILDAWaveX16 point pipeline, modelled in Dafny

ILDAWaveX16 is ESP32 firmware for a laser-projector DAC board. It turns
vector points into analogue X, Y, R, G, B voltages through a DAC80508
eight-channel DAC. Points come from three sources:

- an ILDA Image Data Transfer Format (`.ild`) file on the SD card, read a
  record at a time and looped forever;
- the board's own UDP protocol, IWP (ILDA Wave Protocol), on port 7200;
- the ILDA Digital Network protocol (IDN-Hello discovery and IDN-Stream
  real-time channel messages).

The points all go into one 8192-slot ring buffer, which a timer-paced task
drains into DAC frames at the current period and brightness. A Python
script, `iwp-ilda.py`, parses an ILDA file on a PC and streams it to the
board over IWP.

This project models that pipeline and proves what its parts promise:

| file | module | what it models |
|---|---|---|
| `types.dfy` | `Types` | 8/16/32-bit values, the `Point` record, big-endian assembly, 16-bit wrap-around, centring and flipping of coordinates, 8-to-16-bit colour widening |
| `udp.dfy` | `Udp` | reading one datagram into a 1500-byte receive buffer, leaving the rest of the buffer as it was |
| `point_ring_buffer.dfy` | `PointBuffer` | `PointRingBuffer`, a class over an 8192-slot array with `head`/`tail` cursors and a ghost view of its contents, oldest first |
| `dac80508.dfy` | `Dac` | the 3-byte SPI frames for a point, a colour, a sync, the init sequence and single register writes, with a decoder that inverts the point frames |
| `ilda.dfy` | `Ilda` | `readHeader` and `readILDAChunk` as a class over the file bytes and a 256×3 palette array, specified by a cursor function (`NextTurn`) and a run of reads (`Reads`) |
| `renderer.dfy` | `Render` | the renderer's period, brightness and run flags; the consumer step (drain, scale, frame); the file-playback producer step (read a chunk, wait until it fits, push) |
| `iwp_server.dfy` | `Iwp` | the IWP record grammar, its encoder and decoder, and `IWPServer::loop` as a method over the receive array |
| `idn_server.dfy` | `Idn` | `IDNServer::loop`: scan and service-map replies built byte by byte in the transmit array, and channel-message samples decoded into points |
| `iwp_ilda.dfy` | `Sender` | `iwp-ilda.py`: its own ILDA parser, the point transform and packing, the 93-records-per-datagram chunking and the scan period |

Every method that changes state is proved against a function of the old
state. Those functions carry their own lemmas: round trips (IWP encode and
decode, DAC frames and `DecodePoint`, ILDA headers), restart rules,
agreement between the Python parser and the firmware reader, and what
survives a turn-off record.

Each socket is given its pending datagram as a byte sequence, and an
empty sequence means nothing is pending. The card file is a byte sequence
and a read position. The station MAC address is a parameter.

## Model

Paths are relative to the repository root.

| member | source | states |
|---|---|---|
| Types.Be16Bytes | firmware/ILDAWaveX16/lib/DAC80508/DAC80508.cpp:62-64 | splitting a big-endian 16-bit value into its high and low byte gives back the two bytes it was assembled from |
| Types.Hi | firmware/ILDAWaveX16/lib/DAC80508/DAC80508.cpp:63 | `(v >> 8) & 0xFF` is the number of whole 256s in `v` |
| Types.Lo | firmware/ILDAWaveX16/lib/DAC80508/DAC80508.cpp:64 | `v & 0xFF` is the remainder, so high and low byte together rebuild `v` |
| Types.Be32Bytes | firmware/Python/iwp-ilda.py:173 | `struct.pack(">I", v)` gives exactly four bytes |
| Types.Be32BytesRoundTrip | firmware/ILDAWaveX16/lib/IWP/IWPServer.cpp:36-39 | assembling the four bytes of a big-endian packed 32-bit value gives that value back |
| Types.Wrap16 | firmware/Python/iwp-ilda.py:176-177 | `x & 0xFFFF` is congruent to `x` modulo 2^16 and leaves values already in 0..65535 alone |
| Types.Signed16 | firmware/Python/iwp-ilda.py:103 | reading a 16-bit field as `>h` gives a value in -32768..32767 that differs from the raw one by 0 or 2^16 |
| Types.Signed16Wraps | firmware/Python/iwp-ilda.py:176-177 | wrapping a signed 16-bit value back to 16 bits recovers the raw field |
| Types.Widen8 | firmware/ILDAWaveX16/lib/ILDA/ILDA.cpp:128-130 | `(v << 8) \| v` has `v` as both its high and low byte |
| Types.CenterX | firmware/ILDAWaveX16/lib/ILDA/ILDA.cpp:122 | `x + 0x8000` in 16 bits moves a signed coordinate to the unsigned range: the result is the signed value plus 32768 |
| Types.FlipY | firmware/ILDAWaveX16/lib/ILDA/ILDA.cpp:123 | `-y + 0x8000` in 16 bits is 32768 minus the signed value, except that -32768 maps to 0 |
| Types.FlipYInvolutive | firmware/ILDAWaveX16/lib/ILDA/ILDA.cpp:123 | flipping twice gives the original coordinate back |
| Udp.Received | firmware/ILDAWaveX16/lib/IWP/IWPServer.cpp:19 | `udp.read(netRxBuffer, sizeof(netRxBuffer))` yields a prefix of the datagram of at most 1500 bytes, and the whole datagram when it fits |
| Udp.ReadInto | firmware/ILDAWaveX16/lib/IDN/IDNServer.cpp:21-23 | the bytes read land at the front of the receive buffer, the length is zero exactly when nothing was pending, and every byte past them is what an earlier datagram left |
| PointBuffer.Used | firmware/ILDAWaveX16/lib/Renderer/PointRingBuffer.cpp:6-7 | the number of stored points is the distance from `tail` to `head` around the ring, which is below 8192 and zero exactly when `head == tail` |
| PointBuffer.Accepted | firmware/ILDAWaveX16/lib/Renderer/PointRingBuffer.cpp:15-20 | an add takes all `n` points or stops exactly when the buffer reaches 8191 points |
| PointBuffer.AfterAdd | firmware/ILDAWaveX16/lib/Renderer/PointRingBuffer.cpp:12-26 | the contents after an add never exceed 8191 points |
| PointBuffer.AddKeepsOldestInFront | firmware/ILDAWaveX16/lib/Renderer/PointRingBuffer.cpp:12-26 | an add keeps every stored point in front. It appends all new points exactly when they fit in the free space, and otherwise appends as many as fit, in order |
| PointBuffer.PointRingBuffer.Valid | firmware/ILDAWaveX16/lib/Renderer/PointRingBuffer.cpp:16-19 | one slot is always kept empty, so the buffer never holds more than 8191 points |
| PointBuffer.PointRingBuffer.constructor | firmware/ILDAWaveX16/lib/Renderer/PointRingBuffer.h:17-19 | a new buffer has both cursors at 0 and is empty |
| PointBuffer.PointRingBuffer.CanItFit | firmware/ILDAWaveX16/lib/Renderer/PointRingBuffer.cpp:3-10 | `canItFit(n)` holds exactly when `n` is at most 8191 minus the stored count, which is exactly when `addPoints` of `n` points would take them all |
| PointBuffer.PointRingBuffer.AddPoints | firmware/ILDAWaveX16/lib/Renderer/PointRingBuffer.cpp:12-26 | the new contents are the old ones followed by as many of the points as fit. The result is true exactly when all were taken, and `tail` never moves |
| PointBuffer.PointRingBuffer.WriteNewest | firmware/ILDAWaveX16/lib/Renderer/PointRingBuffer.cpp:21-22 | writing at `head` and advancing it appends the point, when the slot after `head` is not `tail` |
| PointBuffer.PointRingBuffer.AddPoint | firmware/ILDAWaveX16/lib/Renderer/PointRingBuffer.cpp:28 | one point is appended exactly when fewer than 8191 are stored, and the result says whether it was |
| PointBuffer.PointRingBuffer.GetPoint | firmware/ILDAWaveX16/lib/Renderer/PointRingBuffer.cpp:30-37 | on an empty buffer: false, with nothing changed. Otherwise: true, the oldest point, and only that point removed. `head` is never moved |
| PointBuffer.PointRingBuffer.GetPoints | firmware/ILDAWaveX16/lib/Renderer/PointRingBuffer.cpp:39-49 | copies min(max, size) points, oldest first, into the front of the output and removes exactly that prefix. The rest of the output and `head` are untouched |
| PointBuffer.PointRingBuffer.MoveOldest | firmware/ILDAWaveX16/lib/Renderer/PointRingBuffer.cpp:43-45 | one pass of the drain loop moves the oldest point to slot `i` of the output and removes it |
| PointBuffer.PointRingBuffer.Clear | firmware/ILDAWaveX16/lib/Renderer/PointRingBuffer.cpp:51 | both cursors go to 0 and the buffer is empty |
| Dac.WriteRegister | firmware/ILDAWaveX16/lib/DAC80508/DAC80508.cpp:27-32 | a register write addresses `reg` and carries `b1 * 256 + b2` |
| Dac.DacWrite | firmware/ILDAWaveX16/lib/DAC80508/DAC80508.cpp:43-48 | a channel write addresses register `0x08 + channel` and carries the 16-bit value |
| Dac.PointFrames | firmware/ILDAWaveX16/lib/DAC80508/DAC80508.cpp:60-84 | a point is six frames: registers 0x0E, 0x0F, 0x0D, 0x0C, 0x0B (X, Y, R, G, B), then the `dac_sync` trigger frame |
| Dac.ColorFrames | firmware/ILDAWaveX16/lib/DAC80508/DAC80508.cpp:99-116 | a colour is four frames: registers 0x0D, 0x0C, 0x0B carrying exactly r, g and b, then the `dac_sync` trigger frame; X and Y are not written |
| Dac.SyncFrame | firmware/ILDAWaveX16/lib/DAC80508/DAC80508.cpp:131-132 | the sync frame writes 0x0010 to the trigger register 0x05; it is the last frame of every point and colour write |
| Dac.BeginFrames | firmware/ILDAWaveX16/lib/DAC80508/DAC80508.cpp:22-24 | initialisation writes, in order, 0x000A to the trigger, 0x00FF to the gain and 0xFFFF to the sync register |
| Dac.PointFramesRoundTrip | firmware/ILDAWaveX16/lib/DAC80508/DAC80508.cpp:62-80 | reading `(b1 << 8) \| b2` back out of the five data frames rebuilds the point exactly |
| Dac.PointFramesInjective | firmware/ILDAWaveX16/lib/DAC80508/DAC80508.cpp:60-84 | two points with the same frames are the same point |
| Ilda.HeaderBytes | firmware/ILDAWaveX16/lib/ILDA/ILDA.cpp:8-11 | a 32-byte header laid out with magic, format and big-endian record count reads back as exactly those fields |
| Ilda.BytesPerRecord | firmware/ILDAWaveX16/lib/ILDA/ILDA.cpp:23-24 | record sizes are 8, 6, 3, 10 and 8 bytes for formats 0, 1, 2, 4 and 5, and 0 exactly for an unsupported format |
| Ilda.ReadAt | firmware/ILDAWaveX16/lib/ILDA/ILDA.cpp:83-84 | a read returns the next bytes of the file, and fewer than asked for exactly when the file ends first |
| Ilda.FieldsReadOnlyTheRecord | firmware/ILDAWaveX16/lib/ILDA/ILDA.cpp:105-117 | the corrected field decoding looks only at the bytes actually read for the record |
| Ilda.FieldsAgreeOutside2D | firmware/ILDAWaveX16/lib/ILDA/ILDA.cpp:105-117 | for the 3D formats 0 and 4 the corrected decoding is the code as written |
| Ilda.RecordToPointMeaning | firmware/ILDAWaveX16/lib/ILDA/ILDA.cpp:120-137 | x is centred and y flipped. Status bit 6 blanks all three colours. Otherwise formats 0/1 take each channel from the palette entry and formats 4/5 from the record, widened to 16 bits |
| Ilda.PaletteRecordEmitsCentredPoint | firmware/ILDAWaveX16/lib/ILDA/ILDA.cpp:96-137 | a palette record still emits a point, at (0x8000, 0x8000), keeping the colour already in that output slot |
| Ilda.PaletteOrderExample | firmware/ILDAWaveX16/lib/ILDA/ILDA.cpp:100-102 | as written, a pure red palette entry plays as pure blue. The corrected order plays it red |
| Ilda.PaletteColourRoundTrip | firmware/ILDAWaveX16/lib/ILDA/ILDA.cpp:127-130 | with the corrected palette order, an unblanked indexed point shows the palette record's red, green and blue bytes on its red, green and blue channels |
| Ilda.PaletteOverrunExample | firmware/ILDAWaveX16/lib/ILDA/ILDA.cpp:39-100 | on a file whose palette section declares 257 records, the reading loop reaches a format-2 record with index 256, whose row lies past the 256-row table |
| Ilda.InFrameTurn | firmware/ILDAWaveX16/lib/ILDA/ILDA.cpp:80-94 | inside a frame with a whole record left, a pass reads the record at `next_offset` and moves both the offset and the record index on by one |
| Ilda.ReadsWithinFrame | firmware/ILDAWaveX16/lib/ILDA/ILDA.cpp:39-141 | inside a frame with `need` whole records left, a run reads exactly those records, one per pass, with record indices counting up from the cursor's and the frame's format |
| Ilda.PaletteRow | firmware/ILDAWaveX16/lib/ILDA/ILDA.cpp:100 | a palette record has a row to store into exactly when its index is below 256, and that row is always within the table |
| Ilda.StaleStatusExample | firmware/ILDAWaveX16/lib/ILDA/ILDA.cpp:107 | as written, a blanked format-5 record plays lit, because its status is taken from a byte past the record. The corrected decoding blanks it |
| Ilda.Restart | firmware/ILDAWaveX16/lib/ILDA/ILDA.cpp:86-92 | a restart re-reads the first header and puts both indices at 0, with the read position just after that header |
| Ilda.NextTurn | firmware/ILDAWaveX16/lib/ILDA/ILDA.cpp:42-94 | one pass of the loop keeps the cursor inside the file. A record it yields has exactly `bytes_per_record` bytes |
| Ilda.StorePalette | firmware/ILDAWaveX16/lib/ILDA/ILDA.cpp:99-103 | a palette record stores its bytes reversed (byte 0 in the blue slot, byte 2 in the red slot) and the palette keeps 256 rows |
| Ilda.Reads | firmware/ILDAWaveX16/lib/ILDA/ILDA.cpp:39-142 | a run of passes yields at most the requested number of records, each fitting the scratch buffer, and leaves the cursor inside the file |
| Ilda.Temp | firmware/ILDAWaveX16/lib/ILDA/ILDA.cpp:82-83 | the scratch buffer holds the bytes just read, followed by whatever it held before |
| Ilda.PaletteAfter | firmware/ILDAWaveX16/lib/ILDA/ILDA.cpp:99-103 | a run of records, each stored as the firmware stores it, leaves a 256-row palette |
| Ilda.Points | firmware/ILDAWaveX16/lib/ILDA/ILDA.cpp:104-141 | a run of records emits one point per record, each decoded at the offsets the firmware uses |
| Ilda.ReadOneMore | firmware/ILDAWaveX16/lib/ILDA/ILDA.cpp:96-141 | one more record appends the point the firmware makes of it, coloured through the palette in force, and applies the firmware's palette store after the earlier ones |
| Ilda.PointsAt | firmware/ILDAWaveX16/lib/ILDA/ILDA.cpp:104-137 | point `j` of a run is record `j` decoded as the firmware decodes it, with the palette left by records `0..j` |
| Ilda.PaletteOnlyFromPaletteRecords | firmware/ILDAWaveX16/lib/ILDA/ILDA.cpp:99 | a run without format-2 records leaves the palette unchanged |
| Ilda.IndexedPointColour | firmware/ILDAWaveX16/lib/ILDA/ILDA.cpp:107-131 | an unblanked format 0/1 point takes its colour from the palette row named by the colour index the firmware reads (byte 7 of the scratch buffer), as the earlier records left that row |
| Ilda.PaletteRecordStores | firmware/ILDAWaveX16/lib/ILDA/ILDA.cpp:99-103 | after palette record `i`, row `i` holds that record's three bytes in reverse order |
| Ilda.PaletteThenIndexedPoint | firmware/ILDAWaveX16/lib/ILDA/ILDA.cpp:99-131 | a palette record followed by an indexed point using that row plays the record's first byte on blue, its second on green and its third on red |
| Ilda.StreamStaleStatusExample | firmware/ILDAWaveX16/lib/ILDA/ILDA.cpp:104-137 | the stream plays the blanked format-5 record `00 00 00 00 40 00 00 00`, read after `FF FF` was left at scratch bytes 8-9, at full red and green |
| Ilda.TerminatorRewinds | firmware/ILDAWaveX16/lib/ILDA/ILDA.cpp:60-70 | at frame end, a next header with 0 records restarts from the top without emitting |
| Ilda.ShortHeaderRewinds | firmware/ILDAWaveX16/lib/ILDA/ILDA.cpp:45-55 | at frame end, a short header read restarts from the top without emitting |
| Ilda.NextFrameAdopted | firmware/ILDAWaveX16/lib/ILDA/ILDA.cpp:72-77 | otherwise the next header is adopted: frame index plus one, record index 0, read position after the header, nothing emitted |
| Ilda.RestartReplaysFirstRecord | firmware/ILDAWaveX16/lib/ILDA/ILDA.cpp:80-83 | after a restart on a playable file, the next pass yields the first record after the header |
| Ilda.EmitsWithinThree | firmware/ILDAWaveX16/lib/ILDA/ILDA.cpp:39-94 | on a file whose first frame has a whole record, every cursor emits a record within three passes |
| Ilda.DueRunCompletes | firmware/ILDAWaveX16/lib/ILDA/ILDA.cpp:39-142 | given enough passes, the run collects every record it asks for |
| Ilda.PlayableNeverStalls | firmware/ILDAWaveX16/lib/ILDA/ILDA.cpp:39-142 | on such a file, `3 * need` passes always fill the chunk, so playback never stalls |
| Ilda.StuckCursorSpins | firmware/ILDAWaveX16/lib/ILDA/ILDA.cpp:42-70 | a cursor whose pass leads back to itself without a record never emits again |
| Ilda.ZeroRecordFileSpinsForever | firmware/ILDAWaveX16/lib/ILDA/ILDA.cpp:60-70 | a file holding only one header that declares 0 records loops in place and emits nothing, however many passes it gets |
| Ilda.IldaStream.constructor | firmware/ILDAWaveX16/lib/ILDA/ILDA.cpp:6 | a new stream has no file and no record size |
| Ilda.IldaStream.ReadHeader | firmware/ILDAWaveX16/lib/ILDA/ILDA.cpp:3-31 | returns 0 exactly for a file with a whole header, the "ILDA" magic and a supported format. It then sets both indices to 0, the data and next offsets to 32 and the record size from the table. No file: 1, state untouched. Any other failure: 1, with the state zeroed |
| Ilda.IldaStream.Detach | firmware/ILDAWaveX16/lib/ILDA/ILDA.cpp:6 | the `memset` leaves no file, an empty header, zero offsets and indices, and no record size |
| Ilda.IldaStream.CloseFile | firmware/ILDAWaveX16/lib/Renderer/Renderer.cpp:37 | closing the shared handle leaves the stream without a file and keeps the cursor and palette |
| Ilda.IldaStream.Rewind | firmware/ILDAWaveX16/lib/ILDA/ILDA.cpp:47-53 | the rewind sets the cursor to `Restart` of the file |
| Ilda.IldaStream.NextHeader | firmware/ILDAWaveX16/lib/ILDA/ILDA.cpp:42-78 | the frame-end branch moves the cursor as `NextTurn` says |
| Ilda.IldaStream.ReadRecord | firmware/ILDAWaveX16/lib/ILDA/ILDA.cpp:80-141 | the record branch moves the cursor as `NextTurn` says. A whole record writes exactly one output slot with the firmware's point for it and applies the firmware's palette store. A short read writes nothing |
| Ilda.IldaStream.EmitRecord | firmware/ILDAWaveX16/lib/ILDA/ILDA.cpp:96-141 | a record read in full is decoded at the firmware's offsets into slot `k`, the reversed palette store is applied, and the record index advances by one, with `next_offset` at the file position |
| Ilda.IldaStream.StorePaletteRecord | firmware/ILDAWaveX16/lib/ILDA/ILDA.cpp:99-103 | the 256×3 palette array afterwards holds `StorePalette` of the rows before: byte 0 in column 2, byte 1 in column 1, byte 2 in column 0 |
| Ilda.IldaStream.Turn | firmware/ILDAWaveX16/lib/ILDA/ILDA.cpp:39-142 | one pass of the loop is the first step of `Reads`: it emits the record `Reads` starts with, or moves the cursor without emitting |
| Ilda.IldaStream.ReadChunk | firmware/ILDAWaveX16/lib/ILDA/ILDA.cpp:33-145 | with no file or no record size: 0 points and nothing changed. Otherwise the count is at most `maxPoints` and only `buffer[0..count)` is written, with the points of the records `Reads` collects. The palette and cursor end as `Reads` leaves them |
| Ilda.IldaStream.Fill | firmware/ILDAWaveX16/lib/ILDA/ILDA.cpp:39-142 | the `while` loop fills the output with the points of `Reads` and leaves the cursor and palette where `Reads` ends |
| Render.ScaleBounds | firmware/ILDAWaveX16/lib/Renderer/Renderer.cpp:81-85 | scaling never raises a channel, keeps 0 at 0, is the identity at brightness 100 or more and gives 0 at brightness 0 |
| Render.ScaleHalf | firmware/ILDAWaveX16/lib/Renderer/Renderer.cpp:81-85 | brightness 50 halves a channel, rounding down |
| Render.ScaleMonotone | firmware/ILDAWaveX16/lib/Renderer/Renderer.cpp:81-85 | a higher brightness never gives a darker channel |
| Render.ScalePoint | firmware/ILDAWaveX16/lib/Renderer/Renderer.cpp:79-85 | scaling keeps x and y, never raises a colour, is the identity at full brightness and black at 0 |
| Render.OutputFrames | firmware/ILDAWaveX16/lib/Renderer/Renderer.cpp:79-86 | writing `n` points sends `6n` frames |
| Render.OutputFramesDecode | firmware/ILDAWaveX16/lib/Renderer/Renderer.cpp:79-86 | frames `6k..6k+6` decode to point `k` scaled by the brightness, so points reach the DAC in buffer order |
| Render.WritePoints | firmware/ILDAWaveX16/lib/Renderer/Renderer.cpp:79-87 | the loop scales each of the first `n` array slots in place and writes them in order, leaving the rest of the array alone |
| Render.Renderer.constructor | firmware/ILDAWaveX16/lib/Renderer/Renderer.h:49-53 | a new renderer has period 10, brightness 100, both run flags clear, an empty buffer and no file |
| Render.Renderer.BufferAddPoints | firmware/ILDAWaveX16/lib/Renderer/Renderer.cpp:11 | `buffer_add_points` is `addPoints` on the shared buffer |
| Render.Renderer.BufferClearPoints | firmware/ILDAWaveX16/lib/Renderer/Renderer.cpp:12 | `buffer_clear_points` empties the shared buffer |
| Render.Renderer.Start | firmware/ILDAWaveX16/lib/Renderer/Renderer.cpp:14-19 | `start` sets the period to 10, discarding earlier `change_freq` calls, and sets the running flag |
| Render.Renderer.Stop | firmware/ILDAWaveX16/lib/Renderer/Renderer.cpp:27-33 | `stop` clears the running flag, writes the all-zero point and empties the buffer, keeping the period, brightness and file flag |
| Render.Renderer.SdStop | firmware/ILDAWaveX16/lib/Renderer/Renderer.cpp:35-38 | `sd_stop` clears the file flag and closes the file |
| Render.Renderer.SdStart | firmware/ILDAWaveX16/lib/Renderer/Renderer.cpp:40-44 | the file flag ends set exactly when `readHeader` accepts the file, with the stream at its first record. A rejected file behaves as `sd_stop` |
| Render.Renderer.ChangeFreq | firmware/ILDAWaveX16/lib/Renderer/Renderer.cpp:46-50 | `change_freq` ignores values below 10 and otherwise sets the period |
| Render.Renderer.ChangeBrightness | firmware/ILDAWaveX16/lib/Renderer/Renderer.cpp:52 | `change_brightness` keeps the old value above 100 and otherwise sets it |
| Render.Renderer.DacStep | firmware/ILDAWaveX16/lib/Renderer/Renderer.cpp:72-89 | one pass of `DACTask`: when stopped, nothing. Otherwise it drains min(512, size) points in FIFO order and writes each scaled by the brightness. Exactly when the buffer was empty it is idle and sends the `dac_write_color(0, 0, 0)` frames |
| Render.Renderer.SdStep | firmware/ILDAWaveX16/lib/Renderer/Renderer.cpp:60-70 | one pass of `SDTask`: when file playback is off, nothing. Otherwise it reads the chunk `Reads` gives and pushes it whole exactly when it is non-empty and fits. The buffer is then the old contents followed by the chunk |
| Render.Renderer.PushWhole | firmware/ILDAWaveX16/lib/Renderer/Renderer.cpp:67-68 | the "wait until `canItFit`, then add" step appends all `n` points when they fit, and nothing otherwise |
| Render.CanItFitThenAddAppendsAll | firmware/ILDAWaveX16/lib/Renderer/Renderer.cpp:67-68 | with no other producer, an add after `canItFit` holds appends every point |
| Render.ToU8 | firmware/ILDAWaveX16/src/main.cpp:131-133 | an `int` passed to the `uint8_t` parameter keeps its value modulo 256 |
| Render.BrightnessTruncationExample | firmware/ILDAWaveX16/src/main.cpp:168-170 | a requested brightness of 356 arrives as 100 and is accepted, while 101 is refused |
| Iwp.Encode | firmware/ILDAWaveX16/lib/IWP/IWPServer.h:17-39 | record lengths are 1, 5, 8 and 11 bytes for tags 0, 1, 2 and 3 |
| Iwp.Head | firmware/ILDAWaveX16/lib/IWP/IWPServer.cpp:28-68 | a record is read only when all of its bytes are present |
| Iwp.HeadPrefix | firmware/ILDAWaveX16/lib/IWP/IWPServer.cpp:28-68 | the record read at the front re-encodes to exactly the bytes it came from |
| Iwp.ParsePrefix | firmware/ILDAWaveX16/lib/IWP/IWPServer.cpp:26-69 | the parse loop consumes a prefix of the datagram, and re-encoding its records gives that prefix |
| Iwp.HeadEncode | firmware/ILDAWaveX16/lib/IWP/IWPServer.cpp:28-67 | any record's encoding is read back as that record, whatever follows it |
| Iwp.HeadEncodePeriod | firmware/ILDAWaveX16/lib/IWP/IWPServer.cpp:34-42 | a period record reads back with its 32-bit big-endian value |
| Iwp.HeadEncodeRgb8 | firmware/ILDAWaveX16/lib/IWP/IWPServer.cpp:43-56 | an 8-bit-colour record reads back with its raw x, y and colour bytes |
| Iwp.HeadEncodeRgb16 | firmware/ILDAWaveX16/lib/IWP/IWPServer.cpp:57-67 | a 16-bit record reads back with all five fields unchanged |
| Iwp.ParseSerialize | firmware/ILDAWaveX16/lib/IWP/IWPServer.cpp:26-69 | parsing encoded records followed by more data gives those records followed by the parse of the rest |
| Iwp.ParseSerializeExact | firmware/ILDAWaveX16/lib/IWP/IWPServer.cpp:26-69 | a datagram made of records parses to exactly those records |
| Iwp.ArduinoMapIsWiden | firmware/ILDAWaveX16/lib/IWP/IWPServer.cpp:51-53 | `map(v, 0, 0xFF, 0, 0xFFFF)` equals `v * 257` exactly, with `v` as its high byte |
| Iwp.PointOf | firmware/ILDAWaveX16/lib/IWP/IWPServer.cpp:28-67 | a period record queues no point and every other record queues one. Tag 0 queues the all-zero point, tag 3 its own point, and tag 2 its raw x and y with each colour widened |
| Iwp.Emitted | firmware/ILDAWaveX16/lib/IWP/IWPServer.cpp:26-69 | a run of records yields at most one point per record, and exactly one per record when it holds no period record |
| Iwp.Stored | firmware/ILDAWaveX16/lib/IWP/IWPServer.cpp:30 | a datagram keeps the first min(1024, emitted) of its points, in order, and drops the rest |
| Iwp.ZerosParse | firmware/ILDAWaveX16/lib/IWP/IWPServer.cpp:28-33 | `n` zero bytes are `n` tag-0 records |
| Iwp.TurnOffsEmit | firmware/ILDAWaveX16/lib/IWP/IWPServer.cpp:28-33 | `n` tag-0 records emit `n` points |
| Iwp.AsWrittenOverflowsPoints | firmware/ILDAWaveX16/lib/IWP/IWPServer.cpp:22-30 | a 513-byte datagram of zeros makes the code as written store 513 points into its 512-slot array |
| Iwp.FreqAfter | firmware/ILDAWaveX16/lib/IWP/IWPServer.cpp:34-42 | the period after a datagram is the old one or one of its period records, and never drops below 10 from a period of at least 10 |
| Iwp.RefusedPeriodsKeepPeriod | firmware/ILDAWaveX16/lib/Renderer/Renderer.cpp:46-47 | a datagram whose period records are all below 10 leaves the period unchanged |
| Iwp.TurnOffKeepsBatch | firmware/ILDAWaveX16/lib/IWP/IWPServer.cpp:28-70 | with a tag-0 record anywhere in the datagram, the buffer ends holding exactly the datagram's stored points, including those decoded before the clear |
| Iwp.PointsAppendWhenTheyFit | firmware/ILDAWaveX16/lib/IWP/IWPServer.cpp:70 | without a tag-0 record, the stored points are appended after the old contents when they fit |
| Iwp.IwpServer.constructor | firmware/ILDAWaveX16/lib/IWP/IWPServer.h:49-52 | a new server is closed and owns a fresh 1500-byte receive buffer |
| Iwp.IwpServer.Begin | firmware/ILDAWaveX16/lib/IWP/IWPServer.cpp:3-7 | `begin` opens the socket |
| Iwp.IwpServer.Stop | firmware/ILDAWaveX16/lib/IWP/IWPServer.cpp:9-12 | `stop` closes it |
| Iwp.IwpServer.DecodeAt | firmware/ILDAWaveX16/lib/IWP/IWPServer.cpp:28-68 | the tag tests at `offset` yield exactly `Head` of the received bytes from `offset` |
| Iwp.IwpServer.Apply | firmware/ILDAWaveX16/lib/IWP/IWPServer.cpp:28-67 | one record stores its point while fewer than 1024 are stored. A tag 0 empties the shared buffer, and a period record goes through `change_freq`. Brightness and run flags are untouched |
| Iwp.IwpServer.Loop | firmware/ILDAWaveX16/lib/IWP/IWPServer.cpp:16-71 | with the socket closed or nothing read, nothing changes. Otherwise the period is `FreqAfter` of the parsed records and the buffer is `AfterDatagram` of them: cleared if any tag 0 came, then the stored points added |
| Iwp.IwpServer.Records | firmware/ILDAWaveX16/lib/IWP/IWPServer.cpp:22-69 | the loop applies exactly the records `Parse` finds, in order, and collects their stored points |
| Iwp.ParseResumes | firmware/ILDAWaveX16/lib/IWP/IWPServer.cpp:26-69 | the loop's offset bookkeeping: parsing resumes at `offset` after the records taken so far, and the parse is complete when no record fits or the data ends |
| Iwp.StoredStep | firmware/ILDAWaveX16/lib/IWP/IWPServer.cpp:28-67 | one more record grows the stored batch, the period and the turn-off flag as `Apply` does |
| Idn.NameField | firmware/ILDAWaveX16/lib/IDN/IDNServer.cpp:103-104 | a name copied into a zeroed field occupies its front, with zeros after it |
| Idn.HeaderBytes | firmware/ILDAWaveX16/lib/IDN/IDNServer.cpp:41-44 | a packet header is 4 bytes |
| Idn.EntryBytes | firmware/ILDAWaveX16/lib/IDN/IDNServer.cpp:98-104 | a service-map entry is 24 bytes |
| Idn.TableBytes | firmware/ILDAWaveX16/lib/IDN/IDNServer.cpp:127-134 | a table of `n` entries is `24n` bytes |
| Idn.ScanBytes | firmware/ILDAWaveX16/lib/IDN/IDNServer.cpp:47-62 | a scan-response body is 40 bytes |
| Idn.MapBytes | firmware/ILDAWaveX16/lib/IDN/IDNServer.cpp:83-138 | a service map is its 4-byte header plus 24 bytes per relay and per service entry |
| Idn.ScanReplyTo | firmware/ILDAWaveX16/lib/IDN/IDNServer.cpp:37-62 | the scan reply is a well-formed reply |
| Idn.MapReplyTo | firmware/ILDAWaveX16/lib/IDN/IDNServer.cpp:73-138 | the service-map reply is a well-formed reply |
| Idn.RepliesEchoRequest | firmware/ILDAWaveX16/lib/IDN/IDNServer.cpp:42-44 | both replies carry the matching response code, the request flags masked with the group mask, and the request's sequence bytes unchanged |
| Idn.ScanReplyLayout | firmware/ILDAWaveX16/lib/IDN/IDNServer.cpp:38-62 | the scan reply is 44 bytes: structSize 40, version 0x01, status exactly the realtime flag, unit ID 7, 1 and the MAC, zeros, and "IldaWaveX16" zero-padded |
| Idn.MapReplyLayout | firmware/ILDAWaveX16/lib/IDN/IDNServer.cpp:74-138 | the service-map reply is 32 bytes: struct size 4, entry size 24, 0 relays and 1 service. That service is id 1, continuous laser graphics, the default-service flag, relay 0 and "IDNService" zero-padded |
| Idn.DefaultEntryLayout | firmware/ILDAWaveX16/lib/IDN/IDNServer.cpp:95-104 | the one service entry's bytes: id, type, flags, relay, then the padded name |
| Idn.DataOffset | firmware/ILDAWaveX16/lib/IDN/IDNServer.cpp:158-165 | samples start 16 bytes into the datagram, or 36 when content-ID bit 0x4000 says a 20-byte configuration precedes them |
| Idn.SampleCountAsWrittenValues | firmware/ILDAWaveX16/lib/IDN/IDNServer.cpp:167 | as written, `(totalSize - 12) / 8` cast to 16 bits is 65535 for sizes 0-4, 0 for sizes 5-11 and `(size - 12) / 8` from 12 on |
| Idn.SampleCount | firmware/ILDAWaveX16/lib/IDN/IDNServer.cpp:167-171 | the corrected count stays within the 512-slot array, the declared size and the bytes received |
| Idn.SampleCountAgrees | firmware/ILDAWaveX16/lib/IDN/IDNServer.cpp:167 | for a message whose declared samples fit the array and were all received, the corrected count is the count as written |
| Idn.PlayedCount | firmware/ILDAWaveX16/lib/IDN/IDNServer.cpp:167-171 | the server decodes the firmware's own count whenever its samples stay inside the 512-slot array and the 1500-byte receive buffer, even past the received bytes; the count never leaves those two buffers |
| Idn.ShortMessageOverrunsLocalArray | firmware/ILDAWaveX16/lib/IDN/IDNServer.cpp:167-171 | declared sizes 4, 19 with configuration and 1500 make the code as written loop 65535, 8190 and 186 times, past the array or past the datagram. The corrected count is 0 for the first and last |
| Idn.SampleToPoint | firmware/ILDAWaveX16/lib/IDN/IDNServer.cpp:174-186 | a sample's x is centred and its y flipped from big-endian 16-bit fields. r, g and b are widened from bytes 4-6, and byte 7 is ignored |
| Idn.Samples | firmware/ILDAWaveX16/lib/IDN/IDNServer.cpp:171-187 | `n` samples give `n` points |
| Idn.ChannelPoints | firmware/ILDAWaveX16/lib/IDN/IDNServer.cpp:149-189 | a channel message queues points exactly when its content ID is odd, and then at most 512, as many as `PlayedCount` gives |
| Idn.ChannelPointsIgnoreStale | firmware/ILDAWaveX16/lib/IDN/IDNServer.cpp:167-171 | with the corrected count (`ChannelPointsIntended`), the points depend only on the bytes of this datagram, never on what earlier datagrams left in the buffer |
| Idn.ChannelPointsIntended | firmware/ILDAWaveX16/lib/IDN/IDNServer.cpp:149-189 | the corrected decoding yields points exactly for an odd content ID, at most 512 of them |
| Idn.ChannelPointsAgree | firmware/ILDAWaveX16/lib/IDN/IDNServer.cpp:163-187 | on a wave message whose declared samples fit the array and all arrived, the server decodes exactly the corrected points |
| Idn.StaleSamplesExample | firmware/ILDAWaveX16/lib/IDN/IDNServer.cpp:163-187 | a 20-byte wave datagram declaring a total size of 100 makes the server decode 11 samples, the last from receive-buffer bytes 96-103, left over from earlier datagrams; the corrected decoding yields none |
| Idn.Respond | firmware/ILDAWaveX16/lib/IDN/IDNServer.cpp:18-192 | what a datagram leads to: any reply it produces is well-formed |
| Idn.RespondDispatch | firmware/ILDAWaveX16/lib/IDN/IDNServer.cpp:35-192 | a reply comes exactly for scan and service-map requests, and points exactly for wave channel messages. Any other command does nothing. A reply's command is the request's plus one and its sequence is the request's |
| Idn.IdnServer.constructor | firmware/ILDAWaveX16/lib/IDN/IDNServer.h:28-32 | a new server is closed and owns fresh 1500-byte receive and 256-byte transmit buffers |
| Idn.IdnServer.Begin | firmware/ILDAWaveX16/lib/IDN/IDNServer.cpp:3-7 | `begin` opens the socket |
| Idn.IdnServer.Stop | firmware/ILDAWaveX16/lib/IDN/IDNServer.cpp:9-12 | `stop` closes it |
| Idn.IdnServer.Loop | firmware/ILDAWaveX16/lib/IDN/IDNServer.cpp:18-192 | with the socket closed or nothing read: no reply, no points. Otherwise the transmit bytes sent are exactly the reply `Respond` gives for the receive buffer, which includes stale bytes past the datagram, and the buffer gains exactly its points |
| Idn.IdnServer.Clear | firmware/ILDAWaveX16/lib/IDN/IDNServer.cpp:48 | `memset` zeroes exactly the named range of the transmit buffer |
| Idn.IdnServer.Put | firmware/ILDAWaveX16/lib/IDN/IDNServer.cpp:62 | copying bytes writes exactly the named range |
| Idn.IdnServer.PutHeader | firmware/ILDAWaveX16/lib/IDN/IDNServer.cpp:41-44 | the reply header is the response code, the masked flags and the echoed sequence, and the bytes after it are untouched |
| Idn.IdnServer.WriteScanReply | firmware/ILDAWaveX16/lib/IDN/IDNServer.cpp:37-67 | the scan case sends 44 bytes, and they are the bytes of `ScanReplyTo` the request |
| Idn.IdnServer.PutScanResponse | firmware/ILDAWaveX16/lib/IDN/IDNServer.cpp:47-62 | the scan body is zeroed, then filled field by field with the scan response fields, leaving the header alone |
| Idn.IdnServer.PutScanFields | firmware/ILDAWaveX16/lib/IDN/IDNServer.cpp:49-61 | the fields before the host name go in over the zeroed body, and nothing outside them changes |
| Idn.IdnServer.WriteMapReply | firmware/ILDAWaveX16/lib/IDN/IDNServer.cpp:73-145 | the service-map case sends 32 bytes, and they are the bytes of `MapReplyTo` the request |
| Idn.IdnServer.ChannelMessage | firmware/ILDAWaveX16/lib/IDN/IDNServer.cpp:149-189 | a channel message adds `ChannelPoints` of the receive buffer to the point buffer, and an even content ID adds nothing |
| Idn.IdnServer.ChannelFields | firmware/ILDAWaveX16/lib/IDN/IDNServer.cpp:150-167 | the header fields decide whether the message is a wave message, where its samples start and how many there are (`PlayedCount`), agreeing with `ChannelPoints` |
| Idn.IdnServer.DecodeSamples | firmware/ILDAWaveX16/lib/IDN/IDNServer.cpp:169-187 | the sample loop fills the first `samples` slots of a fresh 512-slot array with `Samples` of the buffer |
| Idn.IdnServer.DecodeSample | firmware/ILDAWaveX16/lib/IDN/IDNServer.cpp:172-186 | the loop body turns the 8 bytes at `offset` into `SampleToPoint` of them |
| Sender.InitialPalette | firmware/Python/iwp-ilda.py:86 | the palette starts as 256 white entries |
| Sender.StripZeros | firmware/Python/iwp-ilda.py:61-62 | `rstrip(b"\x00")` removes exactly the trailing zeros |
| Sender.ReadIldaHeader | firmware/Python/iwp-ilda.py:52-77 | a header is returned exactly when 32 bytes remain and they start with "ILDA", with the offset moved past it. Otherwise None and the offset unchanged |
| Sender.HeaderAgreesWithFirmware | firmware/Python/iwp-ilda.py:60-63 | the sender reads the same format and record count out of a header as the firmware |
| Sender.HeaderRoundTrip | firmware/Python/iwp-ilda.py:52-77 | a header laid out by a writer reads back with its format and record count, empty names and zero numbers |
| Sender.ZerosStrip | firmware/Python/iwp-ilda.py:61 | a field of zeros strips to the empty name |
| Sender.RecordSizesAgree | firmware/Python/iwp-ilda.py:97-146 | the sender's record sizes are the firmware's `bytesPerRecordMap` |
| Sender.DecodeRecord | firmware/Python/iwp-ilda.py:103-153 | coordinates are signed 16-bit, and formats 1 and 5 give z = 0 |
| Sender.DecodeInContext | firmware/Python/iwp-ilda.py:100-103 | a record decodes the same wherever it sits in the file |
| Sender.DecodeAgreesWithFirmware | firmware/Python/iwp-ilda.py:96-155 | the sender's record decoding agrees with the firmware's corrected field decoding, with the palette resolved the same way |
| Sender.PaletteEntry | firmware/Python/iwp-ilda.py:128 | a palette record reads red, green, blue in file order |
| Sender.PaletteEntryAgreesWithFirmware | firmware/Python/iwp-ilda.py:128-130 | the sender's palette entry is the firmware's corrected one |
| Sender.Fit | firmware/Python/iwp-ilda.py:99-102 | the loop reads at most the declared number of records |
| Sender.PointsFrom | firmware/Python/iwp-ilda.py:96-106 | a point section yields one point per whole record that fits in the file, up to the declared count |
| Sender.RecordsEnd | firmware/Python/iwp-ilda.py:100-106 | the offset after a section stays between its start and the end of the file |
| Sender.PaletteFrom | firmware/Python/iwp-ilda.py:124-131 | a palette section leaves a 256-entry palette |
| Sender.FitEnd | firmware/Python/iwp-ilda.py:99-106 | the section ends after the records read, and short of the declared count exactly when the next record would not fit |
| Sender.FitWhole | firmware/Python/iwp-ilda.py:99-106 | when every declared record is present, all are read and the offset moves past them all |
| Sender.PaletteFromWhole | firmware/Python/iwp-ilda.py:124-131 | with every palette record present, entry `k` is record `k - i` for the rows the section covers and is unchanged otherwise |
| Sender.NextSection | firmware/Python/iwp-ilda.py:88-158 | one pass of the loop moves the offset forward. A point section keeps the palette |
| Sender.ParseFrom | firmware/Python/iwp-ilda.py:88-160 | the loop leaves a 256-entry palette and frames of supported point formats only |
| Sender.ParseFile | firmware/Python/iwp-ilda.py:80-160 | `parse_ilda` returns a 256-entry palette |
| Sender.HeaderThenSection | firmware/Python/iwp-ilda.py:89-158 | after a writer's header, a palette section updates the palette and adds no frame, and a point section adds one frame |
| Sender.SectionStep | firmware/Python/iwp-ilda.py:88-158 | parsing is the section's frame, if any, followed by parsing from the next offset with the updated palette |
| Sender.WholeSectionPoints | firmware/Python/iwp-ilda.py:96-143 | in a complete point section, point `k` is the decoding of record `k` and parsing resumes after the body |
| Sender.WholeSectionPoint | firmware/Python/iwp-ilda.py:99-106 | point `k` of a complete section is record `k` of its body |
| Sender.WholeSectionIsOneFrame | firmware/Python/iwp-ilda.py:96-107 | a complete point section is exactly one frame, followed by whatever the rest of the file parses to |
| Sender.TruncatedSectionKeepsFrame | firmware/Python/iwp-ilda.py:100-107 | a section cut short by the end of the file still yields its frame, holding every whole record before the cut |
| Sender.PaletteSectionRows | firmware/Python/iwp-ilda.py:122-131 | a complete palette section sets entry `k` to record `k` in red, green, blue order for the first 256 records and leaves the others |
| Sender.PaletteSectionRow | firmware/Python/iwp-ilda.py:124-131 | entry `k` of a complete palette section, on its own |
| Sender.PaletteSectionAddsNoFrame | firmware/Python/iwp-ilda.py:122-131 | a palette section adds no frame, and parsing goes on after it with the new palette |
| Sender.ReadFrame | firmware/Python/iwp-ilda.py:96-107 | the record loop of a point section produces `PointsFrom` and ends at `RecordsEnd` |
| Sender.ReadPalette | firmware/Python/iwp-ilda.py:122-131 | the record loop of a palette section produces `PaletteFrom` and ends at `RecordsEnd` |
| Sender.ReadSection | firmware/Python/iwp-ilda.py:89-158 | one pass of the `while` loop is `NextSection` |
| Sender.ParseStep | firmware/Python/iwp-ilda.py:88-158 | each pass of the loop moves the section's frame, if any, into the frames found so far |
| Sender.ParseIlda | firmware/Python/iwp-ilda.py:80-160 | `parse_ilda`'s loop returns exactly `ParseFile` of the file's bytes |
| Sender.ToU16FromU8 | firmware/Python/iwp-ilda.py:180-181 | `(c & 0xFF) * 257` has `c mod 256` as both its high and low byte |
| Sender.WideningAgreesWithFirmware | firmware/Python/iwp-ilda.py:180-181 | the sender's widening equals the firmware's `(v << 8) \| v` and `map(v, 0, 255, 0, 65535)` |
| Sender.TransformXY | firmware/Python/iwp-ilda.py:183-186 | x is moved up by 0x8000 and y flipped around 0x8000, in 16 bits |
| Sender.TransformAgreesWithFirmware | firmware/Python/iwp-ilda.py:183-186 | on coordinates read from a file, the sender's transform is the firmware's centring and flip |
| Sender.PackPoint | firmware/Python/iwp-ilda.py:194-209 | a point packs as a tag-3 record with the transformed x and y. A blanked point is black, and any other point has its colours widened |
| Sender.StreamedPointIsPlayedPoint | firmware/Python/iwp-ilda.py:194-209 | streaming a point record over IWP gives the point the corrected card reader makes of the same record; for formats 0 and 4 that is the point the card stream as written plays, given the same palette |
| Sender.PacketCapacity | firmware/Python/iwp-ilda.py:189-191 | 93 is the most whole 11-byte records a 1023-byte datagram holds |
| Sender.PackAll | firmware/Python/iwp-ilda.py:193-209 | one record per point, in order |
| Sender.JoinEncodes | firmware/Python/iwp-ilda.py:213 | joining the packed records is the serialised run |
| Sender.SerializeRgb16Length | firmware/Python/iwp-ilda.py:205-209 | `n` tag-3 records take `11n` bytes |
| Sender.PacketsFit | firmware/Python/iwp-ilda.py:212-215 | every datagram sent is non-empty and at most 1023 bytes |
| Sender.PacketsRoundTrip | firmware/Python/iwp-ilda.py:212-215 | decoding the datagrams in order gives back every record, in order |
| Sender.PacketsFirst | firmware/Python/iwp-ilda.py:212-213 | the first datagram carries the first min(93, n) records |
| Sender.EveryPacketFullyQueued | firmware/ILDAWaveX16/lib/IWP/IWPServer.cpp:57-70 | the firmware queues every point of a datagram of up to 93 tag-3 records, unchanged and in order |
| Sender.EmittedRgb16 | firmware/ILDAWaveX16/lib/IWP/IWPServer.cpp:57-67 | tag-3 records emit their own points |
| Sender.ScanPeriod | firmware/Python/iwp-ilda.py:170 | the period is undefined for rate 0 (the division raises), and 1 for negative rates or rates above 1000000 |
| Sender.ScanPeriodIsQuotient | firmware/Python/iwp-ilda.py:170 | for rates 1..1000000 the period is the largest `p` with `p * rate <= 1000000` |
| Sender.ScanPeriodAccepted | firmware/Python/iwp-ilda.py:170 | the firmware accepts the period exactly for scan rates 1..100000 |
| Sender.PeriodDatagram | firmware/Python/iwp-ilda.py:173 | the period datagram is 5 bytes with tag 1 first |
| Sender.PeriodDatagramSetsPeriod | firmware/Python/iwp-ilda.py:173 | the firmware reads it as one period record, and it sets the period exactly when at least 10 |
| Sender.PackSamples | firmware/Python/iwp-ilda.py:193-209 | the `samples` loop builds one packed record per point, in order |
| Sender.ChunkStep | firmware/Python/iwp-ilda.py:212-215 | one pass of the chunk loop sends the next run of up to 93 records, and the rest is sent after it |
| Sender.ProjectorSender.constructor | firmware/Python/iwp-ilda.py:167-173 | the sender uses port 7200, computes the scan period and first sends the datagram that sets it |
| Sender.ProjectorSender.SendFrame | firmware/Python/iwp-ilda.py:188-217 | `send_frame` appends exactly the datagrams `Packets` makes from the packed points |

## Left out

- Concurrency: the spinlock critical sections in `PointRingBuffer`, the timer interrupt, the `dacSem` semaphore, `vTaskDelay` polling and task creation. Each buffer operation is an atomic method, and each task is one pass of its loop (`DacStep`, `SdStep`).
- Render.Renderer.SdStep: the wait until `canItFit` holds is modelled as "push if it fits, otherwise push nothing", because in the firmware only the consumer task can make room.
- Hardware: the hardware timer, the GPIO shutter, SPI bus and device setup, `spi_device_queue_trans`, and `Renderer::begin`. The DAC is modelled only as the frames it is sent.
- The socket calls (`parsePacket`, `read`, `beginPacket`, `write`, `endPacket`). A datagram is a byte sequence, and a reply is the transmit bytes and the length sent.
- `esp_read_mac`: the station MAC is a parameter.
- The `File` API. A file is a byte sequence with a read position, and a short read means fewer bytes remain. The file is taken to be at position 0 when `readHeader` is called.
- Ilda.Reads and Ilda.IldaStream.ReadChunk: the `while` loop of `readILDAChunk` takes a fuel bound. A file whose first header declares 0 records never emits, however much fuel it gets (`ZeroRecordFileSpinsForever`). The firmware spins there forever.
- The header structs in `idn.h`, `idn-stream.h` and `idn-hello.h`, which are not part of this model. Their constants are assumptions:
  - packet, channel-message, sample-chunk and service-map headers of 4, 8, 4 and 4 bytes;
  - a 40-byte scan response and a 24-byte service entry;
  - command codes 0x10/0x11 for scan, 0x12/0x13 for service map and 0x40 for a channel message;
  - group mask 0x0F, realtime status flag 0x01, default-service flag 0x01, and `IDNVAL_SMOD_LPGRF_CONTINUOUS` = 0x01, the value IDNServer.cpp:100 puts in the service-type field.
- `ILDA.h`, which is not part of this model. Its declarations are constants: a 32-byte header, `Point` as five 16-bit fields, and a 256×3 palette.
- The IDN channel message's timestamp (IDNServer.cpp:153) is read and never used. It is not modelled.
- The service-map `memcpy` at IDNServer.cpp:132 copies zero relay entries, so the reply does not depend on it.
- `IWPServer::iw_period` is declared and never used.
- main.cpp (Wi-Fi, HTTP, preferences, NeoPixel) and SDCard.cpp. The only thing taken from them is the `int` to `uint8_t` conversion at the two `change_brightness` call sites.
- In the Python script: the socket, `argparse`, `main`, the decoding of frame and company names to text, and the `point_delay` and fps sleeps. Names are kept as bytes with trailing zeros stripped.
- Sender.ProjectorSender.constructor requires a non-zero scan rate: with 0 the Python division raises before anything is sent, and `ScanPeriod` returns None for it.
- The 4-byte transmit buffers of `write_register` and `dac_write` (DAC80508.cpp:28-32, 44-48): each transfer clocks out 24 bits, so only the first three bytes leave, and those are the `Frame`. The padding byte is not modelled.
- Ilda.StorePalette: a palette record with index 256 or more makes the firmware write past the 256-row table, which is undefined behaviour. The model skips that store (`PaletteRow`), and `PaletteOverrunExample` shows the loop reaching such a record.
- Idn.PlayedCount: a firmware count whose samples would run past the 512-slot local array or the 1500-byte receive buffer is undefined behaviour. The model then decodes the bounded count `SampleCount` instead. `ShortMessageOverrunsLocalArray` shows such counts.
- Idn.IdnServer.Loop, Iwp.IwpServer.Loop: when the socket is open but nothing is pending, the model reads an empty datagram. The firmware returns before reading. Both change nothing.

## Findings

The model plays the firmware as written wherever its behaviour is defined: the card stream decodes records at the firmware's offsets and stores palette bytes in its order, and the IDN server decodes the firmware's sample count. Each corrected definition is kept beside it with its intended property proved. The Python sender is proved to agree with the corrected ILDA decoding (`Sender.DecodeAgreesWithFirmware`, `Sender.PaletteEntryAgreesWithFirmware`).

| source | as written | input that shows it | evidently intended | confidence | as-written member | corrected member |
|---|---|---|---|---|---|---|
| firmware/ILDAWaveX16/lib/ILDA/ILDA.cpp:107 | `buf_offset += 2` sits outside the `if`, so formats 1 and 5 read their status (and format 5 its colours) two bytes late, from stale bytes of `temp` beyond the record | a format-5 record `00 00 00 00 40 00 00 00` (blanked) after a scratch buffer holding `FF FF` at 8-9 plays lit, with red and green at full | the z skip only for the 3D formats 0 and 4 | not executed | Ilda.StreamStaleStatusExample | Ilda.FieldsReadOnlyTheRecord |
| firmware/ILDAWaveX16/lib/ILDA/ILDA.cpp:100-102 | palette bytes are stored reversed: slot 2 ← byte 0, slot 0 ← byte 2, while slot 0 is used as red | the palette record `FF 00 00` (red), then an indexed point using it, plays blue | store red, green, blue in file order, as the ILDA format-2 layout and the Python sender do | not executed | Ilda.PaletteThenIndexedPoint | Ilda.PaletteColourRoundTrip |
| firmware/ILDAWaveX16/lib/IWP/IWPServer.cpp:22 | the local `points` array has 512 slots, but the guard admits up to `IWP_BUFFER_SIZE` = 1024 points | a 513-byte datagram of zero bytes (513 tag-0 records) writes `points[512]` | a 1024-slot array, or the guard against 512 | not executed | Iwp.AsWrittenOverflowsPoints | Iwp.Stored |
| firmware/ILDAWaveX16/lib/ILDA/ILDA.cpp:100 | a palette record writes row `current_record_idx` with no bound, and the palette has 256 rows | a format-2 header declaring 257 records: the loop reaches record 256, which is written past the table | store only the first 256 records, as the Python sender does | not executed | Ilda.PaletteOverrunExample | Ilda.PaletteRow |
| firmware/ILDAWaveX16/lib/IDN/IDNServer.cpp:167 | the sample count is not bounded by the 512-slot array, and `totalSize` below 12 wraps to 65535 | a wave channel message with `totalSize` 4 runs the loop 65535 times over a 512-slot array | a count bounded by the array | not executed | Idn.ShortMessageOverrunsLocalArray | Idn.SampleCount |
| firmware/ILDAWaveX16/lib/IDN/IDNServer.cpp:167-171 | the sample count comes from the declared `totalSize` alone, not from the bytes received, so samples past the datagram are decoded from what earlier datagrams left in the receive buffer | a 20-byte wave datagram declaring `totalSize` 100 queues 11 points, each built partly or wholly from stale bytes | decode only the samples the datagram holds | not executed | Idn.StaleSamplesExample | Idn.ChannelPointsIgnoreStale |
