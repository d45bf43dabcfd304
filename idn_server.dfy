/** The IDN (ILDA Digital Network) UDP server: IDN-Hello scan and
    service-map requests are answered with replies built from the request's
    packet header, and IDN-Stream real-time channel messages are decoded
    sample by sample into points that are queued in one batch. */
module Idn {
  import opened Types
  import opened PointBuffer
  import opened Render
  import opened Udp

  // Packet header command codes.
  const IDNCMD_SCAN_REQUEST: u8 := 0x10
  const IDNCMD_SCAN_RESPONSE: u8 := 0x11
  const IDNCMD_SERVICEMAP_REQUEST: u8 := 0x12
  const IDNCMD_SERVICEMAP_RESPONSE: u8 := 0x13
  const IDNCMD_RT_CNLMSG: u8 := 0x40

  /** `IDNMSK_PKTFLAGS_GROUP` is 0x0F: masking with it keeps the flags
      modulo 16. */
  const GROUP_MODULUS: nat := 0x10
  const IDNFLG_SCAN_STATUS_REALTIME: u8 := 0x01
  const IDNFLG_MAPENTRY_DEFAULT_SERVICE: u8 := 0x01
  const IDNVAL_SMOD_LPGRF_CONTINUOUS: u8 := 0x01

  // Sizes of the wire structures.
  const PACKET_HEADER_SIZE: nat := 4
  const SCAN_RESPONSE_SIZE: u8 := 40
  const UNIT_ID_SIZE: nat := 16
  const NAME_SIZE: nat := 20
  const SERVICEMAP_RESPONSE_SIZE: u8 := 4
  const SERVICEMAP_ENTRY_SIZE: u8 := 24
  const CHANNEL_MESSAGE_SIZE: nat := 8
  const SAMPLE_CHUNK_SIZE: nat := 4
  /** The configuration block skipped when content-ID bit 0x4000 is set. */
  const CONFIG_SIZE: nat := 20
  /** One sample: x, y (big-endian), red, green, blue, intensity. */
  const SAMPLE_SIZE: nat := 8
  /** Size of `netTxBuffer`. */
  const TX_SIZE: nat := 256
  /** Length of the local `p` array the samples are decoded into. */
  const LOCAL_POINTS: nat := 512

  /** The bytes of an ASCII string. */
  function Ascii(s: string): (bs: seq<u8>)
    ensures |bs| == |s|
  {
    seq(|s|, i requires 0 <= i < |s| => (s[i] as int) % 0x100)
  }

  const HOST_NAME: seq<u8> := Ascii("IldaWaveX16")
  const SERVICE_NAME: seq<u8> := Ascii("IDNService")

  function Zeros(n: nat): (z: seq<u8>)
    ensures |z| == n && forall i :: 0 <= i < n ==> z[i] == 0
  {
    seq(n, _ => 0)
  }

  /** A fixed-size name field after `memset` and `sprintf`: the
      characters, then zero bytes. */
  function NameField(name: seq<u8>): (f: seq<u8>)
    requires |name| < NAME_SIZE
    ensures |f| == NAME_SIZE && f[..|name|] == name
    ensures forall i :: |name| <= i < NAME_SIZE ==> f[i] == 0
  {
    name + Zeros(NAME_SIZE - |name|)
  }

  /** `status |= flag` on a byte. */
  function Or8(a: u8, b: u8): u8
  {
    ((a as bv8) | (b as bv8)) as u8
  }

  // ---------------------------------------------------------------------
  // Replies, as records and as the bytes sent

  datatype PacketHeader = PacketHeader(command: u8, flags: u8, sequence: u16)

  datatype ScanResponse = ScanResponse(structSize: u8, protocolVersion: u8, status: u8, reserved: u8,
                                       unitID: seq<u8>, hostName: seq<u8>)

  datatype ServiceEntry = ServiceEntry(serviceID: u8, serviceType: u8, flags: u8, relayNumber: u8, name: seq<u8>)

  /** A service-map response: its header, then the relay table, then the
      service table; the entry counts are the tables' lengths. */
  datatype ServiceMap = ServiceMap(structSize: u8, entrySize: u8, relays: seq<ServiceEntry>, services: seq<ServiceEntry>)

  datatype Reply =
    | ScanReply(header: PacketHeader, scan: ScanResponse)
    | MapReply(header: PacketHeader, services: ServiceMap)

  /** The packet header at the front of a request. The sequence number is
      big-endian on the wire. */
  function RequestHeader(buf: seq<u8>): PacketHeader
    requires |buf| >= PACKET_HEADER_SIZE
  {
    PacketHeader(buf[0], buf[1], Be16(buf[2], buf[3]))
  }

  predicate EntryShape(e: ServiceEntry)
  {
    |e.name| == NAME_SIZE
  }

  /** Replies whose fixed-size fields have their sizes. */
  predicate WellFormed(r: Reply)
  {
    match r
    case ScanReply(_, s) => |s.unitID| == UNIT_ID_SIZE && |s.hostName| == NAME_SIZE
    case MapReply(_, m) =>
      |m.relays| < 0x100 && |m.services| < 0x100 &&
      (forall e :: e in m.relays ==> EntryShape(e)) && (forall e :: e in m.services ==> EntryShape(e))
  }

  function HeaderBytes(h: PacketHeader): (bs: seq<u8>)
    ensures |bs| == PACKET_HEADER_SIZE
  {
    [h.command, h.flags, Hi(h.sequence), Lo(h.sequence)]
  }

  function EntryBytes(e: ServiceEntry): (bs: seq<u8>)
    requires EntryShape(e)
    ensures |bs| == SERVICEMAP_ENTRY_SIZE as int
  {
    [e.serviceID, e.serviceType, e.flags, e.relayNumber] + e.name
  }

  /** A table of entries laid end to end. */
  function TableBytes(es: seq<ServiceEntry>): (bs: seq<u8>)
    requires forall e :: e in es ==> EntryShape(e)
    ensures |bs| == SERVICEMAP_ENTRY_SIZE as int * |es|
  {
    if es == [] then [] else EntryBytes(es[0]) + TableBytes(es[1..])
  }

  /** The 40 bytes of a scan response. */
  function ScanBytes(s: ScanResponse): (bs: seq<u8>)
    requires |s.unitID| == UNIT_ID_SIZE && |s.hostName| == NAME_SIZE
    ensures |bs| == SCAN_RESPONSE_SIZE as int
  {
    [s.structSize, s.protocolVersion, s.status, s.reserved] + s.unitID + s.hostName
  }

  /** The bytes of a service map: its header with the two entry counts,
      then the relay table and the service table. */
  function MapBytes(m: ServiceMap): (bs: seq<u8>)
    requires |m.relays| < 0x100 && |m.services| < 0x100
    requires (forall e :: e in m.relays ==> EntryShape(e)) && (forall e :: e in m.services ==> EntryShape(e))
    ensures |bs| == SERVICEMAP_RESPONSE_SIZE as int + SERVICEMAP_ENTRY_SIZE as int * (|m.relays| + |m.services|)
  {
    [m.structSize, m.entrySize, |m.relays|, |m.services|] + TableBytes(m.relays) + TableBytes(m.services)
  }

  /** The bytes of a reply as they go out through `udp.write`. */
  function ReplyBytes(r: Reply): seq<u8>
    requires WellFormed(r)
  {
    match r
    case ScanReply(h, s) => HeaderBytes(h) + ScanBytes(s)
    case MapReply(h, m) => HeaderBytes(h) + MapBytes(m)
  }

  /** The scan response to `req` from the unit with station MAC `mac`:
      protocol version 0.1, only the real-time status flag, unit ID of
      length 7 and type EUI-48 followed by the MAC, and the host name. */
  function ScanReplyTo(req: PacketHeader, mac: seq<u8>): (r: Reply)
    requires |mac| == 6
    ensures WellFormed(r)
  {
    ScanReply(PacketHeader(IDNCMD_SCAN_RESPONSE, req.flags % GROUP_MODULUS, req.sequence),
              ScanResponse(SCAN_RESPONSE_SIZE, (0 * 0x10) + 1, Or8(0, IDNFLG_SCAN_STATUS_REALTIME), 0,
                           [7, 1] + mac + Zeros(8), NameField(HOST_NAME)))
  }

  /** The one service the unit offers: service 1, continuous laser
      graphics, the default service, no relay. */
  const DefaultService: ServiceEntry :=
    ServiceEntry(0x01, IDNVAL_SMOD_LPGRF_CONTINUOUS, Or8(0, IDNFLG_MAPENTRY_DEFAULT_SERVICE), 0, NameField(SERVICE_NAME))

  /** The service-map response to `req`: no relays and the one service. */
  function MapReplyTo(req: PacketHeader): (r: Reply)
    ensures WellFormed(r)
  {
    MapReply(PacketHeader(IDNCMD_SERVICEMAP_RESPONSE, req.flags % GROUP_MODULUS, req.sequence),
             ServiceMap(SERVICEMAP_RESPONSE_SIZE, SERVICEMAP_ENTRY_SIZE, [], [DefaultService]))
  }

  /** Both replies answer the request they came from: the response code,
      the request's group flags, and the sequence number byte for byte. */
  lemma RepliesEchoRequest(buf: seq<u8>, mac: seq<u8>)
    requires |buf| >= PACKET_HEADER_SIZE && |mac| == 6
    ensures var bs := ReplyBytes(ScanReplyTo(RequestHeader(buf), mac));
            bs[0] == IDNCMD_SCAN_RESPONSE && bs[1] == buf[1] % GROUP_MODULUS && bs[2..4] == buf[2..4]
    ensures var bs := ReplyBytes(MapReplyTo(RequestHeader(buf)));
            bs[0] == IDNCMD_SERVICEMAP_RESPONSE && bs[1] == buf[1] % GROUP_MODULUS && bs[2..4] == buf[2..4]
  {
    Be16Bytes(buf[2], buf[3]);
  }

  /** The scan reply is the 4-byte packet header and the 40-byte scan
      response: size 40, version 0x01, status exactly the real-time flag,
      unit ID 7, 1, the MAC, zero padding, and the host name padded with
      zero bytes. */
  lemma ScanReplyLayout(req: PacketHeader, mac: seq<u8>)
    requires |mac| == 6
    ensures var bs := ReplyBytes(ScanReplyTo(req, mac));
            |bs| == PACKET_HEADER_SIZE + SCAN_RESPONSE_SIZE as int &&
            bs[4..8] == [40, 0x01, IDNFLG_SCAN_STATUS_REALTIME, 0] &&
            bs[8..10] == [7, 1] && bs[10..16] == mac && bs[16..24] == Zeros(8) &&
            bs[24..35] == HOST_NAME && bs[35..44] == Zeros(9)
  {
    var r := ScanReplyTo(req, mac);
    var bs := ReplyBytes(r);
    var unit := [7, 1] + mac + Zeros(8);
    assert Or8(0, IDNFLG_SCAN_STATUS_REALTIME) == IDNFLG_SCAN_STATUS_REALTIME;
    assert bs == HeaderBytes(r.header) + [40, 0x01, IDNFLG_SCAN_STATUS_REALTIME, 0] + unit + NameField(HOST_NAME);
    assert bs[8..24] == unit;
    assert bs[24..44] == NameField(HOST_NAME);
    assert bs[24..35] == bs[24..44][..11];
    assert bs[35..44] == bs[24..44][11..];
  }

  /** The service-map reply is the packet header, the 4-byte map header
      with no relay entries and one service entry, and that entry: 32
      bytes in all. */
  lemma MapReplyLayout(req: PacketHeader)
    ensures var bs := ReplyBytes(MapReplyTo(req));
            |bs| == PACKET_HEADER_SIZE + SERVICEMAP_RESPONSE_SIZE as int + SERVICEMAP_ENTRY_SIZE as int &&
            bs[4..8] == [4, 24, 0, 1] &&
            bs[8..12] == [0x01, IDNVAL_SMOD_LPGRF_CONTINUOUS, IDNFLG_MAPENTRY_DEFAULT_SERVICE, 0] &&
            bs[12..22] == SERVICE_NAME && bs[22..32] == Zeros(10)
  {
    var r := MapReplyTo(req);
    var entry := EntryBytes(DefaultService);
    DefaultEntryLayout();
    assert TableBytes([DefaultService]) == entry + TableBytes([]);
    assert MapBytes(r.services) == [4, 24, 0, 1] + entry;
    EntryInReply(HeaderBytes(r.header), entry);
  }

  /** The one service entry: ID 1, continuous laser graphics, the
      default-service flag, no relay, then the name padded with zeros. */
  lemma DefaultEntryLayout()
    ensures var entry := EntryBytes(DefaultService);
            entry[..4] == [0x01, IDNVAL_SMOD_LPGRF_CONTINUOUS, IDNFLG_MAPENTRY_DEFAULT_SERVICE, 0] &&
            entry[4..14] == SERVICE_NAME && entry[14..] == Zeros(10)
  {
    assert Or8(0, IDNFLG_MAPENTRY_DEFAULT_SERVICE) == IDNFLG_MAPENTRY_DEFAULT_SERVICE;
    var entry := EntryBytes(DefaultService);
    assert entry[4..] == NameField(SERVICE_NAME);
  }

  lemma EntryInReply(header: seq<u8>, entry: seq<u8>)
    requires |header| == PACKET_HEADER_SIZE && |entry| == SERVICEMAP_ENTRY_SIZE as int
    ensures var bs := header + ([4, 24, 0, 1] + entry);
            bs[4..8] == [4, 24, 0, 1] && bs[8..12] == entry[..4] && bs[12..22] == entry[4..14] && bs[22..32] == entry[14..]
  {
  }

  // ---------------------------------------------------------------------
  // Channel messages

  /** The channel-message header fields the decoder uses (the timestamp is
      read and dropped). */
  datatype ChannelHeader = ChannelHeader(totalSize: u16, contentID: u16)

  function ChannelAt(buf: seq<u8>): ChannelHeader
    requires |buf| >= PACKET_HEADER_SIZE + CHANNEL_MESSAGE_SIZE
  {
    ChannelHeader(Be16(buf[4], buf[5]), Be16(buf[6], buf[7]))
  }

  /** Only odd content IDs carry wave samples. */
  predicate IsWave(contentID: u16)
  {
    contentID % 2 == 1
  }

  /** Content-ID bit 0x4000: a configuration block precedes the samples. */
  predicate HasConfig(contentID: u16)
  {
    (contentID / 0x4000) % 2 == 1
  }

  /** Where the first sample starts: after the packet header, the optional
      configuration block, the channel-message header and the sample-chunk
      header. */
  function DataOffset(contentID: u16): (off: nat)
    ensures off == if HasConfig(contentID) then 36 else 16
  {
    PACKET_HEADER_SIZE + (if HasConfig(contentID) then CONFIG_SIZE else 0) + CHANNEL_MESSAGE_SIZE + SAMPLE_CHUNK_SIZE
  }

  /** The total size once the configuration block is skipped: 20 less,
      kept in a `uint16_t`. */
  function SizeAfterConfig(ch: ChannelHeader): u16
  {
    if HasConfig(ch.contentID) then Wrap16(ch.totalSize - CONFIG_SIZE) else ch.totalSize
  }

  /** `(uint16_t)((totalSize - 12) / 8)` as the firmware computes it. */
  function SampleCountAsWritten(size: u16): u16
  {
    Wrap16(TruncDiv(size - (CHANNEL_MESSAGE_SIZE + SAMPLE_CHUNK_SIZE), SAMPLE_SIZE))
  }

  /** What the as-written count comes to: 65535 for sizes 0 to 4, 0 for 5
      to 11, and the number of whole samples after the two headers
      otherwise. */
  lemma SampleCountAsWrittenValues(size: u16)
    ensures size <= 4 ==> SampleCountAsWritten(size) == 0xFFFF
    ensures 5 <= size < 12 ==> SampleCountAsWritten(size) == 0
    ensures size >= 12 ==> SampleCountAsWritten(size) == (size - 12) / 8
  {
  }

  /** The number of samples decoded: the whole samples the message
      declares, but no more than the received datagram holds past
      `dataOffset` and no more than the local array takes. */
  function SampleCount(size: u16, dataOffset: nat, len: nat): (n: nat)
    ensures n <= LOCAL_POINTS
    ensures n * SAMPLE_SIZE <= size - (CHANNEL_MESSAGE_SIZE + SAMPLE_CHUNK_SIZE) || n == 0
    ensures dataOffset + n * SAMPLE_SIZE <= len || n == 0
  {
    var declared := if size >= 12 then (size - 12) / 8 else 0;
    var available := if len >= dataOffset then (len - dataOffset) / 8 else 0;
    Min(declared, Min(available, LOCAL_POINTS))
  }

  /** On a well-formed message, one whose declared samples are all in the
      datagram and fit the local array, the bounded count is the
      firmware's count. */
  lemma SampleCountAgrees(size: u16, dataOffset: nat, len: nat)
    requires size >= 12 && (size - 12) / 8 <= LOCAL_POINTS
    requires dataOffset + (size - 12) / 8 * SAMPLE_SIZE <= len
    ensures SampleCount(size, dataOffset, len) == SampleCountAsWritten(size)
  {
  }

  /** The as-written count overruns both buffers: a message declaring 4
      bytes yields 65535 samples for a 512-slot array, one with a skipped
      configuration block and a declared size of 19 wraps to 8190 samples,
      and a 16-byte datagram declaring 1500 bytes yields 186 samples whose
      bytes end at 1504, past the 1500-byte receive buffer. */
  lemma ShortMessageOverrunsLocalArray()
    ensures SampleCountAsWritten(4) == 0xFFFF > LOCAL_POINTS
    ensures SampleCountAsWritten(SizeAfterConfig(ChannelHeader(19, 0x4001))) == 8190
    ensures SampleCountAsWritten(1500) == 186 && DataOffset(1) + 186 * SAMPLE_SIZE > RX_SIZE
    ensures SampleCount(4, DataOffset(1), 16) == 0 && SampleCount(1500, DataOffset(1), 16) == 0
  {
    assert HasConfig(0x4001);
  }

  /** One sample: x centred, y flipped, each 8-bit colour widened to 16
      bits; the intensity byte is ignored. */
  function SampleToPoint(s: seq<u8>): (p: Point)
    requires |s| == SAMPLE_SIZE
    ensures p.x == Signed16(Be16(s[0], s[1])) + 0x8000
    ensures p.y == FlipY(Be16(s[2], s[3]))
    ensures Hi(p.r) == Lo(p.r) == s[4] && Hi(p.g) == Lo(p.g) == s[5] && Hi(p.b) == Lo(p.b) == s[6]
  {
    Point(CenterX(Be16(s[0], s[1])), FlipY(Be16(s[2], s[3])), Widen8(s[4]), Widen8(s[5]), Widen8(s[6]))
  }

  /** The `n` samples starting at `off`. */
  function Samples(buf: seq<u8>, off: nat, n: nat): (ps: seq<Point>)
    requires off + n * SAMPLE_SIZE <= |buf|
    ensures |ps| == n
  {
    seq(n, k requires 0 <= k < n => SampleToPoint(buf[off + k * SAMPLE_SIZE..off + k * SAMPLE_SIZE + SAMPLE_SIZE]))
  }

  /** Whether `n` samples from `off` stay inside the local 512-slot array
      and the 1500-byte receive buffer. */
  predicate InBuffers(off: nat, n: nat)
  {
    n <= LOCAL_POINTS && off + n * SAMPLE_SIZE <= RX_SIZE
  }

  /** The number of samples the server decodes: the firmware's own count,
      `SampleCountAsWritten`, whatever the datagram's length, so that samples
      past the received bytes come from what the receive buffer held
      before. A count that would run past the local array or the receive
      buffer is undefined behaviour in the firmware; the model then takes
      the bounded count. */
  function PlayedCount(size: u16, off: nat, len: nat): (n: nat)
    requires len <= RX_SIZE
    ensures InBuffers(off, n) || n == 0
    ensures InBuffers(off, SampleCountAsWritten(size) as nat) ==> n == SampleCountAsWritten(size) as nat
  {
    var n := SampleCountAsWritten(size) as nat;
    if InBuffers(off, n) then n else SampleCount(size, off, len)
  }

  /** The points a channel message yields: none for an even content ID,
      otherwise the samples after the headers, as many as the firmware
      counts. */
  function ChannelPoints(buf: seq<u8>, len: nat): (ps: Option<seq<Point>>)
    requires |buf| == RX_SIZE && len <= RX_SIZE
    ensures ps.Some? <==> IsWave(ChannelAt(buf).contentID)
    ensures ps.Some? ==> |ps.value| <= LOCAL_POINTS
  {
    var ch := ChannelAt(buf);
    if !IsWave(ch.contentID) then None
    else
      var off := DataOffset(ch.contentID);
      Some(Samples(buf, off, PlayedCount(SizeAfterConfig(ch), off, len)))
  }

  /** `ChannelPoints` unfolded for a wave message. */
  lemma ChannelPointsOfWave(buf: seq<u8>, len: nat)
    requires |buf| == RX_SIZE && len <= RX_SIZE && IsWave(ChannelAt(buf).contentID)
    ensures var ch := ChannelAt(buf); var off := DataOffset(ch.contentID);
            ChannelPoints(buf, len) == Some(Samples(buf, off, PlayedCount(SizeAfterConfig(ch), off, len)))
  {
  }

  /** The points a channel message was meant to yield: only samples that
      the message declares and the datagram holds. */
  function ChannelPointsIntended(buf: seq<u8>, len: nat): (ps: Option<seq<Point>>)
    requires |buf| == RX_SIZE && len <= RX_SIZE
    ensures ps.Some? <==> IsWave(ChannelAt(buf).contentID)
    ensures ps.Some? ==> |ps.value| <= LOCAL_POINTS
  {
    var ch := ChannelAt(buf);
    if !IsWave(ch.contentID) then None
    else
      var off := DataOffset(ch.contentID);
      Some(Samples(buf, off, SampleCount(SizeAfterConfig(ch), off, len)))
  }

  /** With the bounded count the samples come from the received datagram
      only: two buffers that agree on the first `len` bytes, and so on the
      headers, give the same points whatever lies past `len`. */
  lemma ChannelPointsIgnoreStale(buf1: seq<u8>, buf2: seq<u8>, len: nat)
    requires |buf1| == |buf2| == RX_SIZE && PACKET_HEADER_SIZE + CHANNEL_MESSAGE_SIZE <= len <= RX_SIZE
    requires buf1[..len] == buf2[..len]
    ensures ChannelPointsIntended(buf1, len) == ChannelPointsIntended(buf2, len)
  {
    forall i | 0 <= i < len
      ensures buf1[i] == buf2[i]
    {
      assert buf1[i] == buf1[..len][i];
    }
    var ch := ChannelAt(buf1);
    assert ch == ChannelAt(buf2);
    if IsWave(ch.contentID) {
      var off := DataOffset(ch.contentID);
      var n := SampleCount(SizeAfterConfig(ch), off, len);
      assert ChannelPointsIntended(buf1, len) == Some(Samples(buf1, off, n));
      assert ChannelPointsIntended(buf2, len) == Some(Samples(buf2, off, n));
      SamplesAgree(buf1, buf2, off, n, len);
    }
  }

  /** On a well-formed wave message, one whose declared samples all lie in
      the datagram and fit the local array, the server decodes exactly the
      intended points. */
  lemma ChannelPointsAgree(buf: seq<u8>, len: nat)
    requires |buf| == RX_SIZE && len <= RX_SIZE
    requires var ch := ChannelAt(buf); var size := SizeAfterConfig(ch); var off := DataOffset(ch.contentID);
             size >= 12 && (size - 12) / 8 <= LOCAL_POINTS && off + (size - 12) / 8 * SAMPLE_SIZE <= len
    ensures ChannelPoints(buf, len) == ChannelPointsIntended(buf, len)
  {
    var ch := ChannelAt(buf);
    var size, off := SizeAfterConfig(ch), DataOffset(ch.contentID);
    SampleCountAgrees(size, off, len);
    assert InBuffers(off, SampleCountAsWritten(size) as nat);
  }

  /** A 20-byte wave datagram whose channel message declares a total size
      of 100: the server decodes 11 samples, each reading
      bytes past the datagram, left over in the receive buffer; the
      intended decoding has no whole sample to take. */
  lemma StaleSamplesExample(buf: seq<u8>)
    requires |buf| == RX_SIZE && buf[4..8] == [0, 100, 0, 1]
    ensures ChannelPoints(buf, 20) == Some(Samples(buf, 16, 11))
    ensures ChannelPoints(buf, 20).value[10] == SampleToPoint(buf[96..104])
    ensures ChannelPointsIntended(buf, 20) == Some([])
  {
    assert buf[4] == 0 && buf[5] == 100 && buf[6] == 0 && buf[7] == 1 by {
      assert buf[4..8][0] == buf[4] && buf[4..8][1] == buf[5] && buf[4..8][2] == buf[6] && buf[4..8][3] == buf[7];
    }
    var ch := ChannelAt(buf);
    assert ch == ChannelHeader(100, 1);
    assert !HasConfig(1) && SizeAfterConfig(ch) == 100 && DataOffset(1) == 16;
    assert SampleCountAsWritten(100) == 11;
    assert PlayedCount(100, 16, 20) == 11;
    assert SampleCount(100, 16, 20) == 0;
  }

  /** Samples read only from the first `len` bytes are the same in two
      buffers that agree there. */
  lemma SamplesAgree(buf1: seq<u8>, buf2: seq<u8>, off: nat, n: nat, len: nat)
    requires |buf1| == |buf2| && len <= |buf1| && off + n * SAMPLE_SIZE <= |buf1|
    requires off + n * SAMPLE_SIZE <= len || n == 0
    requires forall i :: 0 <= i < len ==> buf1[i] == buf2[i]
    ensures Samples(buf1, off, n) == Samples(buf2, off, n)
  {
    forall k | 0 <= k < n
      ensures Samples(buf1, off, n)[k] == Samples(buf2, off, n)[k]
    {
      var at := off + k * SAMPLE_SIZE;
      assert at + SAMPLE_SIZE <= off + n * SAMPLE_SIZE <= len;
      assert buf1[at..at + SAMPLE_SIZE] == buf2[at..at + SAMPLE_SIZE];
    }
  }

  /** What one received datagram leads to: the reply sent, if any, and the
      points queued, if any. */
  datatype Outcome = Outcome(reply: Option<Reply>, points: Option<seq<Point>>)

  /** `loop` on a receive buffer holding `len` fresh bytes. */
  function Respond(buf: seq<u8>, len: nat, mac: seq<u8>): (o: Outcome)
    requires |buf| == RX_SIZE && 0 < len <= RX_SIZE && |mac| == 6
    ensures o.reply.Some? ==> WellFormed(o.reply.value)
  {
    var req := RequestHeader(buf);
    if req.command == IDNCMD_SCAN_REQUEST then Outcome(Some(ScanReplyTo(req, mac)), None)
    else if req.command == IDNCMD_SERVICEMAP_REQUEST then Outcome(Some(MapReplyTo(req)), None)
    else if req.command == IDNCMD_RT_CNLMSG then Outcome(None, ChannelPoints(buf, len))
    else Outcome(None, None)
  }

  /** Which datagrams get a reply and which queue points: a reply exactly
      for scan and service-map requests, points exactly for wave channel
      messages, and nothing at all for any other command. */
  lemma RespondDispatch(buf: seq<u8>, len: nat, mac: seq<u8>)
    requires |buf| == RX_SIZE && 0 < len <= RX_SIZE && |mac| == 6
    ensures var o := Respond(buf, len, mac);
            (o.reply.Some? <==> buf[0] == IDNCMD_SCAN_REQUEST || buf[0] == IDNCMD_SERVICEMAP_REQUEST) &&
            (o.points.Some? <==> buf[0] == IDNCMD_RT_CNLMSG && IsWave(Be16(buf[6], buf[7]))) &&
            (o.reply.Some? ==> o.reply.value.header.sequence == Be16(buf[2], buf[3]) &&
                               o.reply.value.header.command == buf[0] + 1)
  {
  }

  // ---------------------------------------------------------------------
  // The server

  /** `IDNServer`: the socket's open flag, the receive and transmit
      buffers and the renderer it feeds. */
  class IdnServer {
    const renderer: Renderer
    /** `netRxBuffer`. */
    const rx: array<u8>
    /** `netTxBuffer`. */
    const tx: array<u8>
    /** `udpOpen`. */
    var open: bool

    ghost predicate Valid()
      reads this, renderer, renderer.buffer, renderer.buffer.buffer, renderer.ilda, renderer.ilda.palette
    {
      rx.Length == RX_SIZE && tx.Length == TX_SIZE && rx != tx && renderer.Valid()
    }

    /** A closed server feeding `r` (`setRendererHandle`). */
    constructor (r: Renderer)
      requires r.Valid()
      ensures Valid() && renderer == r && !open && fresh(rx) && fresh(tx)
    {
      renderer := r;
      rx := new u8[RX_SIZE](_ => 0);
      tx := new u8[TX_SIZE](_ => 0);
      open := false;
    }

    /** `begin`: the socket is opened. */
    method Begin()
      modifies this
      ensures open
    {
      open := true;
    }

    /** `stop`: the socket is closed. */
    method Stop()
      modifies this
      ensures !open
    {
      open := false;
    }

    /** `loop` with one pending datagram `dgram` (an empty one stands for
        "nothing pending") on a unit whose station MAC is `mac`. With the
        socket closed or nothing read nothing happens. Otherwise the
        datagram is read over the receive buffer, whose bytes past it are
        what earlier datagrams left, and answered: `sendLen` bytes of
        `netTxBuffer` are sent, and the decoded points are queued. */
    method Loop(dgram: seq<u8>, mac: seq<u8>) returns (sendLen: nat)
      requires Valid() && |mac| == 6
      modifies rx, tx, renderer.buffer, renderer.buffer.buffer
      ensures Valid()
      ensures !open || dgram == [] ==> sendLen == 0 && renderer.buffer.Contents == old(renderer.buffer.Contents)
      ensures open && dgram != [] ==>
                var d := Received(dgram);
                var o := Respond(d + old(rx[|d|..]), |d|, mac);
                (o.reply.None? ==> sendLen == 0) &&
                (o.reply.Some? ==> sendLen <= tx.Length && tx[..sendLen] == ReplyBytes(o.reply.value)) &&
                renderer.buffer.Contents ==
                  if o.points.Some? then AfterAdd(old(renderer.buffer.Contents), o.points.value)
                  else old(renderer.buffer.Contents)
    {
      if !open {
        return 0;
      }
      ghost var stale := rx[..];
      var len := ReadInto(rx, dgram);
      if len == 0 {
        return 0;
      }
      assert rx[..] == rx[..len] + rx[len..];
      assert stale[len..] == old(rx[len..]);
      var cmd := rx[0];
      if cmd == IDNCMD_SCAN_REQUEST {
        sendLen := WriteScanReply(mac);
      } else if cmd == IDNCMD_SERVICEMAP_REQUEST {
        sendLen := WriteMapReply();
      } else {
        if cmd == IDNCMD_RT_CNLMSG {
          ChannelMessage(len);
        }
        sendLen := 0;
      }
    }

    /** `memset` of `n` transmit bytes from `off`. */
    method Clear(off: nat, n: nat)
      requires tx.Length == TX_SIZE && off + n <= TX_SIZE
      modifies tx
      ensures forall i :: 0 <= i < tx.Length ==> tx[i] == if off <= i < off + n then 0 else old(tx[i])
    {
      forall i | off <= i < off + n {
        tx[i] := 0;
      }
    }

    /** `memcpy` (or `sprintf`) of `bs` into the transmit buffer at `off`. */
    method Put(off: nat, bs: seq<u8>)
      requires tx.Length == TX_SIZE && off + |bs| <= TX_SIZE
      modifies tx
      ensures forall i :: 0 <= i < tx.Length ==> tx[i] == if off <= i < off + |bs| then bs[i - off] else old(tx[i])
    {
      forall i | off <= i < off + |bs| {
        tx[i] := bs[i - off];
      }
    }

    /** The packet header of a reply: the response code, the request's
        group flags, and the request's sequence bytes copied as they are. */
    method PutHeader(command: u8)
      requires Valid()
      modifies tx
      ensures tx[..PACKET_HEADER_SIZE] ==
              HeaderBytes(PacketHeader(command, rx[1] % GROUP_MODULUS, RequestHeader(rx[..]).sequence))
      ensures tx[PACKET_HEADER_SIZE..] == old(tx[PACKET_HEADER_SIZE..])
    {
      Be16Bytes(rx[2], rx[3]);
      tx[0] := command;
      tx[1] := rx[1] % GROUP_MODULUS;
      tx[2] := rx[2];
      tx[3] := rx[3];
    }

    /** The scan-request case: the reply is built field by field into
        `netTxBuffer` and its length returned. */
    method WriteScanReply(mac: seq<u8>) returns (sendLen: nat)
      requires Valid() && |mac| == 6
      modifies tx
      ensures sendLen == PACKET_HEADER_SIZE + SCAN_RESPONSE_SIZE as int
      ensures tx[..sendLen] == ReplyBytes(ScanReplyTo(RequestHeader(rx[..]), mac))
    {
      sendLen := PACKET_HEADER_SIZE + SCAN_RESPONSE_SIZE as int;
      PutHeader(IDNCMD_SCAN_RESPONSE);
      PutScanResponse(mac);
      assert Or8(0, IDNFLG_SCAN_STATUS_REALTIME) == IDNFLG_SCAN_STATUS_REALTIME;
      assert tx[..sendLen] == tx[..PACKET_HEADER_SIZE] + tx[PACKET_HEADER_SIZE..sendLen];
    }

    /** The scan response after the packet header: cleared, then the
        size, the protocol version, the real-time status flag, the unit ID
        (length 7, type EUI-48, the MAC) and the host name. */
    method PutScanResponse(mac: seq<u8>)
      requires tx.Length == TX_SIZE && |mac| == 6
      modifies tx
      ensures tx[..PACKET_HEADER_SIZE] == old(tx[..PACKET_HEADER_SIZE])
      ensures tx[PACKET_HEADER_SIZE..PACKET_HEADER_SIZE + SCAN_RESPONSE_SIZE as int] ==
              ScanBytes(ScanResponse(SCAN_RESPONSE_SIZE, 0x01, IDNFLG_SCAN_STATUS_REALTIME, 0,
                                     [7, 1] + mac + Zeros(8), NameField(HOST_NAME)))
    {
      Clear(PACKET_HEADER_SIZE, SCAN_RESPONSE_SIZE as int);
      PutScanFields(mac);
      ghost var fields := tx[4..24];
      Put(24, HOST_NAME + [0]);
      assert tx[4..24] == fields;
      forall i | 0 <= i < NAME_SIZE
        ensures tx[24 + i] == NameField(HOST_NAME)[i]
      {
      }
      assert tx[24..44] == NameField(HOST_NAME);
      assert tx[4..44] == fields + tx[24..44];
    }

    /** The fields before the host name, written over a cleared body: the
        size, the protocol version, the status with the real-time flag
        or-ed in, the reserved byte and the unit ID. */
    method PutScanFields(mac: seq<u8>)
      requires tx.Length == TX_SIZE && |mac| == 6
      requires tx[7] == 0 && forall i :: 16 <= i < 24 ==> tx[i] == 0
      modifies tx
      ensures forall i :: 0 <= i < tx.Length && !(4 <= i < 24) ==> tx[i] == old(tx[i])
      ensures tx[4..24] == [SCAN_RESPONSE_SIZE, 0x01, IDNFLG_SCAN_STATUS_REALTIME, 0] + [7, 1] + mac + Zeros(8)
    {
      tx[4] := SCAN_RESPONSE_SIZE;
      tx[5] := (0 * 0x10) + 1;
      tx[6] := 0;
      tx[6] := Or8(tx[6], IDNFLG_SCAN_STATUS_REALTIME);
      tx[8] := 7;
      tx[9] := 1;
      ghost var head := tx[4..10];
      assert head == [SCAN_RESPONSE_SIZE, 0x01, IDNFLG_SCAN_STATUS_REALTIME, 0] + [7, 1];
      Put(10, mac);
      ghost var want := head + mac + Zeros(8);
      forall i | 4 <= i < 24
        ensures tx[i] == want[i - 4]
      {
        if i < 10 {
          assert tx[i] == head[i - 4];
        }
      }
      assert tx[4..24] == want;
    }

    /** The service-map case: no relays, the one service entry copied in
        after the map header, and the two entry counts. */
    method WriteMapReply() returns (sendLen: nat)
      requires Valid()
      modifies tx
      ensures sendLen == PACKET_HEADER_SIZE + SERVICEMAP_RESPONSE_SIZE as int + SERVICEMAP_ENTRY_SIZE as int
      ensures tx[..sendLen] == ReplyBytes(MapReplyTo(RequestHeader(rx[..])))
    {
      sendLen := PACKET_HEADER_SIZE + SERVICEMAP_RESPONSE_SIZE as int;
      PutHeader(IDNCMD_SERVICEMAP_RESPONSE);
      Clear(PACKET_HEADER_SIZE, SERVICEMAP_RESPONSE_SIZE as int);
      tx[4] := SERVICEMAP_RESPONSE_SIZE;
      tx[5] := SERVICEMAP_ENTRY_SIZE;
      var relayCount, serviceCount := 0, 1;
      var entry := EntryBytes(DefaultService);
      sendLen := sendLen + relayCount * SERVICEMAP_ENTRY_SIZE as int;
      sendLen := sendLen + serviceCount * SERVICEMAP_ENTRY_SIZE as int;
      Put(PACKET_HEADER_SIZE + SERVICEMAP_RESPONSE_SIZE as int, entry);
      tx[6] := relayCount;
      tx[7] := serviceCount;
      assert TableBytes([DefaultService]) == entry + TableBytes([]);
      assert tx[4..8] == [4, 24, 0, 1];
      assert tx[8..32] == entry;
      assert tx[..sendLen] == tx[..4] + tx[4..8] + tx[8..32];
    }

    /** The channel-message case on `len` received bytes: an even content
        ID is ignored; otherwise the samples are decoded into a local
        512-slot array and queued in one `buffer_add_points` call. */
    method ChannelMessage(len: nat)
      requires Valid() && 0 < len <= RX_SIZE
      modifies renderer.buffer, renderer.buffer.buffer
      ensures Valid()
      ensures var ps := ChannelPoints(rx[..], len);
              renderer.buffer.Contents ==
                if ps.Some? then AfterAdd(old(renderer.buffer.Contents), ps.value) else old(renderer.buffer.Contents)
    {
      var wave, data, samples := ChannelFields(len);
      if !wave {
        return;
      }
      var p := DecodeSamples(data, samples);
      renderer.BufferAddPoints(p[..samples]);
    }

    /** The header part of `handleChannelMessage`: whether the content is
        a wave, where its samples start and how many are taken. */
    method ChannelFields(len: nat) returns (wave: bool, data: nat, samples: nat)
      requires rx.Length == RX_SIZE && len <= RX_SIZE
      ensures wave <==> ChannelPoints(rx[..], len).Some?
      ensures wave ==> samples <= LOCAL_POINTS && data + samples * SAMPLE_SIZE <= RX_SIZE
      ensures wave ==> ChannelPoints(rx[..], len) == Some(Samples(rx[..], data, samples))
    {
      var size := Be16(rx[4], rx[5]);
      var contentID := Be16(rx[6], rx[7]);
      ghost var ch := ChannelAt(rx[..]);
      assert ch == ChannelHeader(size, contentID);
      if !IsWave(contentID) {
        return false, 0, 0;
      }
      var msg := PACKET_HEADER_SIZE;
      if HasConfig(contentID) {
        msg := msg + CONFIG_SIZE;
        size := Wrap16(size - CONFIG_SIZE);
      }
      data := msg + CHANNEL_MESSAGE_SIZE + SAMPLE_CHUNK_SIZE;
      assert size == SizeAfterConfig(ch) && data == DataOffset(ch.contentID);
      samples := PlayedCount(size, data, len);
      assert InBuffers(data, samples) || samples == 0;
      wave := true;
      ChannelPointsOfWave(rx[..], len);
    }

    /** The sample loop: `samples` points decoded from `data` on into a
        fresh 512-slot array. */
    method DecodeSamples(data: nat, samples: nat) returns (p: array<Point>)
      requires rx.Length == RX_SIZE && samples <= LOCAL_POINTS && data + samples * SAMPLE_SIZE <= RX_SIZE
      ensures fresh(p) && p.Length == LOCAL_POINTS && p[..samples] == Samples(rx[..], data, samples)
    {
      p := new Point[LOCAL_POINTS](_ => Blank);
      var a := 0;
      while a < samples
        invariant 0 <= a <= samples
        invariant p[..a] == Samples(rx[..], data, a)
      {
        var offset := data + a * SAMPLE_SIZE;
        p[a] := DecodeSample(offset);
        a := a + 1;
        assert p[..a] == Samples(rx[..], data, a - 1) + [SampleToPoint(rx[offset..offset + SAMPLE_SIZE])];
      }
    }

    /** The body of the sample loop: the eight bytes at `offset`. */
    method DecodeSample(offset: nat) returns (p: Point)
      requires rx.Length == RX_SIZE && offset + SAMPLE_SIZE <= RX_SIZE
      ensures p == SampleToPoint(rx[offset..offset + SAMPLE_SIZE])
    {
      var x: int := Be16(rx[offset], rx[offset + 1]);
      var y: int := Be16(rx[offset + 2], rx[offset + 3]);
      p := Point(Wrap16(x + 0x8000), Wrap16(-y + 0x8000),
                 Widen8(rx[offset + 4]), Widen8(rx[offset + 5]), Widen8(rx[offset + 6]));
      assert rx[offset..offset + SAMPLE_SIZE][4] == rx[offset + 4];
    }
  }
}
