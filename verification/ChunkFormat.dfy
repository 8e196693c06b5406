/**
 The chunk wire format as RTMP_SendPacket emits it (librtmp/rtmp.c:3244-3446):
 header compression against the previous packet of the channel, the three
 basic-header forms, and the cutting of a body into chunks.
 */
module ChunkFormat {
  import opened Wrappers
  import opened Bytes

  const LARGE := 0
  const MEDIUM := 1
  const SMALL := 2
  const MINIMUM := 3

  const MAX_HEADER_SIZE := 18

  /** RTMPPacket without its body: what the sender keeps per channel. */
  datatype PacketHeader = PacketHeader(
    headerType: nat,
    packetType: byte,
    channel: nat,
    timestamp: uint32,
    info: int32,
    bodySize: nat)

  /** A packet handed to the sender. */
  datatype Message = Message(
    headerType: nat,
    packetType: byte,
    channel: nat,
    timestamp: uint32,
    info: int32,
    body: seq<byte>)
  {
    function Header(): PacketHeader {
      PacketHeader(headerType, packetType, channel, timestamp, info, |body|)
    }
  }

  /** The per-connection state of the sender: m_outChunkSize and m_vecChannelsOut. */
  datatype SenderState = SenderState(chunkSize: int, prev: map<nat, PacketHeader>)
  {
    function Prev(channel: nat): Option<PacketHeader> {
      if channel in prev then Some(prev[channel]) else None
    }
  }

  function PacketSize(headerType: nat): (n: nat)
    requires headerType <= 3
    ensures 1 <= n <= 12
  {
    [12, 8, 4, 1][headerType]
  }

  /** The header type actually used: fields that the channel's previous packet had already are left out. */
  function ChosenType(prev: Option<PacketHeader>, h: PacketHeader): nat {
    if prev.None? || h.headerType == LARGE then h.headerType
    else
      var t := if prev.value.bodySize == h.bodySize && prev.value.packetType == h.packetType && h.headerType == MEDIUM
               then SMALL else h.headerType;
      if prev.value.timestamp == h.timestamp && t == SMALL then MINIMUM else t
  }

  /** The timestamp field `t`: absolute for the first packet of a channel and for LARGE headers, else a difference. */
  function TimestampField(prev: Option<PacketHeader>, h: PacketHeader): uint32 {
    if prev.None? || h.headerType == LARGE then h.timestamp else Wrap(h.timestamp - prev.value.timestamp)
  }

  /** Extra basic-header bytes for large channel numbers (`cSize`). */
  function ChannelBytes(channel: nat): (n: nat)
    ensures n <= 2
  {
    if channel > 319 then 2 else if channel > 63 then 1 else 0
  }

  function BasicHeader(headerType: nat, channel: nat): (b: seq<byte>)
    requires headerType <= 3 && channel <= 65599
    ensures |b| == 1 + ChannelBytes(channel)
  {
    if channel > 319 then [headerType * 64 + 1, (channel - 64) % 0x100, (channel - 64) / 0x100]
    else if channel > 63 then [headerType * 64, channel - 64]
    else [headerType * 64 + channel]
  }

  predicate Extended(headerType: nat, t: uint32) {
    headerType < MINIMUM && t >= 0xff_ffff
  }

  /** Everything after the basic header and before the first body byte. */
  function MessageHeader(headerType: nat, t: uint32, h: PacketHeader): (b: seq<byte>)
    requires headerType <= 3
    ensures |b| == PacketSize(headerType) - 1 + (if Extended(headerType, t) then 4 else 0)
  {
      (if headerType < MINIMUM then EncodeInt24(if t > 0xff_ffff then 0xff_ffff else t) else [])
    + (if headerType < SMALL then EncodeInt24(h.bodySize) + [h.packetType] else [])
    + (if headerType == LARGE then EncodeInt32LE(h.info) else [])
    + (if Extended(headerType, t) then EncodeInt32(t) else [])
  }

  /** A body cut every `k` bytes, with the one-to-three byte continuation header between the pieces. */
  function Chunks(body: seq<byte>, k: int, continuation: seq<byte>): (w: seq<byte>)
    requires k > 0
    decreases |body|
  {
    if |body| <= k then body
    else body[..k] + continuation + Chunks(body[k..], k, continuation)
  }

  predicate Sendable(st: SenderState, m: Message) {
    && st.chunkSize > 0
    && m.channel <= 65599
    && m.headerType <= 3
  }

  function FullHeader(prev: Option<PacketHeader>, h: PacketHeader): seq<byte>
    requires h.channel <= 65599 && h.headerType <= 3
  {
    var ht := ChosenType(prev, h);
    BasicHeader(ht, h.channel) + MessageHeader(ht, TimestampField(prev, h), h)
  }

  predicate SameSizeAndType(prev: PacketHeader, h: PacketHeader) {
    prev.bodySize == h.bodySize && prev.packetType == h.packetType
  }

  /** Size and type are not sent: this was asked for, or they are those of the channel's previous packet. */
  predicate SizeOmitted(prev: Option<PacketHeader>, h: PacketHeader) {
    h.headerType == 2 || h.headerType == 3
    || (h.headerType == 1 && prev.Some? && SameSizeAndType(prev.value, h))
  }

  /** No timestamp is sent either: this was asked for, or it is that of the previous packet. */
  predicate TimestampOmitted(prev: Option<PacketHeader>, h: PacketHeader) {
    h.headerType == 3 || (prev.Some? && SizeOmitted(prev, h) && prev.value.timestamp == h.timestamp)
  }

  /** Which of the four header types goes out. */
  lemma ChosenTypeIs(prev: Option<PacketHeader>, h: PacketHeader)
    requires h.headerType <= 3
    ensures ChosenType(prev, h)
            == if h.headerType == 0 then 0
               else if TimestampOmitted(prev, h) then 3
               else if SizeOmitted(prev, h) then 2 else 1
  {}

  function Field24(n: nat): seq<byte> {
    [n / 0x1_0000 % 0x100, n / 0x100 % 0x100, n % 0x100]
  }

  /**
   The header byte by byte (RTMP 1.0, section 5.3.1): the type above the channel, the timestamp or its
   difference, size and type, the stream id with its low byte first, and a large timestamp behind.
   */
  lemma HeaderBytesAre(prev: Option<PacketHeader>, h: PacketHeader)
    requires h.channel <= 65599 && h.headerType <= 3 && h.bodySize < TWO_24
    ensures var kind := ChosenType(prev, h);
      var t := TimestampField(prev, h);
      var basic :=
        if h.channel < 64 then [kind * 64 + h.channel]
        else if h.channel < 320 then [kind * 64, h.channel - 64]
        else [kind * 64 + 1, (h.channel - 64) % 0x100, (h.channel - 64) / 0x100];
      FullHeader(prev, h)
      == basic
         + ((if kind == 3 then [] else if t > 0xff_ffff then [0xff, 0xff, 0xff] else Field24(t))
            + (if kind >= 2 then [] else Field24(h.bodySize) + [h.packetType])
            + (if kind == 0 then EncodeInt32LE(h.info) else [])
            + (if kind < 3 && t >= 0xff_ffff
               then [t / 0x100_0000, t / 0x1_0000 % 0x100, t / 0x100 % 0x100, t % 0x100] else []))
  {
    hide ChosenType, TimestampField, EncodeInt32LE, TimestampOmitted, SizeOmitted;
    ChosenTypeIs(prev, h);
  }

  /** How long a header is: by the channel, by what is left out, and by how large the timestamp field is. */
  lemma HeaderLength(prev: Option<PacketHeader>, h: PacketHeader)
    requires h.channel <= 65599 && h.headerType <= 3
    ensures var full := prev.None? || h.headerType == 0;
      var t := if full then h.timestamp else (h.timestamp - prev.value.timestamp) % 0x1_0000_0000;
      |FullHeader(prev, h)|
      == (if h.channel < 64 then 1 else if h.channel < 320 then 2 else 3)
         + (if h.headerType == 0 then 11
            else if TimestampOmitted(prev, h) then 0
            else if SizeOmitted(prev, h) then 3 else 7)
         + (if t >= 0xff_ffff && !TimestampOmitted(prev, h) then 4 else 0)
  {
    ChosenTypeIs(prev, h);
    hide ChosenType, TimestampOmitted, SizeOmitted;
  }

  /** The bytes one RTMP_SendPacket call puts on the wire. */
  function WireBytes(st: SenderState, m: Message): seq<byte>
    requires Sendable(st, m)
  {
    FullHeader(st.Prev(m.channel), m.Header()) + Chunks(m.body, st.chunkSize, BasicHeader(MINIMUM, m.channel))
  }

  /** The packet becomes the channel's previous packet, with the header type that was chosen. */
  function AfterSend(st: SenderState, m: Message): SenderState
    requires Sendable(st, m)
  {
    var h := m.Header();
    st.(prev := st.prev[m.channel := h.(headerType := ChosenType(st.Prev(m.channel), h))])
  }

  /** What is kept of a packet: all of its header, with the type that went out. */
  lemma StoredHeader(st: SenderState, m: Message)
    requires Sendable(st, m)
    ensures var h, prev := m.Header(), st.Prev(m.channel);
      var headerType :=
        if m.headerType == 0 then 0 else if TimestampOmitted(prev, h) then 3 else if SizeOmitted(prev, h) then 2 else 1;
      AfterSend(st, m)
      == SenderState(st.chunkSize, st.prev[m.channel :=
           PacketHeader(headerType, m.packetType, m.channel, m.timestamp, m.info, |m.body|)])
  {
    ChosenTypeIs(st.Prev(m.channel), m.Header());
    hide ChosenType, TimestampOmitted, SizeOmitted;
  }

  /** The longest header, which is as long as the headroom in front of a body: three bytes, all fields, four more. */
  lemma LongestHeader(prev: Option<PacketHeader>, h: PacketHeader)
    requires h.channel <= 65599 && h.headerType <= 3
    ensures |FullHeader(prev, h)| <= 18 == MAX_HEADER_SIZE
    ensures h.headerType == 0 && h.channel >= 320 && h.timestamp >= 0xff_ffff ==> |FullHeader(prev, h)| == 18
  {
    HeaderLength(prev, h);
    hide FullHeader, TimestampOmitted, SizeOmitted;
  }

  /** Number of chunks of an n-byte body: (n + k - 1) / k, and 1 for an empty body. */
  function NumChunks(n: nat, k: int): (c: nat)
    requires k > 0
    ensures c >= 1
    decreases n
  {
    if n <= k then 1 else 1 + NumChunks(n - k, k)
  }

  lemma MultipleBelow(d: int, k: int)
    requires k > 0 && -k < d * k < k
    ensures d == 0
  {}

  lemma QuotientIsUnique(x: int, k: int, q: int, r: int)
    requires k > 0 && 0 <= r < k && x == q * k + r
    ensures x / k == q
  {
    var d := x / k - q;
    assert d * k == x / k * k - q * k == r - x % k;
    MultipleBelow(d, k);
  }

  lemma {:induction false} NumChunksIsCeiling(n: nat, k: int)
    requires k > 0 && n > 0
    ensures NumChunks(n, k) == (n + k - 1) / k
    decreases n
  {
    if n <= k {
      QuotientIsUnique(n + k - 1, k, 1, n - 1);
    } else {
      NumChunksIsCeiling(n - k, k);
      var c := NumChunks(n - k, k);
      assert n - 1 == c * k + (n - 1) % k;
      QuotientIsUnique(n + k - 1, k, c + 1, (n - 1) % k);
    }
  }

  /** Cutting adds one continuation header per chunk after the first. */
  lemma {:induction false} ChunksLength(body: seq<byte>, k: int, continuation: seq<byte>)
    requires k > 0
    ensures |Chunks(body, k, continuation)| == |body| + (NumChunks(|body|, k) - 1) * |continuation|
    decreases |body|
  {
    if |body| > k {
      ChunksLength(body[k..], k, continuation);
    }
  }
}
