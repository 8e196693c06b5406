/**
 RTMP_ReadPacket (librtmp/rtmp.c:2930-3090): one chunk per call, rebuilt into messages
 from the partial packet and the clock that are kept per channel.
 */
module ChunkReader {
  import opened Wrappers
  import opened Bytes
  import opened ChunkFormat

  /** RTMPPacket on the receiving side; `body` holds the `bytesRead` bytes received so far, None is a null pointer. */
  datatype InPacket = InPacket(
    headerType: nat,
    packetType: byte,
    hasAbsTimestamp: bool,
    channel: nat,
    timestamp: uint32,
    info: int32,
    bodySize: nat,
    bytesRead: nat,
    body: Option<seq<byte>>)
  {
    predicate IsReady() {
      bytesRead == bodySize
    }

    function Payload(): seq<byte> {
      if body.None? then [] else body.value
    }
  }

  const ZERO_PACKET := InPacket(0, 0, false, 0, 0, 0, 0, 0, None)

  /** m_inChunkSize, m_vecChannelsIn and m_channelTimestamp (zero where nothing was stored). */
  datatype ReaderState = ReaderState(chunkSize: int, stored: map<nat, InPacket>, clock: map<nat, uint32>)
  {
    function Clock(channel: nat): uint32 {
      if channel in clock then clock[channel] else 0
    }
  }

  datatype Basic = Basic(headerType: nat, channel: nat, length: nat)

  /** The first one to three bytes of a chunk. */
  function ParseBasic(input: seq<byte>): (r: Option<Basic>)
    ensures r.Some? ==> r.value.headerType <= 3 && 1 <= r.value.length <= 3 && r.value.length <= |input|
  {
    if |input| < 1 then None
    else
      var headerType, low := input[0] / 64, input[0] % 64;
      if low == 0 then
        if |input| < 2 then None else Some(Basic(headerType, input[1] as int + 64, 2))
      else if low == 1 then
        if |input| < 3 then None else Some(Basic(headerType, input[2] as int * 0x100 + input[1] + 64, 3))
      else
        Some(Basic(headerType, low, 1))
  }

  datatype Header = Header(packet: InPacket, length: nat)

  /** The header fields behind the basic header; short header types keep the fields of `start`. */
  function ParseFields(headerType: nat, start: InPacket, h: seq<byte>): (r: Option<Header>)
    requires headerType <= 3
    ensures r.Some? ==> r.value.length <= |h|
  {
    var n := PacketSize(headerType) - 1;
    if |h| < n then None
    else if n < 3 then Some(Header(start, n))
    else
      var p := start.(timestamp := DecodeInt24(h));
      var p := if n < 6 then p
               else p.(bodySize := DecodeInt24(h[3..]), bytesRead := 0, body := None, packetType := h[6]);
      var p := if n == 11 then p.(info := DecodeInt32LE(h[7..])) else p;
      if p.timestamp != 0xff_ffff then Some(Header(p, n))
      else if |h| < n + 4 then None
      else Some(Header(p.(timestamp := DecodeInt32(h[n..])), n + 4))
  }

  /** Where the packet of a chunk starts from: afresh with a LARGE header, else from the channel's stored packet. */
  function StartPacket(st: ReaderState, carry: InPacket, b: Basic): InPacket {
    if b.headerType == LARGE then carry.(headerType := LARGE, channel := b.channel, hasAbsTimestamp := true)
    else if b.channel in st.stored then st.stored[b.channel]
    else carry.(headerType := b.headerType, channel := b.channel)
  }

  /** RTMPPacket_Alloc for a packet that has a body but no block yet; the payload is read into the result. */
  function Opened(headerType: nat, p: InPacket): InPacket {
    if p.bodySize > 0 && p.body.None? then p.(body := Some([]), bytesRead := 0, headerType := headerType) else p
  }

  function ParseHeader(st: ReaderState, carry: InPacket, input: seq<byte>): (r: Option<Header>)
    ensures r.Some? ==> 1 <= r.value.length <= |input|
  {
    var b :- ParseBasic(input);
    var h :- ParseFields(b.headerType, StartPacket(st, carry, b), input[b.length..]);
    Some(Header(Opened(b.headerType, h.packet), b.length + h.length))
  }

  datatype Chunk = Chunk(state: ReaderState, packet: InPacket, rest: seq<byte>)

  /** The packet is kept for its channel; a complete one gets its absolute timestamp and leaves its header behind. */
  function Keep(st: ReaderState, p: InPacket): (ReaderState, InPacket) {
    if p.IsReady() then
      var t := if p.hasAbsTimestamp then p.timestamp else Wrap(p.timestamp + st.Clock(p.channel));
      (st.(stored := st.stored[p.channel := p.(body := None, bytesRead := 0, hasAbsTimestamp := false)],
           clock := st.clock[p.channel := t]),
       p.(timestamp := t))
    else
      (st.(stored := st.stored[p.channel := p]), p.(body := None))
  }

  /** How much of the body the next chunk carries: at most one chunk, at most what is missing. */
  function PieceLength(chunkSize: int, bodySize: nat, bytesRead: nat): int {
    if bodySize - bytesRead < chunkSize then bodySize - bytesRead else chunkSize
  }

  function Take(p: InPacket, piece: seq<byte>): InPacket {
    p.(bytesRead := p.bytesRead + |piece|, body := if p.body.None? then None else Some(p.body.value + piece))
  }

  function ReadPayload(st: ReaderState, p: InPacket, input: seq<byte>): (r: Option<Chunk>)
    ensures r.Some? ==> |r.value.rest| <= |input|
  {
    var n := PieceLength(st.chunkSize, p.bodySize, p.bytesRead);
    if n < 0 || n > |input| then None
    else
      var (st', q) := Keep(st, Take(p, input[..n]));
      Some(Chunk(st', q, input[n..]))
  }

  /** One RTMP_ReadPacket call; None when the input ends first. */
  function ReadChunk(st: ReaderState, carry: InPacket, input: seq<byte>): (r: Option<Chunk>)
    ensures r.Some? ==> |r.value.rest| < |input|
  {
    var h :- ParseHeader(st, carry, input);
    ReadPayload(st, h.packet, input[h.length..])
  }

  /** Calls RTMP_ReadPacket until a packet is complete, as readPacketThread and RTMP_GetNextMediaPacket do. */
  function ReadMessage(st: ReaderState, carry: InPacket, input: seq<byte>): (r: Option<Chunk>)
    ensures r.Some? ==> r.value.packet.IsReady() && |r.value.rest| < |input|
    decreases |input|
  {
    var c :- ReadChunk(st, carry, input);
    if c.packet.IsReady() then Some(c) else ReadMessage(c.state, c.packet, c.rest)
  }

  /** HandleChangeChunkSize, which the reader's caller runs on every complete packet of type 1. */
  function ServeChunkSize(r: ReaderState, p: InPacket): ReaderState {
    if p.packetType == 1 && p.bodySize >= 4 && |p.Payload()| >= 4
    then r.(chunkSize := AsInt32(DecodeInt32(p.Payload()))) else r
  }
}
