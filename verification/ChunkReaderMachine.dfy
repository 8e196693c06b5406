/**
 RTMP_ReadPacket over real memory: bodies are heap blocks with headroom, shared between the
 packet kept for the channel and the packet handed to the caller (librtmp/rtmp.c:2930-3090).
 */
module ChunkReaderMachine {
  import opened Wrappers
  import opened Bytes
  import opened ChunkFormat
  import opened ChunkReader
  import opened SocketBuffer

  /** RTMPPacket with its body pointer. */
  datatype RawPacket = RawPacket(
    headerType: nat,
    packetType: byte,
    hasAbsTimestamp: bool,
    channel: nat,
    timestamp: uint32,
    info: int32,
    bodySize: nat,
    bytesRead: nat,
    body: array?<byte>)

  /** A body block has its headroom and room for the whole body. */
  predicate Sized(p: RawPacket) {
    p.body != null ==> p.body.Length == MAX_HEADER_SIZE + p.bodySize && p.bytesRead <= p.bodySize
  }

  /** The packet with the bytes received so far. */
  function Abs(p: RawPacket): InPacket
    requires Sized(p)
    reads p.body
  {
    InPacket(p.headerType, p.packetType, p.hasAbsTimestamp, p.channel, p.timestamp, p.info, p.bodySize, p.bytesRead,
             if p.body == null then None else Some(p.body[MAX_HEADER_SIZE..MAX_HEADER_SIZE + p.bytesRead]))
  }

  method ReadBasic(sb: SockBuf, hbuf: array<byte>) returns (ok: bool, b: Basic)
    requires sb.Valid() && hbuf != sb.buf && hbuf.Length == MAX_HEADER_SIZE
    modifies sb, sb.buf, hbuf
    ensures sb.Valid()
    ensures ok <==> ParseBasic(old(sb.Pending())).Some?
    ensures ok ==> Some(b) == ParseBasic(old(sb.Pending())) && sb.Pending() == old(sb.Pending())[b.length..]
  {
    ghost var input := sb.Pending();
    ok, b := false, Basic(0, 0, 1);
    var got := sb.ReadN(hbuf, 0, 1);
    if got == 0 {
      return;
    }
    assert hbuf[0] == hbuf[0..1][0] == input[0];
    var headerType, channel := hbuf[0] as int / 64, hbuf[0] as int % 64;
    b := Basic(headerType, channel, 1);
    if channel == 0 {
      got := sb.ReadN(hbuf, 1, 1);
      if got != 1 {
        return;
      }
      assert hbuf[1] == hbuf[1..2][0] == input[1];
      b := Basic(headerType, hbuf[1] as int + 64, 2);
    } else if channel == 1 {
      got := sb.ReadN(hbuf, 1, 2);
      if got != 2 {
        return;
      }
      assert hbuf[1] == hbuf[1..3][0] == input[1] && hbuf[2] == hbuf[1..3][1] == input[2];
      b := Basic(headerType, hbuf[2] as int * 0x100 + hbuf[1] + 64, 3);
    }
    ok := true;
  }

  /** RTMPPacket_Alloc: a fresh block, and nothing received yet. */
  method Alloc(p: RawPacket, headerType: nat) returns (q: RawPacket)
    requires Sized(p)
    ensures Sized(q) && (q.body == p.body || fresh(q.body))
    ensures q.bodySize > 0 ==> q.body != null
    ensures Abs(q) == Opened(headerType, Abs(p))
  {
    q := p;
    if p.bodySize > 0 && p.body == null {
      var block := new byte[MAX_HEADER_SIZE + p.bodySize];
      q := p.(body := block, bytesRead := 0, headerType := headerType);
      assert block[MAX_HEADER_SIZE..MAX_HEADER_SIZE + 0] == [];
    }
  }

  /** The fields of a header as they stand in hbuf. */
  function FieldsOf(headerType: nat, start: RawPacket, h: seq<byte>): RawPacket
    requires headerType <= 3 && |h| >= PacketSize(headerType) - 1
  {
    var n := PacketSize(headerType) - 1;
    if n < 3 then start
    else
      var p := start.(timestamp := DecodeInt24(h));
      var p := if n < 6 then p
               else p.(bodySize := DecodeInt24(h[3..]), bytesRead := 0, body := null, packetType := h[6]);
      if n == 11 then p.(info := DecodeInt32LE(h[7..])) else p
  }

  lemma FieldsAgree(headerType: nat, start: RawPacket, input: seq<byte>)
    requires headerType <= 3 && Sized(start) && |input| >= PacketSize(headerType) - 1
    ensures var n := PacketSize(headerType) - 1;
      var p := FieldsOf(headerType, start, input[..n]);
      && Sized(p) && (p.body == null || p.body == start.body)
      && ParseFields(headerType, Abs(start), input)
         == (if n < 3 || p.timestamp != 0xff_ffff then Some(Header(Abs(p), n))
             else if |input| < n + 4 then None
             else Some(Header(Abs(p.(timestamp := DecodeInt32(input[n..]))), n + 4)))
  {
    var n := PacketSize(headerType) - 1;
    var h := input[..n];
    if n >= 3 {
      assert DecodeInt24(h) == DecodeInt24(input);
    }
    if n >= 6 {
      assert DecodeInt24(h[3..]) == DecodeInt24(input[3..]) && h[6] == input[6];
    }
    if n == 11 {
      assert DecodeInt32LE(h[7..]) == DecodeInt32LE(input[7..]);
    }
  }

  method ReadFields(sb: SockBuf, hbuf: array<byte>, at: nat, headerType: nat, start: RawPacket)
    returns (ok: bool, p: RawPacket)
    requires sb.Valid() && hbuf != sb.buf && hbuf.Length == MAX_HEADER_SIZE
    requires headerType <= 3 && at <= 3 && Sized(start) && start.body != sb.buf && start.body != hbuf
    modifies sb, sb.buf, hbuf
    ensures sb.Valid() && Sized(p) && (p.body == null || p.body == start.body)
    ensures var r := ParseFields(headerType, old(Abs(start)), old(sb.Pending()));
      && (ok <==> r.Some?)
      && (ok ==> Abs(p) == r.value.packet && sb.Pending() == old(sb.Pending())[r.value.length..])
  {
    ghost var input := sb.Pending();
    var nSize := PacketSize(headerType) - 1;
    ok, p := false, start;
    if nSize > 0 {
      var got := sb.ReadN(hbuf, at, nSize);
      if got != nSize {
        return;
      }
    }
    ghost var h := input[..nSize];
    assert hbuf[at..at + nSize] == h;
    FieldsAgree(headerType, start, input);
    p := FieldsOf(headerType, start, hbuf[at..at + nSize]);
    if nSize >= 3 && p.timestamp == 0xff_ffff {
      var got := sb.ReadN(hbuf, at + nSize, 4);
      if got != 4 {
        return;
      }
      assert DecodeInt32(hbuf[at + nSize..at + nSize + 4]) == DecodeInt32(input[nSize..]);
      p := p.(timestamp := DecodeInt32(hbuf[at + nSize..at + nSize + 4]));
    }
    ok := true;
  }

  class Receiver {
    const sb: SockBuf
    var inChunkSize: int
    var channelsIn: map<nat, RawPacket>
    var channelTimestamp: map<nat, uint32>

    constructor (sb: SockBuf)
      requires sb.Valid()
      ensures this.sb == sb && Valid() && State() == ReaderState(128, map[], map[])
    {
      this.sb := sb;
      inChunkSize := 128;
      channelsIn, channelTimestamp := map[], map[];
    }

    /** The body blocks the channels own. */
    ghost function Bodies(): set<array?<byte>>
      reads this`channelsIn
    {
      set ch | ch in channelsIn :: channelsIn[ch].body
    }

    /** Every channel owns its own body block. */
    ghost predicate Filed()
      reads this`channelsIn
    {
      && (forall ch | ch in channelsIn ::
            Sized(channelsIn[ch]) && channelsIn[ch].channel == ch && channelsIn[ch].body != sb.buf)
      && (forall a, b | a in channelsIn && b in channelsIn && a != b && channelsIn[a].body != null
            :: channelsIn[a].body != channelsIn[b].body)
    }

    ghost predicate Valid()
      reads this, sb
    {
      sb.Valid() && Filed()
    }

    ghost function Stored(): map<nat, InPacket>
      requires Filed()
      reads this`channelsIn, Bodies()
    {
      map ch | ch in channelsIn :: Abs(channelsIn[ch])
    }

    ghost function State(): ReaderState
      requires Filed()
      reads this, Bodies()
    {
      ReaderState(inChunkSize, Stored(), channelTimestamp)
    }

    /** Nobody but the packet's own channel, if anyone, owns its block. */
    ghost predicate Owned(p: RawPacket)
      reads this
    {
      && Sized(p) && p.body != sb.buf
      && (forall ch | ch in channelsIn && ch != p.channel && p.body != null :: channelsIn[ch].body != p.body)
    }

    /** Where the packet of a chunk starts from. */
    function Start(packet: RawPacket, b: Basic): RawPacket
      reads this
    {
      if b.headerType == LARGE then packet.(headerType := LARGE, channel := b.channel, hasAbsTimestamp := true)
      else if b.channel in channelsIn then channelsIn[b.channel]
      else packet.(headerType := b.headerType, channel := b.channel)
    }

    lemma StartAgrees(packet: RawPacket, b: Basic)
      requires Filed() && packet.body == null
      ensures var start := Start(packet, b);
        && Owned(start) && (start.body != null ==> start.body in Bodies())
        && Abs(start) == StartPacket(State(), Abs(packet), b) && start.channel == b.channel
    {}

    method ReadHeader(packet: RawPacket) returns (ok: bool, p: RawPacket)
      requires Valid() && packet.body == null
      modifies sb, sb.buf
      ensures Valid() && State() == old(State())
      ensures ok <==> ParseHeader(old(State()), old(Abs(packet)), old(sb.Pending())).Some?
      ensures ok ==>
        var r := ParseHeader(old(State()), old(Abs(packet)), old(sb.Pending())).value;
        && Owned(p) && (p.bodySize > 0 ==> p.body != null)
        && Abs(p) == r.packet && sb.Pending() == old(sb.Pending())[r.length..]
        && (p.body != null ==> fresh(p.body) || p.body in Bodies())
    {
      hide ParseHeader, ParseFields, ParseBasic, Opened, StartPacket, Start;
      ghost var st, carry, input := State(), Abs(packet), sb.Pending();
      var hbuf := new byte[MAX_HEADER_SIZE];
      var b;
      p := packet;
      assert sb.buf !in Bodies() && hbuf !in Bodies();
      ok, b := ReadBasic(sb, hbuf);
      HeaderAssembles(st, carry, input);
      if ok {
        var start := Start(packet, b);
        assert State() == st && Abs(packet) == carry;
        StartAgrees(packet, b);
        ghost var fields := ParseFields(b.headerType, StartPacket(st, carry, b), input[b.length..]);
        ok, p := ReadRest(sb, hbuf, b, start);
        assert ok <==> fields.Some?;
        assert ok ==> Abs(p) == Opened(b.headerType, fields.value.packet);
        assert ok ==> sb.Pending() == input[b.length..][fields.value.length..];
        assert State() == st;
      }
    }

    /** Reads the next piece of the body into the packet's block. */
    method ReadBody(p: RawPacket) returns (ok: bool, q: RawPacket)
      requires Valid() && Owned(p) && (p.bodySize > 0 ==> p.body != null)
      modifies sb, sb.buf, p.body
      ensures Valid() && Owned(q) && q.channel == p.channel && q.body == p.body
      ensures var n := PieceLength(inChunkSize, p.bodySize, p.bytesRead);
        && (ok <==> 0 <= n <= |old(sb.Pending())|)
        && (ok ==> Abs(q) == Take(old(Abs(p)), old(sb.Pending())[..n]) && sb.Pending() == old(sb.Pending())[n..])
      ensures forall ch | ch in channelsIn && ch != p.channel :: Abs(channelsIn[ch]) == old(Abs(channelsIn[ch]))
    {
      var nChunk := PieceLength(inChunkSize, p.bodySize, p.bytesRead);
      var got := 0;
      q := p;
      ghost var before, input := Abs(p), sb.Pending();
      if nChunk > 0 {
        got := sb.ReadN(p.body, MAX_HEADER_SIZE + p.bytesRead, nChunk);
      }
      ok := got == nChunk;
      if ok {
        q := p.(bytesRead := p.bytesRead + nChunk);
        Extended(p, q, before, input[..nChunk]);
      }
    }

    /** The received bytes, old and new, lie next to each other in the block. */
    lemma Extended(p: RawPacket, q: RawPacket, before: InPacket, piece: seq<byte>)
      requires Sized(p) && Sized(q) && q == p.(bytesRead := p.bytesRead + |piece|)
      requires p.body == null ==> before == Abs(p)
      requires p.body != null ==>
        && before == Abs(p).(body := before.body) && before.body.Some? && |before.body.value| == p.bytesRead
        && p.body[MAX_HEADER_SIZE..MAX_HEADER_SIZE + p.bytesRead] == before.body.value
        && p.body[MAX_HEADER_SIZE + p.bytesRead..MAX_HEADER_SIZE + q.bytesRead] == piece
      ensures Abs(q) == Take(before, piece)
    {
      if p.body != null {
        assert p.body[MAX_HEADER_SIZE..MAX_HEADER_SIZE + q.bytesRead] == before.body.value + piece;
      }
    }

    /** Files the packet under its channel; a complete one is handed to the caller together with its block. */
    method File(p: RawPacket) returns (q: RawPacket)
      requires Filed() && Owned(p)
      modifies this`channelsIn, this`channelTimestamp
      ensures Filed() && Sized(q) && (State(), Abs(q)) == Keep(old(State()), Abs(p))
      ensures q.body == (if q.bytesRead == q.bodySize then p.body else null)
      ensures q.body != null ==> q.body !in Bodies()
      ensures forall o | o in Bodies() && o != null :: o in old(Bodies()) || o == p.body
    {
      ghost var st, before := State(), Abs(p);
      q := p;
      var kept := p;
      if p.bytesRead == p.bodySize {
        if !p.hasAbsTimestamp {
          var clock := if p.channel in channelTimestamp then channelTimestamp[p.channel] else 0;
          q := q.(timestamp := Wrap(p.timestamp + clock));
        }
        channelTimestamp := channelTimestamp[p.channel := q.timestamp];
        kept := p.(body := null, bytesRead := 0, hasAbsTimestamp := false);
      } else {
        q := p.(body := null);
      }
      KeptPacket(st, p, kept, q);
      hide Keep, Filed;
      assert Stored() == st.stored;
      Put(kept);
      assert Abs(q) == Keep(st, before).1;
    }

    method Put(kept: RawPacket)
      requires Filed() && Owned(kept)
      modifies this`channelsIn
      ensures Filed() && channelsIn == old(channelsIn)[kept.channel := kept]
      ensures Stored() == old(Stored())[kept.channel := Abs(kept)]
    {
      channelsIn := channelsIn[kept.channel := kept];
      assert Stored() == old(Stored())[kept.channel := Abs(kept)];
    }

    /** What is kept and what is returned, before any field of the receiver changes. */
    lemma KeptPacket(st: ReaderState, p: RawPacket, kept: RawPacket, q: RawPacket)
      requires Sized(p)
      requires if p.bytesRead == p.bodySize
        then kept == p.(body := null, bytesRead := 0, hasAbsTimestamp := false)
             && q == p.(timestamp := if p.hasAbsTimestamp then p.timestamp else Wrap(p.timestamp + st.Clock(p.channel)))
        else kept == p && q == p.(body := null)
      ensures Keep(st, Abs(p))
        == (ReaderState(st.chunkSize, st.stored[p.channel := Abs(kept)],
                        if p.bytesRead == p.bodySize then st.clock[p.channel := q.timestamp] else st.clock),
            Abs(q))
    {}

    /** One RTMP_ReadPacket call: one chunk in, and the packet out if that completed it. */
    method ReadPacket(packet: RawPacket) returns (ok: bool, q: RawPacket)
      requires Valid() && packet.body == null
      modifies this`channelsIn, this`channelTimestamp, sb, sb.buf, Bodies()
      ensures Valid()
      ensures var r := ReadChunk(old(State()), old(Abs(packet)), old(sb.Pending()));
        && (ok <==> r.Some?)
        && (ok ==> Sized(q) && r == Some(Chunk(State(), Abs(q), sb.Pending())))
      ensures ok ==> (q.body != null ==> q.bytesRead == q.bodySize && q.body !in Bodies())
      ensures forall o | o in Bodies() && o != null :: o in old(Bodies()) || fresh(o)
    {
      hide ParseHeader, Take, Keep;
      ghost var st, carry, input := State(), Abs(packet), sb.Pending();
      var p;
      q := packet;
      ok, p := ReadHeader(packet);
      if ok {
        ghost var r := ParseHeader(st, carry, input).value;
        ok, p := ReadBody(p);
        if ok {
          ghost var now := State();
          q := File(p);
          ghost var n := PieceLength(st.chunkSize, r.packet.bodySize, r.packet.bytesRead);
          KeepOverwrites(st, now, Take(r.packet, input[r.length..][..n]));
        }
      }
    }

    /** Reads chunks until a packet is complete, keeping the caller's packet between calls as readPacketThread does. */
    method ReceiveMessage(packet: RawPacket) returns (ok: bool, q: RawPacket)
      requires Valid() && packet.body == null
      modifies this`channelsIn, this`channelTimestamp, sb, sb.buf, Bodies()
      ensures Valid()
      ensures var r := ReadMessage(old(State()), old(Abs(packet)), old(sb.Pending()));
        && (ok <==> r.Some?)
        && (ok ==> Sized(q) && r == Some(Chunk(State(), Abs(q), sb.Pending())))
      ensures ok && q.body != null ==> q.body !in Bodies()
    {
      hide ReadChunk;
      ghost var goal := ReadMessage(State(), Abs(packet), sb.Pending());
      ok, q := true, packet;
      while true
        invariant Valid() && q.body == null
        invariant ReadMessage(State(), Abs(q), sb.Pending()) == goal
        invariant forall o | o in Bodies() && o != null :: o in old(Bodies()) || fresh(o)
        decreases |sb.Pending()|
      {
        ok, q := ReadPacket(q);
        if !ok || q.bytesRead == q.bodySize {
          return;
        }
      }
    }

    /** HandleChangeChunkSize: the first four body bytes of a complete type-1 packet. */
    method Serve(packet: RawPacket)
      requires Filed() && Sized(packet) && packet.bytesRead == packet.bodySize
      requires packet.bodySize > 0 ==> packet.body != null
      modifies this`inChunkSize
      ensures Filed() && State() == ServeChunkSize(old(State()), Abs(packet))
    {
      if packet.packetType == 1 && packet.bodySize >= 4 {
        inChunkSize := AsInt32(DecodeInt32(packet.body[MAX_HEADER_SIZE..MAX_HEADER_SIZE + packet.bytesRead]));
      }
    }
  }

  /** What the channel held before does not matter to what is kept for it now. */
  lemma KeepOverwrites(st1: ReaderState, st2: ReaderState, p: InPacket)
    requires st1.chunkSize == st2.chunkSize && st1.clock == st2.clock
    requires forall ch | ch != p.channel :: ch in st1.stored <==> ch in st2.stored
    requires forall ch | ch != p.channel && ch in st1.stored :: st1.stored[ch] == st2.stored[ch]
    ensures Keep(st1, p) == Keep(st2, p)
  {
    var kept := if p.IsReady() then p.(body := None, bytesRead := 0, hasAbsTimestamp := false) else p;
    assert st1.stored[p.channel := kept] == st2.stored[p.channel := kept];
  }

  lemma HeaderAssembles(st: ReaderState, carry: InPacket, input: seq<byte>)
    ensures ParseBasic(input).None? ==> ParseHeader(st, carry, input).None?
    ensures ParseBasic(input).Some? ==>
      var b := ParseBasic(input).value;
      var h := ParseFields(b.headerType, StartPacket(st, carry, b), input[b.length..]);
      && ParseHeader(st, carry, input)
         == (if h.None? then None else Some(Header(Opened(b.headerType, h.value.packet), b.length + h.value.length)))
      && (h.Some? ==> input[b.length..][h.value.length..] == input[b.length + h.value.length..])
  {}

  /** The header fields, and a block for the body when one is missing. */
  method ReadRest(sb: SockBuf, hbuf: array<byte>, b: Basic, start: RawPacket) returns (ok: bool, p: RawPacket)
    requires sb.Valid() && hbuf != sb.buf && hbuf.Length == MAX_HEADER_SIZE
    requires b.headerType <= 3 && b.length <= 3 && Sized(start) && start.body != sb.buf && start.body != hbuf
    modifies sb, sb.buf, hbuf
    ensures sb.Valid() && Sized(p) && (p.body == null || p.body == start.body || fresh(p.body))
    ensures var r := ParseFields(b.headerType, old(Abs(start)), old(sb.Pending()));
      && (ok <==> r.Some?)
      && (ok ==>
            && Abs(p) == Opened(b.headerType, r.value.packet) && (p.bodySize > 0 ==> p.body != null)
            && p.channel == start.channel && sb.Pending() == old(sb.Pending())[r.value.length..])
  {
    ok, p := ReadFields(sb, hbuf, b.length, b.headerType, start);
    if ok {
      p := Alloc(p, b.headerType);
    }
  }
}
