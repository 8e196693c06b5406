/**
 The sender and the reader of the chunk stream in lock step: what RTMP_ReadPacket
 rebuilds from the bytes of RTMP_SendPacket, over runs of any length.
 */
module ChunkStream {
  import opened Wrappers
  import opened Bytes
  import opened ChunkFormat
  import opened ChunkReader
  import opened ChunkSender

  // ----- one header -----

  lemma BasicHeaderParses(headerType: nat, channel: nat, rest: seq<byte>)
    requires headerType <= 3 && 2 <= channel <= 65599
    ensures ParseBasic(BasicHeader(headerType, channel) + rest)
            == Some(Basic(headerType, channel, 1 + ChannelBytes(channel)))
  {
    var b := BasicHeader(headerType, channel) + rest;
    assert b[0] == BasicHeader(headerType, channel)[0];
    if channel > 319 {
      assert b[1] == (channel - 64) % 0x100 && b[2] == (channel - 64) / 0x100;
    } else if channel > 63 {
      assert b[1] == channel - 64;
    }
  }

  /** The packet after its header fields have been read. */
  function Refill(headerType: nat, start: InPacket, t: uint32, h: PacketHeader): InPacket {
    var p := if headerType < MINIMUM then start.(timestamp := t) else start;
    var p := if headerType >= SMALL then p
             else p.(bodySize := h.bodySize, bytesRead := 0, body := None, packetType := h.packetType);
    if headerType == LARGE then p.(info := h.info) else p
  }

  function ShortTimestamp(t: uint32): uint32 {
    if t > 0xff_ffff then 0xff_ffff else t
  }

  lemma TimestampParses(t: uint32, rest: seq<byte>)
    ensures DecodeInt24(EncodeInt24(ShortTimestamp(t)) + rest) == ShortTimestamp(t)
  {
    DecodeEncodeInt24(ShortTimestamp(t), rest);
  }

  lemma SizeAndTypeParse(h: PacketHeader, rest: seq<byte>)
    requires h.bodySize < TWO_24
    ensures var m := EncodeInt24(h.bodySize) + [h.packetType] + rest;
      DecodeInt24(m) == h.bodySize && m[3] == h.packetType
  {
    DecodeEncodeInt24(h.bodySize, [h.packetType] + rest);
    assert EncodeInt24(h.bodySize) + [h.packetType] + rest == EncodeInt24(h.bodySize) + ([h.packetType] + rest);
  }

  lemma Pieces(a: seq<byte>, b: seq<byte>, c: seq<byte>, d: seq<byte>, rest: seq<byte>)
    ensures var m := (a + b + c + d) + rest;
      && m == a + (b + c + d + rest)
      && m[|a|..] == b + (c + d + rest)
      && m[|a| + |b|..] == c + (d + rest)
      && m[|a| + |b| + |c|..] == d + rest
  {}

  lemma FieldsParse(headerType: nat, start: InPacket, t: uint32, h: PacketHeader, rest: seq<byte>)
    requires headerType <= 3 && h.bodySize < TWO_24
    ensures ParseFields(headerType, start, MessageHeader(headerType, t, h) + rest)
         == Some(Header(Refill(headerType, start, t, h), |MessageHeader(headerType, t, h)|))
  {
    hide DecodeInt24, DecodeInt32, DecodeInt32LE, EncodeInt24, EncodeInt32, EncodeInt32LE;
    if headerType < MINIMUM {
      var stamp := EncodeInt24(ShortTimestamp(t));
      var size := if headerType < SMALL then EncodeInt24(h.bodySize) + [h.packetType] else [];
      var info := if headerType == LARGE then EncodeInt32LE(h.info) else [];
      var ext := if Extended(headerType, t) then EncodeInt32(t) else [];
      Pieces(stamp, size, info, ext, rest);
      TimestampParses(t, size + info + ext + rest);
      if headerType < SMALL {
        SizeAndTypeParse(h, info + ext + rest);
      }
      if headerType == LARGE {
        DecodeEncodeInt32LE(h.info, ext + rest);
      }
      if Extended(headerType, t) {
        DecodeEncodeInt32(t, rest);
      }
    }
  }

  lemma HeaderParses(st: ReaderState, carry: InPacket, headerType: nat, t: uint32, h: PacketHeader, rest: seq<byte>)
    requires headerType <= 3 && 2 <= h.channel <= 65599 && h.bodySize < TWO_24
    ensures var header := BasicHeader(headerType, h.channel) + MessageHeader(headerType, t, h);
      var start := StartPacket(st, carry, Basic(headerType, h.channel, 1 + ChannelBytes(h.channel)));
      && ParseHeader(st, carry, header + rest)
         == Some(Header(Opened(headerType, Refill(headerType, start, t, h)), |header|))
      && (header + rest)[|header|..] == rest
  {
    var basic := BasicHeader(headerType, h.channel);
    var fields := MessageHeader(headerType, t, h);
    BasicHeaderParses(headerType, h.channel, fields + rest);
    FieldsParse(headerType, StartPacket(st, carry, Basic(headerType, h.channel, |basic|)), t, h, rest);
    assert (basic + fields) + rest == basic + (fields + rest);
    assert (basic + (fields + rest))[|basic|..] == fields + rest;
  }

  /**
   A chunk without fields, on channels below 64: it goes on with the body under way on its channel; it
   starts another message like the last one there; on a channel not seen before, one like the
   caller's last packet.
   */
  lemma FieldlessChunk(st: ReaderState, carry: InPacket, channel: nat, rest: seq<byte>)
    requires 2 <= channel < 64
    ensures var start :=
        if channel in st.stored then st.stored[channel] else carry.(headerType := 3, channel := channel);
      ParseHeader(st, carry, [0xC0 + channel] + rest)
      == Some(Header(if start.bodySize == 0 || start.body.Some? then start
                     else start.(body := Some([]), bytesRead := 0, headerType := 3), 1))
  {
    assert ([0xC0 + channel] + rest)[1..] == rest;
  }

  // ----- one body -----

  /** A packet in the middle of its body: the next `|rem|` bytes complete it. */
  predicate Awaiting(p: InPacket, rem: seq<byte>) {
    && p.bytesRead + |rem| == p.bodySize
    && (p.bodySize > 0 ==> p.body.Some? && |p.body.value| == p.bytesRead)
    && (p.bodySize == 0 ==> p.body.None?)
  }

  function Completed(p: InPacket, rem: seq<byte>): InPacket {
    p.(bytesRead := p.bodySize, body := if p.body.None? then None else Some(p.body.value + rem))
  }

  /** Reading on until the packet is complete. */
  function Finish(st: ReaderState, p: InPacket, input: seq<byte>): Option<Chunk> {
    var c :- ReadPayload(st, p, input);
    if c.packet.IsReady() then Some(c) else ReadMessage(c.state, c.packet, c.rest)
  }

  /** A continuation chunk reopens exactly the packet that was stored. */
  lemma ContinuationParses(st: ReaderState, carry: InPacket, p: InPacket, rest: seq<byte>)
    requires 2 <= p.channel <= 65599 && p.channel in st.stored && st.stored[p.channel] == p && p.body.Some?
    ensures var c := BasicHeader(MINIMUM, p.channel);
      ParseHeader(st, carry, c + rest) == Some(Header(p, |c|)) && (c + rest)[|c|..] == rest
  {
    var h := PacketHeader(MINIMUM, 0, p.channel, 0, 0, 0);
    HeaderParses(st, carry, MINIMUM, 0, h, rest);
    assert BasicHeader(MINIMUM, p.channel) + MessageHeader(MINIMUM, 0, h) == BasicHeader(MINIMUM, p.channel);
  }

  function Advanced(p: InPacket, piece: seq<byte>): InPacket
    requires p.body.Some?
  {
    p.(bytesRead := p.bytesRead + |piece|, body := Some(p.body.value + piece))
  }

  /** A full chunk that leaves the packet incomplete. */
  lemma MiddleChunk(st: ReaderState, p: InPacket, piece: seq<byte>, rest: seq<byte>)
    requires |piece| == st.chunkSize > 0 && p.body.Some? && p.bytesRead + |piece| < p.bodySize
    ensures var (st', q) := Keep(st, Advanced(p, piece));
      && ReadPayload(st, p, piece + rest) == Some(Chunk(st', q, rest)) && !q.IsReady()
      && p.channel in st'.stored && st'.stored[p.channel] == Advanced(p, piece) && st'.chunkSize == st.chunkSize
  {
    assert (piece + rest)[..|piece|] == piece && (piece + rest)[|piece|..] == rest;
  }

  lemma LastChunk(st: ReaderState, p: InPacket, rem: seq<byte>, tail: seq<byte>)
    requires |rem| <= st.chunkSize && Awaiting(p, rem)
    ensures var (st', q) := Keep(st, Completed(p, rem));
      Finish(st, p, rem + tail) == Some(Chunk(st', q, tail))
  {
    assert (rem + tail)[..|rem|] == rem && (rem + tail)[|rem|..] == tail;
  }

  lemma ReadsOn(st: ReaderState, carry: InPacket, p: InPacket, next: seq<byte>)
    requires 2 <= p.channel <= 65599 && p.channel in st.stored && st.stored[p.channel] == p && p.body.Some?
    ensures ReadMessage(st, carry, BasicHeader(MINIMUM, p.channel) + next) == Finish(st, p, next)
  {
    ContinuationParses(st, carry, p, next);
  }

  lemma CutOnce(rem: seq<byte>, k: int, c: seq<byte>, tail: seq<byte>)
    requires 0 < k < |rem|
    ensures Chunks(rem, k, c) + tail == rem[..k] + (c + (Chunks(rem[k..], k, c) + tail))
  {}

  lemma CutLast(rem: seq<byte>, k: int, c: seq<byte>)
    requires |rem| <= k && k > 0
    ensures Chunks(rem, k, c) == rem
  {}

  /** Reading one full chunk of a longer remainder. */
  lemma FinishSteps(st: ReaderState, p: InPacket, rem: seq<byte>, tail: seq<byte>)
    requires 0 < st.chunkSize < |rem| && 2 <= p.channel <= 65599 && Awaiting(p, rem)
    ensures var c, k := BasicHeader(MINIMUM, p.channel), st.chunkSize;
      var p' := Advanced(p, rem[..k]);
      var st' := Keep(st, p').0;
      && st'.chunkSize == k && !p'.IsReady() && p'.channel == p.channel && Awaiting(p', rem[k..])
      && Finish(st, p, Chunks(rem, k, c) + tail) == Finish(st', p', Chunks(rem[k..], k, c) + tail)
  {
    var c, k := BasicHeader(MINIMUM, p.channel), st.chunkSize;
    var next := Chunks(rem[k..], k, c) + tail;
    CutOnce(rem, k, c, tail);
    MiddleChunk(st, p, rem[..k], c + next);
    var p' := Advanced(p, rem[..k]);
    ReadsOn(Keep(st, p').0, Keep(st, p').1, p', next);
  }

  /** A cut body is put together again, whatever the other channels hold. */
  lemma {:induction false} BodyRoundTrip(st: ReaderState, p: InPacket, rem: seq<byte>, tail: seq<byte>)
    requires st.chunkSize > 0 && 2 <= p.channel <= 65599 && Awaiting(p, rem)
    ensures var (st', q) := Keep(st, Completed(p, rem));
      Finish(st, p, Chunks(rem, st.chunkSize, BasicHeader(MINIMUM, p.channel)) + tail) == Some(Chunk(st', q, tail))
    decreases |rem|
  {
    hide Finish, Keep, Chunks;
    var k := st.chunkSize;
    if |rem| <= k {
      CutLast(rem, k, BasicHeader(MINIMUM, p.channel));
      LastChunk(st, p, rem, tail);
    } else {
      FinishSteps(st, p, rem, tail);
      var p' := Advanced(p, rem[..k]);
      BodyRoundTrip(Keep(st, p').0, p', rem[k..], tail);
      CompletedInSteps(p, rem[..k], rem[k..], rem);
      OverwriteStored(st, p', Completed(p, rem));
    }
  }

  lemma CompletedInSteps(p: InPacket, piece: seq<byte>, rem': seq<byte>, rem: seq<byte>)
    requires p.body.Some? && rem == piece + rem'
    ensures Completed(Advanced(p, piece), rem') == Completed(p, rem)
  {
    assert p.body.value + piece + rem' == p.body.value + rem;
  }

  /** What was stored for the channel on the way does not matter once the packet is complete. */
  lemma OverwriteStored(st: ReaderState, p1: InPacket, p: InPacket)
    requires p1.channel == p.channel && !p1.IsReady() && p.IsReady()
    ensures Keep(Keep(st, p1).0, p) == Keep(st, p)
  {
    var st1 := Keep(st, p1).0;
    assert st1.clock == st.clock;
    var r := p.(body := None, bytesRead := 0, hasAbsTimestamp := false);
    assert st1.stored[p.channel := r] == st.stored[p.channel := r];
  }

  // ----- one message -----

  /** What the reader's side of a channel amounts to: last timestamp field read, clock, stream id. */
  datatype Ledger = Ledger(field: uint32, clock: uint32, info: int32)

  /** The ledgers of all channels, and the stream id left in the caller's packet. */
  datatype Book = Book(ledgers: map<nat, Ledger>, lastInfo: int32)
  {
    function At(channel: nat): Option<Ledger> {
      if channel in ledgers then Some(ledgers[channel]) else None
    }
  }

  /** What a receiver makes of a message, knowing only what was sent before it. */
  function Entry(book: Book, prev: Option<PacketHeader>, h: PacketHeader): Ledger {
    var headerType, t := ChosenType(prev, h), TimestampField(prev, h);
    match book.At(h.channel)
    case None =>
      Ledger(t, t, if headerType == LARGE then h.info else book.lastInfo)
    case Some(l) =>
      if headerType == LARGE then Ledger(t, t, h.info)
      else
        var field := if headerType == MINIMUM then l.field else t;
        Ledger(field, Wrap(field + l.clock), l.info)
  }

  function Post(book: Book, l: Ledger, channel: nat): Book {
    Book(book.ledgers[channel := l], l.info)
  }

  datatype Delivery = Delivery(channel: nat, packetType: byte, timestamp: uint32, info: int32, body: seq<byte>)

  function Delivered(l: Ledger, m: Message): Delivery {
    Delivery(m.channel, m.packetType, l.clock, l.info, m.body)
  }

  function DeliveryOf(p: InPacket): Delivery {
    Delivery(p.channel, p.packetType, p.timestamp, p.info, p.Payload())
  }

  /** A header type that leaves fields out is used only when the channel's previous packet has them. */
  predicate WellFormed(s: SenderState, m: Message) {
    && Sendable(s, m) && 2 <= m.channel && |m.body| < TWO_24
    && (ChosenType(s.Prev(m.channel), m.Header()) >= SMALL ==>
          && m.channel in s.prev
          && s.prev[m.channel].bodySize == |m.body| && s.prev[m.channel].packetType == m.packetType)
  }

  predicate InStep(channel: nat, h: PacketHeader, l: Ledger, r: ReaderState) {
    && channel in r.stored
    && var p := r.stored[channel];
    && p.channel == channel && p.packetType == h.packetType && p.bodySize == h.bodySize
    && p.bytesRead == 0 && p.body.None? && !p.hasAbsTimestamp
    && p.timestamp == l.field && p.info == l.info && r.Clock(channel) == l.clock
  }

  ghost predicate Locked(s: SenderState, book: Book, r: ReaderState, carry: InPacket) {
    && s.chunkSize == r.chunkSize
    && s.prev.Keys == book.ledgers.Keys == r.stored.Keys
    && (forall ch | ch in s.prev :: InStep(ch, s.prev[ch], book.ledgers[ch], r))
    && (forall ch | ch !in s.prev :: r.Clock(ch) == 0)
    && carry.body.None? && carry.info == book.lastInfo
  }

  /** The packet with which the reader starts on the body of a message. */
  function Started(r: ReaderState, carry: InPacket, headerType: nat, t: uint32, h: PacketHeader): InPacket {
    var start := StartPacket(r, carry, Basic(headerType, h.channel, 1 + ChannelBytes(h.channel)));
    Opened(headerType, Refill(headerType, start, t, h))
  }

  /** The packet holds the header of `m`, and its timestamp becomes the ledger's clock. */
  predicate Carries(r: ReaderState, p: InPacket, l: Ledger, m: Message) {
    && p.channel == m.channel && p.packetType == m.packetType && p.bodySize == |m.body|
    && p.timestamp == l.field && p.info == l.info
    && (if p.hasAbsTimestamp then p.timestamp else Wrap(p.timestamp + r.Clock(m.channel))) == l.clock
  }

  lemma StartedFields(s: SenderState, book: Book, r: ReaderState, carry: InPacket, m: Message)
    requires Locked(s, book, r, carry) && WellFormed(s, m)
    ensures var prev, h := s.Prev(m.channel), m.Header();
      var p := Started(r, carry, ChosenType(prev, h), TimestampField(prev, h), h);
      && Awaiting(p, m.body) && Carries(r, p, Entry(book, prev, h), m)
      && Completed(p, m.body).IsReady() && Carries(r, Completed(p, m.body), Entry(book, prev, h), m)
      && Completed(p, m.body).Payload() == m.body
  {
    if m.channel in s.prev {
      assert InStep(m.channel, s.prev[m.channel], book.ledgers[m.channel], r);
    }
    var prev, h := s.Prev(m.channel), m.Header();
    var p := Started(r, carry, ChosenType(prev, h), TimestampField(prev, h), h);
    assert Awaiting(p, m.body) && Carries(r, p, Entry(book, prev, h), m);
    hide *;
    CompletedFields(r, p, Entry(book, prev, h), m);
  }

  lemma CompletedFields(r: ReaderState, p: InPacket, l: Ledger, m: Message)
    requires Awaiting(p, m.body) && Carries(r, p, l, m)
    ensures var q := Completed(p, m.body);
      q.IsReady() && Carries(r, q, l, m) && q.Payload() == m.body
  {
    assert [] + m.body == m.body;
  }

  /** Storing a completed packet keeps the two sides in step and leaves all other channels alone. */
  lemma KeepLocks(s: SenderState, book: Book, r: ReaderState, carry: InPacket, m: Message, l: Ledger, p: InPacket)
    requires Locked(s, book, r, carry) && Sendable(s, m) && p.IsReady() && Carries(r, p, l, m)
    ensures var (r', q) := Keep(r, p);
      && Locked(AfterSend(s, m), Post(book, l, m.channel), r', q.(body := None))
      && DeliveryOf(q) == Delivered(l, m).(body := p.Payload()) && q.bodySize == |m.body|
  {
    var s', book', r' := AfterSend(s, m), Post(book, l, m.channel), Keep(r, p).0;
    forall ch | ch in s'.prev
      ensures InStep(ch, s'.prev[ch], book'.ledgers[ch], r')
    {
      if ch != m.channel {
        assert InStep(ch, s.prev[ch], book.ledgers[ch], r);
      }
    }
  }

  lemma WireParses(s: SenderState, r: ReaderState, carry: InPacket, m: Message, tail: seq<byte>)
    requires Sendable(s, m) && 2 <= m.channel && |m.body| < TWO_24
    ensures var prev, h := s.Prev(m.channel), m.Header();
      ReadMessage(r, carry, WireBytes(s, m) + tail)
      == Finish(r, Started(r, carry, ChosenType(prev, h), TimestampField(prev, h), h),
                Chunks(m.body, s.chunkSize, BasicHeader(MINIMUM, m.channel)) + tail)
  {
    var prev, h := s.Prev(m.channel), m.Header();
    var chunks := Chunks(m.body, s.chunkSize, BasicHeader(MINIMUM, m.channel));
    HeaderParses(r, carry, ChosenType(prev, h), TimestampField(prev, h), h, chunks + tail);
    assert WireBytes(s, m) + tail == FullHeader(prev, h) + (chunks + tail);
  }

  /** One message: the reader rebuilds it from the wire and both sides stay in step. */
  lemma MessageRoundTrip(s: SenderState, book: Book, r: ReaderState, carry: InPacket, m: Message, tail: seq<byte>)
    requires Locked(s, book, r, carry) && WellFormed(s, m)
    ensures var l := Entry(book, s.Prev(m.channel), m.Header());
      var c := ReadMessage(r, carry, WireBytes(s, m) + tail);
      && c.Some? && c.value.rest == tail
      && DeliveryOf(c.value.packet) == Delivered(l, m) && c.value.packet.bodySize == |m.body|
      && Locked(AfterSend(s, m), Post(book, l, m.channel), c.value.state, c.value.packet.(body := None))
  {
    var prev, h := s.Prev(m.channel), m.Header();
    var p := Started(r, carry, ChosenType(prev, h), TimestampField(prev, h), h);
    StartedFields(s, book, r, carry, m);
    WireParses(s, r, carry, m, tail);
    BodyRoundTrip(r, p, m.body, tail);
    KeepLocks(s, book, r, carry, m, Entry(book, prev, h), Completed(p, m.body));
  }

  // ----- runs -----

  /** What an application does to its sender. */
  datatype Op = Send(m: Message) | SetChunkSize(size: int32)

  function Before(s: SenderState, op: Op): SenderState {
    match op
    case Send(_) => s
    case SetChunkSize(k) => s.(chunkSize := k)
  }

  function MessageOf(op: Op): Message {
    match op
    case Send(m) => m
    case SetChunkSize(k) => Announcement(k)
  }

  /** Chunk sizes below 4 would cut the announcement itself; other type-1 messages must not contradict the sender. */
  predicate Allowed(s: SenderState, op: Op) {
    match op
    case Send(m) =>
      && WellFormed(s, m)
      && (m.packetType == 1 && |m.body| >= 4 ==> AsInt32(DecodeInt32(m.body)) == s.chunkSize)
    case SetChunkSize(k) => s.chunkSize >= 4 && k >= 4
  }

  /** The announcement fits one chunk, so it does not matter which of the two chunk sizes it is read with. */
  lemma AnnouncementKeepsSync(s: SenderState, k: int32)
    requires s.chunkSize >= 4 && k >= 4
    ensures var m := Announcement(k);
      && WellFormed(s, m) && WireBytes(s, m) == WireBytes(s.(chunkSize := k), m)
      && AfterSend(s, m).(chunkSize := k) == AfterSend(s.(chunkSize := k), m)
      && AsInt32(DecodeInt32(m.body)) == k
  {
    DecodeEncodeInt32(k, []);
    assert EncodeInt32(k) + [] == EncodeInt32(k);
  }

  /** Serving a packet changes at most the chunk size, and to the sender's. */
  lemma ServeLocks(s: SenderState, book: Book, r: ReaderState, p: InPacket, op: Op)
    requires Allowed(s, op)
    requires Locked(AfterSend(s, MessageOf(op)), book, r, p.(body := None))
    requires p.packetType == MessageOf(op).packetType
    requires p.Payload() == MessageOf(op).body && p.bodySize == |p.Payload()|
    ensures Locked(AfterSend(Before(s, op), MessageOf(op)), book, ServeChunkSize(r, p), p.(body := None))
  {
    var s1, r' := AfterSend(s, MessageOf(op)), ServeChunkSize(r, p);
    if op.SetChunkSize? {
      AnnouncementKeepsSync(s, op.size);
    }
    forall ch | ch in s1.prev
      ensures InStep(ch, s1.prev[ch], book.ledgers[ch], r')
    {
      assert InStep(ch, s1.prev[ch], book.ledgers[ch], r);
    }
  }

  /** One step of a run: message and chunk size arrive together. */
  lemma StepRoundTrip(s: SenderState, book: Book, r: ReaderState, carry: InPacket, op: Op, tail: seq<byte>)
    requires Locked(s, book, r, carry) && Allowed(s, op)
    ensures var s0, m := Before(s, op), MessageOf(op);
      var l := Entry(book, s.Prev(m.channel), m.Header());
      var c := ReadMessage(r, carry, WireBytes(s0, m) + tail);
      && c.Some? && c.value.rest == tail && DeliveryOf(c.value.packet) == Delivered(l, m)
      && Locked(AfterSend(s0, m), Post(book, l, m.channel), ServeChunkSize(c.value.state, c.value.packet),
                c.value.packet.(body := None))
  {
    var m := MessageOf(op);
    if op.SetChunkSize? {
      AnnouncementKeepsSync(s, op.size);
    }
    MessageRoundTrip(s, book, r, carry, m, tail);
    var c := ReadMessage(r, carry, WireBytes(s, m) + tail).value;
    ServeLocks(s, Post(book, Entry(book, s.Prev(m.channel), m.Header()), m.channel), c.state, c.packet, op);
  }
}
