/**
 Where the two sides agree exactly, and where the code itself makes them part: equal
 absolute timestamps sent as type-3 headers, and chunk sizes too small for their own announcement.
 */
module ChunkExactness {
  import opened Wrappers
  import opened Bytes
  import opened ChunkFormat
  import opened ChunkReader
  import opened ChunkSender
  import opened ChunkStream
  import opened ChunkRuns

  // ----- timestamps -----

  /**
   A new message may go out without a timestamp field only when its difference to the previous
   message is the last field that was sent on the channel: the reader adds that field again.
   */
  predicate TimestampSafe(s: SenderState, book: Book, m: Message) {
    var prev, h := s.Prev(m.channel), m.Header();
    TimestampOmitted(prev, h) && prev.Some? && m.channel in book.ledgers ==>
      (m.timestamp - prev.value.timestamp) % 0x1_0000_0000 == book.ledgers[m.channel].field
  }

  /** Every channel's clock on the reader's side shows the timestamp last sent. */
  ghost predicate ClocksExact(s: SenderState, book: Book) {
    s.prev.Keys == book.ledgers.Keys && forall ch | ch in s.prev :: book.ledgers[ch].clock == s.prev[ch].timestamp
  }

  lemma WrapCancels(t: uint32, p: uint32, f: uint32)
    ensures Wrap(f + p) == t <==> f == Wrap(t - p)
  {}

  lemma ClockStep(s: SenderState, book: Book, m: Message)
    requires ClocksExact(s, book) && WellFormed(s, m)
    ensures var l := Entry(book, s.Prev(m.channel), m.Header());
      && (l.clock == m.timestamp <==> TimestampSafe(s, book, m))
      && (TimestampSafe(s, book, m) ==> ClocksExact(AfterSend(s, m), Post(book, l, m.channel)))
  {
    ChosenTypeIs(s.Prev(m.channel), m.Header());
    if m.channel in s.prev {
      var p := s.prev[m.channel].timestamp;
      WrapCancels(m.timestamp, p, Wrap(m.timestamp - p));
      WrapCancels(m.timestamp, p, book.ledgers[m.channel].field);
    }
  }

  predicate RunTimestampSafe(s: SenderState, book: Book, ops: seq<Op>)
    requires RunAllowed(s, ops)
    decreases |ops|
  {
    ops == []
    || (&& TimestampSafe(s, book, MessageOf(ops[0]))
        && RunTimestampSafe(Next(s, ops[0]), NextBook(s, book, ops[0]), ops[1..]))
  }

  /** A run is received with every timestamp as sent if and only if no message of it was unsafe to send. */
  lemma {:induction false} TimestampsExactIff(s: SenderState, book: Book, ops: seq<Op>)
    requires ClocksExact(s, book) && RunAllowed(s, ops)
    ensures (forall i | 0 <= i < |ops| :: RunDeliveries(s, book, ops)[i].timestamp == MessageOf(ops[i]).timestamp)
            <==> RunTimestampSafe(s, book, ops)
    decreases |ops|
  {
    if ops != [] {
      var op, rest := ops[0], ops[1..];
      var s', book' := Next(s, op), NextBook(s, book, op);
      var ds, ds' := RunDeliveries(s, book, ops), RunDeliveries(s', book', rest);
      OpClockStep(s, book, op);
      assert ds[0].timestamp == OpEntry(s, book, op).clock;
      if TimestampSafe(s, book, MessageOf(op)) {
        TimestampsExactIff(s', book', rest);
        assert forall i | 0 <= i < |rest| :: ds'[i] == ds[i + 1] && rest[i] == ops[i + 1];
        if RunTimestampSafe(s', book', rest) {
          forall i | 0 <= i < |ops| ensures ds[i].timestamp == MessageOf(ops[i]).timestamp {
            if i > 0 {
              assert ds'[i - 1].timestamp == MessageOf(rest[i - 1]).timestamp;
            }
          }
        } else {
          var i :| 0 <= i < |rest| && ds'[i].timestamp != MessageOf(rest[i]).timestamp;
          assert ds[i + 1].timestamp != MessageOf(ops[i + 1]).timestamp;
        }
      }
    }
  }

  lemma OpClockStep(s: SenderState, book: Book, op: Op)
    requires ClocksExact(s, book) && Allowed(s, op)
    ensures OpEntry(s, book, op).clock == MessageOf(op).timestamp <==> TimestampSafe(s, book, MessageOf(op))
    ensures TimestampSafe(s, book, MessageOf(op)) ==> ClocksExact(Next(s, op), NextBook(s, book, op))
  {
    if op.SetChunkSize? {
      AnnouncementKeepsSync(s, op.size);
    }
    ClockStep(s, book, MessageOf(op));
  }

  /**
   From a new connection on, and whatever follows: the messages read from the wire are those sent, in
   order, channel, type and body as sent, and all their timestamps are as sent if and only if no message
   was unsafe to send.
   */
  lemma NewConnectionExactIff(ops: seq<Op>, tail: seq<byte>)
    requires RunAllowed(FRESH_SENDER, ops)
    ensures var got := ReadRun(FRESH_READER, ZERO_PACKET, RunWire(FRESH_SENDER, ops) + tail, |ops|);
      && got.Some? && got.value.rest == tail && |got.value.deliveries| == |ops|
      && (forall i | 0 <= i < |ops| :: AsSent(got.value.deliveries[i], MessageOf(ops[i])))
      && ((forall i | 0 <= i < |ops| :: got.value.deliveries[i].timestamp == MessageOf(ops[i]).timestamp)
          <==> RunTimestampSafe(FRESH_SENDER, FRESH_BOOK, ops))
  {
    FreshConnectionIsLocked();
    RunRoundTrip(FRESH_SENDER, FRESH_BOOK, FRESH_READER, ZERO_PACKET, ops, tail);
    TimestampsExactIff(FRESH_SENDER, FRESH_BOOK, ops);
    forall i | 0 <= i < |ops|
      ensures AsSent(RunDeliveries(FRESH_SENDER, FRESH_BOOK, ops)[i], MessageOf(ops[i]))
    {
      DeliveredAsSent(FRESH_SENDER, FRESH_BOOK, ops, i);
    }
  }

  /**
   Later messages of a channel either have a full header, or are not asked to go without a timestamp
   and have another one than the message before; `last` holds the timestamps so far.
   */
  predicate Spaced(last: map<nat, uint32>, ops: seq<Op>)
    decreases |ops|
  {
    ops == []
    || (var m := MessageOf(ops[0]);
        && (m.channel !in last || m.headerType == 0 || (m.headerType != 3 && m.timestamp != last[m.channel]))
        && Spaced(last[m.channel := m.timestamp], ops[1..]))
  }

  lemma {:induction false} SpacedIsSafe(s: SenderState, book: Book, last: map<nat, uint32>, ops: seq<Op>)
    requires RunAllowed(s, ops) && Spaced(last, ops) && s.prev.Keys == book.ledgers.Keys == last.Keys
    requires forall ch | ch in last :: s.prev[ch].timestamp == last[ch]
    ensures RunTimestampSafe(s, book, ops)
    decreases |ops|
  {
    if ops != [] {
      var m := MessageOf(ops[0]);
      SpacedIsSafe(Next(s, ops[0]), NextBook(s, book, ops[0]), last[m.channel := m.timestamp], ops[1..]);
    }
  }

  /** From a new connection on, messages spaced in this way all arrive with the timestamps they were sent with. */
  lemma SpacedArrivesExactly(ops: seq<Op>, tail: seq<byte>)
    requires RunAllowed(FRESH_SENDER, ops) && Spaced(map[], ops)
    ensures var got := ReadRun(FRESH_READER, ZERO_PACKET, RunWire(FRESH_SENDER, ops) + tail, |ops|);
      && got.Some? && |got.value.deliveries| == |ops|
      && forall i | 0 <= i < |ops| ::
           AsSent(got.value.deliveries[i], MessageOf(ops[i]))
           && got.value.deliveries[i].timestamp == MessageOf(ops[i]).timestamp
  {
    SpacedIsSafe(FRESH_SENDER, FRESH_BOOK, map[], ops);
    NewConnectionExactIff(ops, tail);
  }

  predicate AsSent(d: Delivery, m: Message) {
    d.channel == m.channel && d.packetType == m.packetType && d.body == m.body
  }

  lemma {:induction false} DeliveredAsSent(s: SenderState, book: Book, ops: seq<Op>, i: nat)
    requires RunAllowed(s, ops) && i < |ops|
    ensures AsSent(RunDeliveries(s, book, ops)[i], MessageOf(ops[i]))
    decreases |ops|
  {
    if i > 0 {
      DeliveredAsSent(Next(s, ops[0]), NextBook(s, book, ops[0]), ops[1..], i - 1);
    }
  }

  /** Two equal video packets at time 5: the second arrives with timestamp 10. */
  lemma RepeatedTimestampDrifts(body: seq<byte>)
    requires |body| < TWO_24
    ensures var ops := [Send(Message(LARGE, 9, 6, 5, 1, body)), Send(Message(MEDIUM, 9, 6, 5, 1, body))];
      && RunAllowed(FRESH_SENDER, ops)
      && RunDeliveries(FRESH_SENDER, FRESH_BOOK, ops)
         == [Delivery(6, 9, 5, 1, body), Delivery(6, 9, 10, 1, body)]
  {
    var first, second := Send(Message(LARGE, 9, 6, 5, 1, body)), Send(Message(MEDIUM, 9, 6, 5, 1, body));
    var ops := [first, second];
    var s, book := FRESH_SENDER, FRESH_BOOK;
    assert ops[1..] == [second] && ops[1..][1..] == [];
    assert Next(s, first).Prev(6).Some? && NextBook(s, book, first).At(6) == Some(Ledger(5, 5, 1));
    assert RunDeliveries(Next(s, first), NextBook(s, book, first), [second]) == [Delivery(6, 9, 10, 1, body)];
  }

  /** The announcement of a size of at least four, byte by byte. */
  lemma AnnouncementBytes(s: SenderState, k: int32)
    requires s.chunkSize >= 4 && k >= 0
    ensures WireBytes(s, Announcement(k))
            == [0x02, 0, 0, 0, 0, 0, 4, 1, 0, 0, 0, 0,
                k / 0x100_0000, k / 0x1_0000 % 0x100, k / 0x100 % 0x100, k % 0x100]
  {
    var h, e := Announcement(k).Header(), EncodeInt32(k);
    assert EncodeInt24(4) == [0, 0, 4] && EncodeInt24(0) == [0, 0, 0] && EncodeInt32LE(0) == [0, 0, 0, 0];
    assert Chunks(e, s.chunkSize, BasicHeader(MINIMUM, 2)) == e;
    hide Chunks, EncodeInt32;
    assert MessageHeader(LARGE, 0, h) == [0, 0, 0, 0, 0, 4, 1, 0, 0, 0, 0];
    assert BasicHeader(LARGE, 2) == [0x02];
  }

  /** On a new connection, a chunk without fields is an empty message by itself. */
  lemma EmptyMessage(channel: nat, rest: seq<byte>)
    requires 2 <= channel < 64
    ensures var c := ReadMessage(FRESH_READER, ZERO_PACKET, [0xC0 + channel] + rest);
      c.Some? && c.value.rest == rest && DeliveryOf(c.value.packet) == Delivery(channel, 0, 0, 0, [])
  {
    FieldlessChunk(FRESH_READER, ZERO_PACKET, channel, rest);
    assert ([0xC0 + channel] + rest)[1..] == rest && rest[0..] == rest;
    hide ParseHeader;
  }

  // ----- stream ids -----

  /** The stream id of the last LARGE message of the run on a channel. */
  function LastLarge(ops: seq<Op>, channel: nat): Option<int32>
    decreases |ops|
  {
    if ops == [] then None
    else
      var later, m := LastLarge(ops[1..], channel), MessageOf(ops[0]);
      if later.Some? then later
      else if m.channel == channel && m.headerType == LARGE then Some(m.info) else None
  }

  /**
   Stream ids travel only in LARGE headers: each message is delivered with the id of the last such
   message on its channel, itself included, or else with the one the channel had before the run.
   */
  lemma {:induction false} StreamIdOfLastLarge(s: SenderState, book: Book, ops: seq<Op>, i: nat)
    requires s.prev.Keys == book.ledgers.Keys && RunAllowed(s, ops) && i < |ops|
    ensures var channel, info := MessageOf(ops[i]).channel, RunDeliveries(s, book, ops)[i].info;
      && (LastLarge(ops[..i + 1], channel).Some? ==> info == LastLarge(ops[..i + 1], channel).value)
      && (LastLarge(ops[..i + 1], channel).None? && channel in book.ledgers ==> info == book.ledgers[channel].info)
    decreases |ops|
  {
    assert ops[..i + 1][0] == ops[0] && ops[..i + 1][1..] == ops[1..][..i];
    if i == 0 {
      assert LastLarge(ops[1..][..0], MessageOf(ops[0]).channel) == None;
    } else {
      StreamIdOfLastLarge(Next(s, ops[0]), NextBook(s, book, ops[0]), ops[1..], i - 1);
    }
  }

  // ----- chunk sizes -----

  lemma ShortAnnouncement(k: int32, rest: seq<byte>)
    requires 0 < k < 4
    ensures var w := Chunks(EncodeInt32(k), k, BasicHeader(MINIMUM, 2)) + rest;
      |w| >= 4 && AsInt32(DecodeInt32(w[..4])) != k
  {
    var e := EncodeInt32(k);
    assert e == [0, 0, 0, k];
    var c := BasicHeader(MINIMUM, 2);
    assert Chunks(e, k, c) == e[..k] + c + Chunks(e[k..], k, c);
    if k == 3 {
      assert (Chunks(e, k, c) + rest)[..4] == [0, 0, 0, 0xC2];
    } else if k == 2 {
      assert Chunks(e[k..], k, c) == e[k..];
      assert (Chunks(e, k, c) + rest)[..4] == [0, 0, 0xC2, 0];
    } else {
      assert Chunks(e[1..], k, c) == e[1..][..1] + c + Chunks(e[1..][1..], k, c);
      assert (Chunks(e, k, c) + rest)[..4] == [0, 0xC2, 0, 0xC2];
    }
  }

  /** A whole four-byte body is read at once, whatever those bytes are. */
  lemma ReadsFourBytes(r: ReaderState, p: InPacket, input: seq<byte>)
    requires r.chunkSize >= 4 && |input| >= 4
    requires p.bodySize == 4 && p.bytesRead == 0 && p.body == Some([]) && p.packetType == 1
    ensures var c := Finish(r, p, input);
      c.Some? && ServeChunkSize(c.value.state, c.value.packet).chunkSize == AsInt32(DecodeInt32(input[..4]))
  {
    assert [] + input[..4] == input[..4];
  }

  /**
   sendChunkSize(k) on a connection in step. After the reader has served one message its chunk size
   is k if k is the size both sides use already; for another k, and a size in use of at least 4, it
   is k if and only if k is at least 4. Smaller sizes cut the announcement that the reader still
   reads in one piece.
   */
  lemma AnnouncementSyncsIff(s: SenderState, book: Book, r: ReaderState, carry: InPacket, k: int32, tail: seq<byte>)
    requires Locked(s, book, r, carry) && k > 0 && (s.chunkSize >= 4 || s.chunkSize == k)
    ensures var c := ReadMessage(r, carry, WireBytes(s.(chunkSize := k), Announcement(k)) + tail);
      c.Some? && (ServeChunkSize(c.value.state, c.value.packet).chunkSize == k <==> k >= 4 || k == s.chunkSize)
  {
    if s.chunkSize == k {
      SameSizeSyncs(s, book, r, carry, k, tail);
    } else if k >= 4 {
      StepRoundTrip(s, book, r, carry, SetChunkSize(k), tail);
    } else {
      var m, s0 := Announcement(k), s.(chunkSize := k);
      var p := Started(r, carry, LARGE, 0, m.Header());
      StartedFields(s, book, r, carry, m);
      WireParses(s0, r, carry, m, tail);
      ShortAnnouncement(k, tail);
      ReadsFourBytes(r, p, Chunks(m.body, k, BasicHeader(MINIMUM, 2)) + tail);
    }
  }

  lemma SameSizeSyncs(s: SenderState, book: Book, r: ReaderState, carry: InPacket, k: int32, tail: seq<byte>)
    requires Locked(s, book, r, carry) && 0 < k == s.chunkSize
    ensures var c := ReadMessage(r, carry, WireBytes(s, Announcement(k)) + tail);
      c.Some? && ServeChunkSize(c.value.state, c.value.packet).chunkSize == k
  {
    var m := Announcement(k);
    AnnouncementIsWellFormed(s, k);
    MessageRoundTrip(s, book, r, carry, m, tail);
    var c := ReadMessage(r, carry, WireBytes(s, m) + tail).value;
    hide Locked, WireBytes, ReadMessage, WellFormed, ServeChunkSize, Entry;
    ServesAnnouncement(c.state, c.packet, k);
  }

  lemma AnnouncementIsWellFormed(s: SenderState, k: int32)
    requires s.chunkSize > 0
    ensures WellFormed(s, Announcement(k))
  {}

  lemma ServesAnnouncement(r: ReaderState, p: InPacket, k: int32)
    requires p.packetType == 1 && p.bodySize == 4 && p.Payload() == Announcement(k).body
    ensures ServeChunkSize(r, p).chunkSize == k
  {
    DecodeEncodeInt32(k, []);
    assert EncodeInt32(k) + [] == EncodeInt32(k);
  }
}
