/**
 What a reader makes of a message that was cut with another chunk size than its own: a chunk size
 announced below four, and the first request on a connection that is opened again.
 */
module ChunkMismatch {
  import opened Wrappers
  import opened Bytes
  import opened ChunkFormat
  import opened ChunkReader
  import opened ChunkSender
  import opened ChunkStream
  import opened ChunkRuns
  import opened ChunkExactness

  // ----- too few bytes -----

  /** A body of at least `n` bytes lacks at least `size` of them. */
  predicate Lacks(p: InPacket, n: nat, size: nat) {
    p.bodySize >= n ==> p.bodySize - p.bytesRead >= size
  }

  ghost predicate AllLack(st: ReaderState, carry: InPacket, n: nat, size: nat) {
    Lacks(carry, n, size) && forall ch | ch in st.stored :: Lacks(st.stored[ch], n, size)
  }

  lemma HeaderLacks(st: ReaderState, carry: InPacket, input: seq<byte>, n: nat)
    requires AllLack(st, carry, n, |input|) && |input| <= n
    ensures var h := ParseHeader(st, carry, input); h.Some? ==> Lacks(h.value.packet, n, |input|)
  {
    hide DecodeInt24, DecodeInt32, DecodeInt32LE;
  }

  lemma PayloadLacks(st: ReaderState, p: InPacket, input: seq<byte>, n: nat, carry: InPacket)
    requires st.chunkSize > 0 && AllLack(st, carry, n, |input| + 1) && Lacks(p, n, |input| + 1)
    ensures var c := ReadPayload(st, p, input);
      c.Some? ==>
        && (c.value.packet.IsReady() ==> c.value.packet.bodySize < n)
        && AllLack(c.value.state, c.value.packet, n, |c.value.rest|) && c.value.state.chunkSize == st.chunkSize
  {}

  lemma LessLacks(st: ReaderState, carry: InPacket, n: nat, size: nat, less: nat)
    requires AllLack(st, carry, n, size) && less <= size
    ensures AllLack(st, carry, n, less)
  {}

  /** No long body is completed, whatever channels and header types the bytes are taken for. */
  lemma {:induction false} NoLongMessage(st: ReaderState, carry: InPacket, input: seq<byte>, n: nat)
    requires st.chunkSize > 0 && AllLack(st, carry, n, |input|) && |input| <= n
    ensures var c := ReadMessage(st, carry, input);
      c.Some? ==> c.value.packet.bodySize < n && c.value.state.chunkSize == st.chunkSize
    decreases |input|
  {
    hide ParseHeader, ReadPayload, AllLack, Lacks;
    HeaderLacks(st, carry, input, n);
    var h := ParseHeader(st, carry, input);
    if h.Some? {
      var rest := input[h.value.length..];
      LessLacks(st, carry, n, |input|, |rest| + 1);
      FewerLack(h.value.packet, n, |input|, |rest| + 1);
      PayloadLacks(st, h.value.packet, rest, n, carry);
      var c := ReadPayload(st, h.value.packet, rest);
      if c.Some? && !c.value.packet.IsReady() {
        NoLongMessage(c.value.state, c.value.packet, c.value.rest, n);
      }
    }
  }

  lemma FewerLack(p: InPacket, n: nat, size: nat, less: nat)
    requires Lacks(p, n, size) && less <= size
    ensures Lacks(p, n, less)
  {}

  // ----- one message -----

  lemma ChunksLonger(body: seq<byte>, k: int, continuation: seq<byte>)
    requires 0 < k < |body| && continuation != []
    ensures |Chunks(body, k, continuation)| > |body|
  {
    ChunksLength(body, k, continuation);
    var more := NumChunks(|body|, k) - 1;
    assert more >= 1;
    assert more * |continuation| >= 1;
  }

  /** The first piece of a body that the reader wants in several. */
  lemma FirstPiece(r: ReaderState, p: InPacket, body: seq<byte>, wire: seq<byte>)
    requires 0 < r.chunkSize < |body| && r.chunkSize <= |wire|
    requires p.body == Some([]) && p.bytesRead == 0 && p.bodySize == |body|
    ensures var piece := wire[..r.chunkSize];
      var (st, q) := Keep(r, Advanced(p, piece));
      && Finish(r, p, wire) == ReadMessage(st, q, wire[r.chunkSize..]) && st.chunkSize == r.chunkSize
      && q == Advanced(p, piece).(body := None) && st.stored == r.stored[p.channel := Advanced(p, piece)]
  {
    var piece := wire[..r.chunkSize];
    assert piece + wire[r.chunkSize..] == wire;
    MiddleChunk(r, p, piece, wire[r.chunkSize..]);
  }

  /** A body in one piece, read by a reader that wants more of them: nothing as long is completed. */
  lemma UncutIsShort(s: SenderState, book: Book, r: ReaderState, carry: InPacket, m: Message)
    requires 0 < r.chunkSize < |m.body| <= s.chunkSize
    requires Locked(s.(chunkSize := r.chunkSize), book, r, carry) && WellFormed(s, m)
    ensures var c := ReadMessage(r, carry, WireBytes(s, m));
      c.Some? ==> c.value.packet.bodySize < |m.body| && c.value.state.chunkSize == r.chunkSize
  {
    var p := StartsReading(s, book, r, carry, m);
    FirstPiece(r, p, m.body, m.body);
    var n := r.chunkSize;
    var (st, q) := Keep(r, Advanced(p, m.body[..n]));
    forall ch | ch in st.stored
      ensures Lacks(st.stored[ch], |m.body|, |m.body| - n)
    {
      if ch != p.channel {
        assert InStep(ch, s.prev[ch], book.ledgers[ch], r);
      }
    }
    NoLongMessage(st, q, m.body[n..], |m.body|);
  }

  /** The packet with which the reader starts on a non-empty body. */
  lemma StartsReading(s: SenderState, book: Book, r: ReaderState, carry: InPacket, m: Message) returns (p: InPacket)
    requires r.chunkSize > 0 && m.body != []
    requires Locked(s.(chunkSize := r.chunkSize), book, r, carry) && WellFormed(s, m)
    ensures p.body == Some([]) && p.bytesRead == 0 && p.bodySize == |m.body|
    ensures p.channel == m.channel && p.packetType == m.packetType
    ensures ReadMessage(r, carry, WireBytes(s, m))
            == Finish(r, p, Chunks(m.body, s.chunkSize, BasicHeader(MINIMUM, m.channel)))
  {
    var s0, prev, h := s.(chunkSize := r.chunkSize), s.Prev(m.channel), m.Header();
    p := Started(r, carry, ChosenType(prev, h), TimestampField(prev, h), h);
    StartedFields(s0, book, r, carry, m);
    WireParses(s, r, carry, m, []);
    assert WireBytes(s, m) + [] == WireBytes(s, m);
    var chunks := Chunks(m.body, s.chunkSize, BasicHeader(MINIMUM, m.channel));
    assert chunks + [] == chunks;
    if m.channel in s.prev {
      assert InStep(m.channel, s.prev[m.channel], book.ledgers[m.channel], r);
    }
  }

  /** A cut body that the reader takes for one piece: what the cuts added is left over. */
  lemma CutLeavesRest(s: SenderState, book: Book, r: ReaderState, carry: InPacket, m: Message)
    requires 0 < s.chunkSize < |m.body| <= r.chunkSize
    requires Locked(s.(chunkSize := r.chunkSize), book, r, carry) && WellFormed(s, m)
    ensures var c := ReadMessage(r, carry, WireBytes(s, m)); c.Some? ==> c.value.rest != []
  {
    var p := StartsReading(s, book, r, carry, m);
    ChunksLonger(m.body, s.chunkSize, BasicHeader(MINIMUM, m.channel));
  }

  /** The reader ends up with the message, and nothing of it is left to be taken for something else. */
  ghost predicate ReceivedWhole(r: ReaderState, carry: InPacket, input: seq<byte>, l: Ledger, m: Message) {
    var c := ReadMessage(r, carry, input);
    && c.Some? && c.value.rest == []
    && DeliveryOf(c.value.packet) == Delivered(l, m) && c.value.packet.bodySize == |m.body|
  }

  /**
   Both sides agree on everything but the chunk size. A body that is no longer than the larger of
   the two sizes is received if and only if it is no longer than the smaller, or they are equal.
   */
  lemma MismatchIff(s: SenderState, book: Book, r: ReaderState, carry: InPacket, m: Message)
    requires r.chunkSize > 0 && Locked(s.(chunkSize := r.chunkSize), book, r, carry) && WellFormed(s, m)
    requires |m.body| <= s.chunkSize || |m.body| <= r.chunkSize
    ensures ReceivedWhole(r, carry, WireBytes(s, m), Entry(book, s.Prev(m.channel), m.Header()), m)
            <==> s.chunkSize == r.chunkSize || (|m.body| <= s.chunkSize && |m.body| <= r.chunkSize)
  {
    if s.chunkSize == r.chunkSize || (|m.body| <= s.chunkSize && |m.body| <= r.chunkSize) {
      var s0 := s.(chunkSize := r.chunkSize);
      assert WireBytes(s, m) == WireBytes(s0, m);
      MessageRoundTrip(s0, book, r, carry, m, []);
      assert WireBytes(s, m) + [] == WireBytes(s, m);
    } else if |m.body| <= s.chunkSize {
      UncutIsShort(s, book, r, carry, m);
    } else {
      CutLeavesRest(s, book, r, carry, m);
    }
  }

  // ----- a connection that is opened again -----

  /** RTMP_Close forgets what was sent on the channels, not the chunk size. */
  function Reopened(s: SenderState): SenderState {
    s.(prev := map[])
  }

  /**
   The first message on a connection that is opened again, which goes out before the chunk size is
   announced: a new peer receives it if and only if it fits one chunk on both sides, or the size is
   still the initial one.
   */
  lemma FirstMessageAfterReopeningIff(s: SenderState, m: Message)
    requires WellFormed(Reopened(s), m) && (|m.body| <= s.chunkSize || |m.body| <= 128)
    ensures ReceivedWhole(FRESH_READER, ZERO_PACKET, WireBytes(Reopened(s), m), Entry(FRESH_BOOK, None, m.Header()), m)
            <==> s.chunkSize == 128 || (|m.body| <= s.chunkSize && |m.body| <= 128)
  {
    FreshConnectionIsLocked();
    MismatchIff(Reopened(s), FRESH_BOOK, FRESH_READER, ZERO_PACKET, m);
  }

  // ----- announcements -----

  lemma ZeroIsNoShortHeader(st: ReaderState, carry: InPacket, input: seq<byte>)
    requires 0 < |input| < 13 && input[0] == 0
    ensures ReadMessage(st, carry, input) == None
  {
    assert ParseHeader(st, carry, input) == None;
  }

  /** An announcement below four, to a reader with another size below four. */
  lemma CutAnnouncement(s: SenderState, book: Book, r: ReaderState, carry: InPacket, k: int32)
    requires Locked(s, book, r, carry) && 0 < k < 4 && 0 < s.chunkSize < 4 && k != s.chunkSize
    ensures var c := ReadMessage(r, carry, WireBytes(s.(chunkSize := k), Announcement(k)));
      c.Some? ==> ServeChunkSize(c.value.state, c.value.packet).chunkSize != k
  {
    var m := Announcement(k);
    var w := Chunks(m.body, k, BasicHeader(MINIMUM, 2));
    assert s.(chunkSize := k).(chunkSize := r.chunkSize) == s;
    var p := StartsReading(s.(chunkSize := k), book, r, carry, m);
    CutBytes(k);
    FirstPiece(r, p, m.body, w);
    var (st, q) := Keep(r, Advanced(p, w[..r.chunkSize]));
    if r.chunkSize == 3 && k == 1 {
      ThreeAndOne(st, q, p, w);
    } else {
      ZeroIsNoShortHeader(st, q, w[r.chunkSize..]);
    }
  }

  lemma CutBytes(k: int32)
    requires 0 < k < 4
    ensures var w := Chunks(Announcement(k).body, k, BasicHeader(MINIMUM, 2));
      w == if k == 1 then [0, 0xC2, 0, 0xC2, 0, 0xC2, 1] else if k == 2 then [0, 0, 0xC2, 0, 2] else [0, 0, 0, 0xC2, 3]
  {
    var e, c := EncodeInt32(k), BasicHeader(MINIMUM, 2);
    assert e == [0, 0, 0, k] && c == [0xC2];
    assert Chunks(e, k, c) == e[..k] + c + Chunks(e[k..], k, c);
    if k == 1 {
      var e1, e2 := e[1..], e[1..][1..];
      assert Chunks(e1, k, c) == e1[..1] + c + Chunks(e2, k, c);
      assert Chunks(e2, k, c) == e2[..1] + c + Chunks(e2[1..], k, c);
    }
  }

  /** Three bytes of the announcement of 1, a byte that looks like its next header, and one more. */
  lemma ThreeAndOne(st: ReaderState, q: InPacket, p: InPacket, w: seq<byte>)
    requires w == [0, 0xC2, 0, 0xC2, 0, 0xC2, 1] && st.chunkSize == 3
    requires p.body == Some([]) && p.bytesRead == 0 && p.bodySize == 4 && p.channel == 2 && p.packetType == 1
    requires 2 in st.stored && st.stored[2] == Advanced(p, w[..3])
    ensures var c := ReadMessage(st, q, w[3..]);
      c.Some? && ServeChunkSize(c.value.state, c.value.packet).chunkSize == 0xC2_0000
  {
    var p' := Advanced(p, w[..3]);
    assert w[3..] == BasicHeader(MINIMUM, 2) + [0, 0xC2, 1];
    assert p.body.value + w[..3] == w[..3] == [0, 0xC2, 0];
    hide ReadMessage, Finish, ServeChunkSize, Keep, Advanced;
    ReadsOn(st, q, p', [0, 0xC2, 1]);
    assert [0, 0xC2, 1] == [0] + [0xC2, 1];
    LastChunk(st, p', [0], [0xC2, 1]);
    MisreadSize(st, p');
  }

  lemma MisreadSize(st: ReaderState, p: InPacket)
    requires p.body == Some([0, 0xC2, 0]) && p.bodySize == 4 && p.packetType == 1
    ensures var (st', q) := Keep(st, Completed(p, [0]));
      ServeChunkSize(st', q).chunkSize == 0xC2_0000 && q.IsReady()
  {
    assert Completed(p, [0]).Payload() == [0, 0xC2, 0, 0];
  }

  /**
   sendChunkSize(k) with nothing behind it, for any sizes: the reader takes over k from the next
   message if and only if it is the size in use, or neither of the two sizes is below four.
   */
  lemma AnnouncementAloneSyncsIff(s: SenderState, book: Book, r: ReaderState, carry: InPacket, k: int32)
    requires Locked(s, book, r, carry) && k > 0 && s.chunkSize > 0
    ensures var c := ReadMessage(r, carry, WireBytes(s.(chunkSize := k), Announcement(k)));
      c.Some? && ServeChunkSize(c.value.state, c.value.packet).chunkSize == k
      <==> k == s.chunkSize || (k >= 4 && s.chunkSize >= 4)
  {
    var m, s0 := Announcement(k), s.(chunkSize := k);
    assert WireBytes(s0, m) + [] == WireBytes(s0, m);
    assert s0.(chunkSize := r.chunkSize) == s;
    if s.chunkSize >= 4 || s.chunkSize == k {
      AnnouncementSyncsIff(s, book, r, carry, k, []);
    } else if k < 4 {
      CutAnnouncement(s, book, r, carry, k);
    } else {
      UncutIsShort(s0, book, r, carry, m);
    }
  }
}
