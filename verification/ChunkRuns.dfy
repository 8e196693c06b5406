/**
 Whole runs of the chunk stream: any sequence of sends and chunk-size changes on any
 channels, against a reader that serves every message before reading on.
 */
module ChunkRuns {
  import opened Sequences
  import opened Wrappers
  import opened Bytes
  import opened ChunkFormat
  import opened ChunkReader
  import opened ChunkStream

  function Next(s: SenderState, op: Op): SenderState
    requires Allowed(s, op)
  {
    AfterSend(Before(s, op), MessageOf(op))
  }

  predicate RunAllowed(s: SenderState, ops: seq<Op>)
    decreases |ops|
  {
    ops == [] || (Allowed(s, ops[0]) && RunAllowed(Next(s, ops[0]), ops[1..]))
  }

  function RunSender(s: SenderState, ops: seq<Op>): SenderState
    requires RunAllowed(s, ops)
    decreases |ops|
  {
    if ops == [] then s else RunSender(Next(s, ops[0]), ops[1..])
  }

  function RunWire(s: SenderState, ops: seq<Op>): seq<byte>
    requires RunAllowed(s, ops)
    decreases |ops|
  {
    if ops == [] then []
    else WireBytes(Before(s, ops[0]), MessageOf(ops[0])) + RunWire(Next(s, ops[0]), ops[1..])
  }

  function OpEntry(s: SenderState, book: Book, op: Op): Ledger {
    Entry(book, s.Prev(MessageOf(op).channel), MessageOf(op).Header())
  }

  function NextBook(s: SenderState, book: Book, op: Op): Book {
    Post(book, OpEntry(s, book, op), MessageOf(op).channel)
  }

  /** What the run amounts to for a receiver that is told the messages themselves. */
  function RunDeliveries(s: SenderState, book: Book, ops: seq<Op>): (ds: seq<Delivery>)
    requires RunAllowed(s, ops)
    ensures |ds| == |ops|
    decreases |ops|
  {
    if ops == [] then []
    else [Delivered(OpEntry(s, book, ops[0]), MessageOf(ops[0]))]
         + RunDeliveries(Next(s, ops[0]), NextBook(s, book, ops[0]), ops[1..])
  }

  function RunBook(s: SenderState, book: Book, ops: seq<Op>): Book
    requires RunAllowed(s, ops)
    decreases |ops|
  {
    if ops == [] then book else RunBook(Next(s, ops[0]), NextBook(s, book, ops[0]), ops[1..])
  }

  datatype Received = Received(state: ReaderState, carry: InPacket, deliveries: seq<Delivery>, rest: seq<byte>)

  /** Reads and serves `n` messages. */
  function ReadRun(r: ReaderState, carry: InPacket, input: seq<byte>, n: nat): Option<Received>
    decreases n
  {
    if n == 0 then Some(Received(r, carry, [], input))
    else
      var c :- ReadMessage(r, carry, input);
      var more :- ReadRun(ServeChunkSize(c.state, c.packet), c.packet.(body := None), c.rest, n - 1);
      Some(more.(deliveries := [DeliveryOf(c.packet)] + more.deliveries))
  }

  /** The main result: the reader rebuilds every message of every allowed run, and both ends stay in step. */
  lemma {:induction false} RunRoundTrip(s: SenderState, book: Book, r: ReaderState, carry: InPacket, ops: seq<Op>,
                                        tail: seq<byte>)
    requires Locked(s, book, r, carry) && RunAllowed(s, ops)
    ensures var got := ReadRun(r, carry, RunWire(s, ops) + tail, |ops|);
      && got.Some? && got.value.rest == tail && got.value.deliveries == RunDeliveries(s, book, ops)
      && Locked(RunSender(s, ops), RunBook(s, book, ops), got.value.state, got.value.carry)
    decreases |ops|
  {
    if ops == [] {
      assert [] + tail == tail;
    } else {
      var op := ops[0];
      var s', book' := Next(s, op), NextBook(s, book, op);
      var wire := WireBytes(Before(s, op), MessageOf(op));
      var more := RunWire(s', ops[1..]) + tail;
      assert RunWire(s, ops) + tail == wire + more;
      StepRoundTrip(s, book, r, carry, op, more);
      var c := ReadMessage(r, carry, wire + more).value;
      RunRoundTrip(s', book', ServeChunkSize(c.state, c.packet), c.packet.(body := None), ops[1..], tail);
    }
  }

  const FRESH_SENDER := SenderState(128, map[])
  const FRESH_READER := ReaderState(128, map[], map[])
  const FRESH_BOOK := Book(map[], 0)

  lemma FreshConnectionIsLocked()
    ensures Locked(FRESH_SENDER, FRESH_BOOK, FRESH_READER, ZERO_PACKET)
  {}

  lemma {:induction false} AllowedSplits(s: SenderState, first: seq<Op>, second: seq<Op>)
    requires RunAllowed(s, first + second)
    ensures RunAllowed(s, first) && RunAllowed(RunSender(s, first), second)
    decreases |first|
  {
    if first == [] {
      assert first + second == second;
    } else {
      assert (first + second)[0] == first[0] && (first + second)[1..] == first[1..] + second;
      AllowedSplits(Next(s, first[0]), first[1..], second);
    }
  }

  lemma {:induction false} WireSplits(s: SenderState, first: seq<Op>, second: seq<Op>)
    requires RunAllowed(s, first + second) && RunAllowed(s, first) && RunAllowed(RunSender(s, first), second)
    ensures RunWire(s, first + second) == RunWire(s, first) + RunWire(RunSender(s, first), second)
    decreases |first|
  {
    if first == [] {
      assert first + second == second;
    } else {
      assert (first + second)[0] == first[0] && (first + second)[1..] == first[1..] + second;
      var s' := Next(s, first[0]);
      WireSplits(s', first[1..], second);
      Regroup(WireBytes(Before(s, first[0]), MessageOf(first[0])), RunWire(s', first[1..]),
              RunWire(RunSender(s', first[1..]), second));
    }
  }

  /** After every complete message of a run the reader's chunk size is the sender's. */
  lemma ChunkSizesStaySynchronised(s: SenderState, book: Book, r: ReaderState, carry: InPacket, ops: seq<Op>, n: nat)
    requires Locked(s, book, r, carry) && RunAllowed(s, ops) && n <= |ops|
    ensures RunAllowed(s, ops[..n])
    ensures var got := ReadRun(r, carry, RunWire(s, ops), n);
      got.Some? && got.value.state.chunkSize == RunSender(s, ops[..n]).chunkSize
  {
    assert ops == ops[..n] + ops[n..];
    AllowedSplits(s, ops[..n], ops[n..]);
    WireSplits(s, ops[..n], ops[n..]);
    RunRoundTrip(s, book, r, carry, ops[..n], RunWire(RunSender(s, ops[..n]), ops[n..]));
  }
}
