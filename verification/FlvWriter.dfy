/**
 RTMP_Write: FLV bytes arrive in pieces, and packets are rebuilt from their tags
 (librtmp/rtmp.c:4406-4491).
 */
module FlvWriter {
  import opened Wrappers
  import opened Bytes
  import opened Memory
  import opened PacketTypes
  import opened FlvAggregate
  import opened FlvReader
  import opened ChunkFormat
  import Amf0

  const SOURCE_CHANNEL := 4
  const FLV_HEADER_SIZE := 13

  // "@setDataFrame"
  const SET_DATA_FRAME: seq<byte> := [0x40, 0x73, 0x65, 0x74, 0x44, 0x61, 0x74, 0x61, 0x46, 0x72, 0x61, 0x6D, 0x65]

  /** The packet under way between two calls: m_write. */
  datatype Pending = Idle | Partial(head: PacketHeader, got: seq<byte>)
  {
    predicate Proper() {
      Partial? ==> |got| < head.bodySize
    }
  }

  /** What one call leaves pending, the packets it sends, and the number it returns. */
  datatype Outcome = Outcome(pending: Pending, sent: seq<Message>, result: int)
  {
    /** The outcome when the packets `done` were sent before. */
    function Behind(done: seq<Message>): Outcome {
      this.(sent := done + sent)
    }
  }

  predicate IsFlvHeader(b: seq<byte>) {
    |b| >= 3 && b[..3] == [0x46, 0x4C, 0x56]
  }

  /** Bytes in front of a tag header: 13 if they look like an FLV header. */
  function Skipped(b: seq<byte>): nat {
    if IsFlvHeader(b) then FLV_HEADER_SIZE else 0
  }

  /** The packet header made from a tag header. */
  function HeadOf(b: seq<byte>, info: int32): PacketHeader
    requires |b| >= TAG_HEADER
  {
    var keyed := ((b[0] == AUDIO || b[0] == VIDEO) && StampOf(b) == 0) || b[0] == INFO;
    PacketHeader(if keyed then LARGE else MEDIUM, b[0], SOURCE_CHANNEL, StampOf(b), info,
                 DataSize(b) + if b[0] == INFO then 16 else 0)
  }

  /** What the body starts with; None when the string encoder finds no room for it. */
  function Prefix(h: PacketHeader): Option<seq<byte>> {
    if h.packetType == INFO then Amf0.EncodeString(SET_DATA_FRAME, h.bodySize) else Some([])
  }

  function Packet(h: PacketHeader, body: seq<byte>): Message {
    Message(h.headerType, h.packetType, h.channel, h.timestamp, h.info, body)
  }

  /**
   The loop on the bytes `b` that are left of a call with `size` bytes; None when it would read
   behind the caller's bytes, or when the name of the data frame does not fit.
   */
  function Digest(p: Pending, b: seq<byte>, size: nat, info: int32): (o: Option<Outcome>)
    requires p.Proper()
    ensures o.Some? ==> o.value.pending.Proper()
    decreases |b|, 1
  {
    if b == [] then Some(Outcome(p, [], size))
    else if p.Partial? then Fill(p.head, p.got, b, size, info)
    else if size < TAG_HEADER then Some(Outcome(Idle, [], 0))
    else if |b| < Skipped(b) + TAG_HEADER then None
    else
      var h := HeadOf(b[Skipped(b)..], info);
      if Prefix(h).None? || |Prefix(h).value| > h.bodySize then None
      else Fill(h, Prefix(h).value, b[Skipped(b) + TAG_HEADER..], size, info)
  }

  /** The body takes what it can get; a full one is sent, and four bytes behind it are passed over. */
  function Fill(h: PacketHeader, got: seq<byte>, b: seq<byte>, size: nat, info: int32): (o: Option<Outcome>)
    requires |got| <= h.bodySize
    ensures o.Some? ==> o.value.pending.Proper()
    decreases |b|, 0
  {
    var num := Min(h.bodySize - |got|, |b|);
    var all := got + b[..num];
    if |all| < h.bodySize then Some(Outcome(if all == [] then Idle else Partial(h, all), [], size))
    else if |b| - num < 4 then Some(Outcome(Idle, [Packet(h, all)], size + |b| - num - 4))
    else
      match Digest(Idle, b[num + 4..], size, info)
      case None => None
      case Some(o) => Some(o.Behind([Packet(h, all)]))
  }

  class FlvSink {
    const info: int32
    // m_write: its header, how much of its body is there, and the body.
    var head: PacketHeader
    var bytesRead: nat
    var body: array<byte>
    // The packets handed to RTMP_SendPacket.
    var sent: seq<Message>

    constructor (info: int32)
      ensures Valid() && Waiting() == Idle && sent == [] && this.info == info && fresh(body)
    {
      this.info := info;
      head := PacketHeader(LARGE, 0, 0, 0, 0, 0);
      bytesRead, body, sent := 0, new byte[0], [];
    }

    ghost predicate Valid()
      reads this
    {
      bytesRead > 0 ==> bytesRead < head.bodySize == body.Length
    }

    ghost function Waiting(): (p: Pending)
      requires Valid()
      reads this, body
      ensures p.Proper()
    {
      if bytesRead == 0 then Idle else Partial(head, body[..bytesRead])
    }

    /** A new tag: its header is taken apart and the body allocated. */
    method Start(b: seq<byte>) returns (used: nat)
      requires bytesRead == 0 && |b| >= Skipped(b) + TAG_HEADER
      requires var h := HeadOf(b[Skipped(b)..], info); Prefix(h).Some? && |Prefix(h).value| <= h.bodySize
      modifies this`head, this`bytesRead, this`body
      ensures used == Skipped(b) + TAG_HEADER && head == HeadOf(b[Skipped(b)..], info)
      ensures fresh(body) && bytesRead <= head.bodySize == body.Length && body[..bytesRead] == Prefix(head).value
    {
      hide HeadOf, IsFlvHeader;
      used := Skipped(b);
      head := HeadOf(b[used..], info);
      body := new byte[head.bodySize];
      var prefix := Prefix(head).value;
      Store(body, 0, prefix);
      bytesRead := |prefix|;
      assert body[..bytesRead] == body[0..0 + bytesRead];
      used := used + TAG_HEADER;
    }

    /** The body takes bytes of `b`; when it is full it goes out, and `used` counts the trailing size too. */
    method TakeBody(b: seq<byte>) returns (used: nat)
      requires bytesRead <= head.bodySize == body.Length
      modifies this`bytesRead, this`sent, body
      ensures Valid()
      ensures var num := Min(head.bodySize - old(bytesRead), |b|);
        var all := old(body[..bytesRead]) + b[..num];
        if |all| < head.bodySize
        then used == num == |b| && Waiting() == (if all == [] then Idle else Partial(head, all)) && sent == old(sent)
        else used == num + 4 && Waiting() == Idle && sent == old(sent) + [Packet(head, all)]
    {
      ghost var got := body[..bytesRead];
      used := Min(head.bodySize - bytesRead, |b|);
      Store(body, bytesRead, b[..used]);
      assert body[..bytesRead] == got;
      assert body[..bytesRead + used] == body[..bytesRead] + body[bytesRead..bytesRead + used];
      bytesRead := bytesRead + used;
      if bytesRead == head.bodySize {
        sent := sent + [Packet(head, body[..bytesRead])];
        bytesRead := 0;
        used := used + 4;
      }
    }

    /** One turn of the loop on the bytes `b` left of a call with `size` bytes; it ends when more than `b` is used. */
    method Turn(b: seq<byte>, size: nat) returns (used: nat, ghost done: seq<Message>)
      requires Valid() && b != [] && (bytesRead == 0 ==> size >= TAG_HEADER) && Digest(Waiting(), b, size, info).Some?
      modifies this, body
      ensures Valid() && (body == old(body) || fresh(body)) && sent == old(sent) + done && used > 0
      ensures var o := old(Digest(Waiting(), b, size, info)).value;
        if used > |b| then o == Outcome(Waiting(), done, size + |b| - used)
        else
          var rest := Digest(Waiting(), b[used..], size, info);
          rest.Some? && rest.value.Behind(done) == o
    {
      hide Digest, Fill, HeadOf, Prefix, Skipped;
      DigestStep(Waiting(), b, size, info);
      var start := 0;
      if bytesRead == 0 {
        start := Start(b);
      }
      ghost var got := body[..bytesRead];
      assert b[0..] == b;
      FillStep(head, got, b[start..], size, info);
      used := TakeBody(b[start..]);
      done := sent[|old(sent)|..];
      if start + used <= |b| {
        assert b[start..][used..] == b[start + used..];
        if done == [] {
          DigestEnd(Waiting(), size, info);
          assert b[start + used..] == [];
        }
      }
      used := start + used;
    }

    /** RTMP_Write; the packets go to a connection that accepts them. */
    method Write(buf: seq<byte>) returns (ret: int)
      requires Valid() && Digest(Waiting(), buf, |buf|, info).Some?
      modifies this, body
      ensures Valid() && (body == old(body) || fresh(body))
      ensures var o := old(Digest(Waiting(), buf, |buf|, info)).value;
        Waiting() == o.pending && sent == old(sent) + o.sent && ret == o.result
    {
      hide Digest, Fill, HeadOf, Prefix, Skipped, Outcome.Behind;
      ghost var goal, done := Digest(Waiting(), buf, |buf|, info).value, [];
      var pos := 0;
      assert buf[0..] == buf;
      BehindNothing(goal);
      while pos != |buf|
        invariant 0 <= pos <= |buf| && Valid() && (body == old(body) || fresh(body)) && sent == old(sent) + done
        invariant Digest(Waiting(), buf[pos..], |buf|, info).Some?
        invariant Digest(Waiting(), buf[pos..], |buf|, info).value.Behind(done) == goal
        decreases |buf| - pos
      {
        if bytesRead == 0 && |buf| < TAG_HEADER {
          DigestStep(Idle, buf[pos..], |buf|, info);
          FinalOutcome(Outcome(Idle, [], 0), done);
          return 0;
        }
        var used, more := Turn(buf[pos..], |buf|);
        if pos + used > |buf| {
          FinalOutcome(Outcome(Waiting(), more, |buf| + (|buf| - (pos + used))), done);
          return |buf| + (|buf| - (pos + used));
        }
        assert buf[pos..][used..] == buf[pos + used..];
        BehindBehind(Digest(Waiting(), buf[pos + used..], |buf|, info).value, done, more);
        assert old(sent) + done + more == old(sent) + (done + more);
        pos, done := pos + used, done + more;
      }
      DigestEnd(Waiting(), |buf|, info);
      FinalOutcome(Outcome(Waiting(), [], |buf|), done);
      ret := |buf|;
    }
  }

  lemma BehindNothing(o: Outcome)
    ensures o.Behind([]) == o
  {
    assert [] + o.sent == o.sent;
  }

  /** The outcome of the last turn. */
  lemma FinalOutcome(o: Outcome, done: seq<Message>)
    ensures o.Behind(done) == Outcome(o.pending, done + o.sent, o.result)
  {}

  lemma BehindBehind(o: Outcome, done: seq<Message>, more: seq<Message>)
    ensures o.Behind(more).Behind(done) == o.Behind(done + more)
  {
    assert done + (more + o.sent) == done + more + o.sent;
  }

  lemma DigestStep(p: Pending, b: seq<byte>, size: nat, info: int32)
    requires p.Proper() && Digest(p, b, size, info).Some? && b != []
    ensures if p.Partial? then Digest(p, b, size, info) == Fill(p.head, p.got, b, size, info)
      else if size < TAG_HEADER then Digest(p, b, size, info).value == Outcome(Idle, [], 0)
      else
        && |b| >= Skipped(b) + TAG_HEADER
        && (var h := HeadOf(b[Skipped(b)..], info);
            && Prefix(h).Some? && |Prefix(h).value| <= h.bodySize
            && Digest(p, b, size, info) == Fill(h, Prefix(h).value, b[Skipped(b) + TAG_HEADER..], size, info))
  {}

  lemma DigestEnd(p: Pending, size: nat, info: int32)
    requires p.Proper()
    ensures Digest(p, [], size, info) == Some(Outcome(p, [], size))
  {}

  lemma FillStep(h: PacketHeader, got: seq<byte>, b: seq<byte>, size: nat, info: int32)
    requires |got| <= h.bodySize && Fill(h, got, b, size, info).Some?
    ensures var num := Min(h.bodySize - |got|, |b|);
      var all, o := got + b[..num], Fill(h, got, b, size, info).value;
      if |all| < h.bodySize then o == Outcome(if all == [] then Idle else Partial(h, all), [], size) && num == |b|
      else if |b| - num < 4 then o == Outcome(Idle, [Packet(h, all)], size + |b| - num - 4)
      else
        && Digest(Idle, b[num + 4..], size, info).Some?
        && Digest(Idle, b[num + 4..], size, info).value.Behind([Packet(h, all)]) == o
  {}
}
