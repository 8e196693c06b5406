/**
 RTMP_SendPacket (librtmp/rtmp.c:3244-3446) over the caller's own memory: the header is
 built in the headroom in front of the body, and every continuation header is
 written over body bytes.
 */
module ChunkSender {
  import opened Bytes
  import opened ChunkFormat
  import opened Memory

  /** How many leading body bytes the continuation headers never overwrite. */
  function Untouched(n: nat, chunkSize: int, cLen: nat): int {
    if n <= chunkSize then n else chunkSize - cLen
  }

  /** Only the bytes from `lo` up to `hi` have changed. */
  ghost predicate SameAround(was: seq<byte>, now: seq<byte>, lo: int, hi: int) {
    |now| == |was| && forall p | 0 <= p < |was| && (p < lo || p >= hi) :: now[p] == was[p]
  }

  lemma SameAroundBoth(was: seq<byte>, mid: seq<byte>, now: seq<byte>, lo: int, hi: int, from: int, to: int)
    requires SameAround(was, mid, lo, hi) && SameAround(mid, now, from, to)
    requires from == to || lo <= from < to <= hi
    ensures SameAround(was, now, lo, hi)
  {}

  /** Puts a continuation header right in front of position `at`, over bytes already sent; `rest` is unsent. */
  method Continue(buf: array<byte>, at: nat, continuation: seq<byte>, ghost end: nat, ghost rest: seq<byte>)
    returns (hdr: nat)
    requires |continuation| <= at <= end <= buf.Length && rest == buf[at..end]
    modifies buf
    ensures hdr == at - |continuation| && continuation == buf[hdr..at] && rest == buf[at..end]
    ensures forall p | 0 <= p < buf.Length && (p < hdr || p >= at) :: buf[p] == old(buf[p])
  {
    hdr := at - |continuation|;
    Store(buf, hdr, continuation);
  }

  /** What one turn of the send loop takes off the output still owed. */
  lemma NextChunk(sent: seq<byte>, front: seq<byte>, rest: seq<byte>, k: int, continuation: seq<byte>)
    requires k > 0
    ensures |rest| <= k ==> sent + (front + rest[..|rest|]) == sent + (front + Chunks(rest, k, continuation))
    ensures |rest| > k ==>
      sent + (front + rest[..k]) + (continuation + Chunks(rest[k..], k, continuation))
      == sent + (front + Chunks(rest, k, continuation))
  {}

  /** The request buffer has room for everything, with exactly one continuation header to spare. */
  lemma RequestFits(hSize: nat, body: seq<byte>, k: int, continuation: seq<byte>)
    requires k > 0 && |body| > 0
    ensures hSize + |Chunks(body, k, continuation)| + |continuation|
         == (|body| + k - 1) / k * |continuation| + |body| + hSize
  {
    ChunksLength(body, k, continuation);
    NumChunksIsCeiling(|body|, k);
  }

  class Sender {
    var outChunkSize: int
    var channelsOut: map<nat, PacketHeader>
    // The HTTP feature bit of Link.protocol: all chunks of a packet go out in one request.
    var http: bool
    // The bytes given to WriteN so far, in order.
    var wire: seq<byte>

    constructor (http: bool)
      ensures State() == SenderState(128, map[]) && wire == [] && this.http == http
    {
      outChunkSize := 128;
      channelsOut := map[];
      this.http := http;
      wire := [];
    }

    function State(): SenderState
      reads this`outChunkSize, this`channelsOut
    {
      SenderState(outChunkSize, channelsOut)
    }

    /** Writes the header that ends where the body begins, and returns where it starts. */
    method BuildHeader(packet: PacketHeader, headerType: nat, t: uint32, buf: array<byte>, end: nat)
      returns (header: nat)
      requires headerType <= 3 && packet.channel <= 65599
      requires MAX_HEADER_SIZE <= end <= buf.Length
      modifies buf
      ensures header + 1 + ChannelBytes(packet.channel) + |MessageHeader(headerType, t, packet)| == end
      ensures buf[header..end] == BasicHeader(headerType, packet.channel) + MessageHeader(headerType, t, packet)
      ensures forall p | 0 <= p < buf.Length && (p < header || p >= end) :: buf[p] == old(buf[p])
    {
      var nSize := PacketSize(headerType);
      var cSize := ChannelBytes(packet.channel);
      header := end - nSize;
      if cSize > 0 {
        header := header - cSize;
      }
      if nSize > 1 && t >= 0xff_ffff {
        header := header - 4;
      }
      StoreTwo(buf, header, BasicHeader(headerType, packet.channel), MessageHeader(headerType, t, packet));
    }

    /** `sent` has left the send loop: written directly, or copied into the request buffer. */
    ghost predicate HasSent(tbuf: array?<byte>, toff: nat, sent: seq<byte>)
      reads this`wire, tbuf
    {
      if tbuf == null then wire == sent else toff <= tbuf.Length && tbuf[..toff] == sent
    }

    /** One WriteN or memcpy of the header at `hdr` with the next `len` body bytes; `rest` is the unsent body. */
    method Emit(tbuf: array?<byte>, toff: nat, buf: array<byte>, hdr: nat, at: nat, len: nat, ghost end: nat,
                ghost sent: seq<byte>, ghost front: seq<byte>, ghost rest: seq<byte>)
      returns (toff': nat)
      requires hdr <= at <= end <= buf.Length && len <= |rest|
      requires front == buf[hdr..at] && rest == buf[at..end]
      requires HasSent(tbuf, toff, sent)
      requires tbuf != null ==> tbuf != buf && |sent| + |front| + len <= tbuf.Length
      modifies this`wire, tbuf
      ensures tbuf != null ==> wire == old(wire)
      ensures HasSent(tbuf, toff', sent + (front + rest[..len]))
      ensures rest[len..] == buf[at + len..end]
    {
      assert buf[hdr..at + len] == front + rest[..len];
      if tbuf != null {
        StoreBehind(tbuf, toff, buf[hdr..at + len]);
      } else {
        wire := wire + buf[hdr..at + len];
      }
      toff' := toff + (at - hdr) + len;
    }

    /** Room for a whole request; none when the packet fits one chunk or the transport is not HTTP. */
    method NewRequest(hSize: nat, n: nat, cLen: nat, ghost body: seq<byte>, ghost continuation: seq<byte>)
      returns (tbuf: array?<byte>)
      requires outChunkSize > 0 && |body| == n && |continuation| == cLen
      ensures tbuf != null <==> http && NumChunks(n, outChunkSize) > 1
      ensures tbuf != null ==>
        fresh(tbuf) && tbuf.Length == hSize + |Chunks(body, outChunkSize, continuation)| + cLen
    {
      tbuf := null;
      if http {
        var chunks := (n + outChunkSize - 1) / outChunkSize;
        if n > 0 {
          NumChunksIsCeiling(n, outChunkSize);
          RequestFits(hSize, body, outChunkSize, continuation);
        } else {
          QuotientIsUnique(outChunkSize - 1, outChunkSize, 0, outChunkSize - 1);
        }
        if chunks > 1 {
          tbuf := new byte[chunks * cLen + n + hSize];
        }
      }
    }

    /** The bytes of one chunk go out; then the next chunk's header is built if there is a next one. */
    method SendChunk(tbuf: array?<byte>, toff: nat, buf: array<byte>, hdr: nat, at: nat, left: nat, chunk: nat,
                     continuation: seq<byte>, ghost end: nat,
                     ghost sent: seq<byte>, ghost front: seq<byte>, ghost rest: seq<byte>)
      returns (toff': nat, hdr': nat, ghost sent': seq<byte>, ghost front': seq<byte>, ghost rest': seq<byte>)
      requires hdr <= at && at + left == end <= buf.Length && front == buf[hdr..at] && rest == buf[at..end]
      requires outChunkSize > 0 && chunk == (if left < outChunkSize then left else outChunkSize)
      requires HasSent(tbuf, toff, sent) && (chunk < left ==> |continuation| <= at + chunk)
      requires tbuf != null ==> tbuf != buf
      requires tbuf != null ==> |sent + (front + Chunks(rest, outChunkSize, continuation))| <= tbuf.Length
      modifies this`wire, tbuf, buf
      ensures tbuf != null ==> wire == old(wire)
      ensures HasSent(tbuf, toff', sent')
      ensures if chunk == left then hdr' == end && sent' == sent + (front + Chunks(rest, outChunkSize, continuation))
        else
          && hdr' == at + chunk - |continuation| && front' == continuation == buf[hdr'..at + chunk]
          && rest' == buf[at + chunk..end]
          && sent' + (front' + Chunks(rest', outChunkSize, continuation))
             == sent + (front + Chunks(rest, outChunkSize, continuation))
      ensures SameAround(old(buf[..]), buf[..], at + chunk - (if chunk == left then 0 else |continuation|), at + chunk)
    {
      NextChunk(sent, front, rest, outChunkSize, continuation);
      hide Chunks;
      toff' := Emit(tbuf, toff, buf, hdr, at, chunk, end, sent, front, rest);
      sent', front', rest', hdr' := sent + (front + rest[..chunk]), continuation, rest[chunk..], at + chunk;
      if chunk < left {
        hdr' := Continue(buf, at + chunk, continuation, end, rest');
      }
    }

    /** Between two turns: what was sent and what is still in the buffer make up `total`. */
    ghost predicate Owed(tbuf: array?<byte>, toff: nat, buf: array<byte>, hdr: nat, at: nat, left: nat, chunk: nat,
                         continuation: seq<byte>, total: seq<byte>)
      requires hdr <= at && at + left <= buf.Length
      reads this`outChunkSize, this`wire, tbuf, buf
    {
      if hdr == at then left == 0 && HasSent(tbuf, toff, total)
      else
        && outChunkSize > 0 && chunk == outChunkSize && (tbuf != null ==> toff <= tbuf.Length)
        && total == (if tbuf == null then wire else tbuf[..toff])
                    + (buf[hdr..at] + Chunks(buf[at..at + left], outChunkSize, continuation))
    }

    lemma AllOwed(tbuf: array?<byte>, buf: array<byte>, hdr: nat, at: nat, left: nat, continuation: seq<byte>,
                  total: seq<byte>)
      requires hdr < at && at + left <= buf.Length && outChunkSize > 0
      requires total == (if tbuf == null then wire else [])
                        + (buf[hdr..at] + Chunks(buf[at..at + left], outChunkSize, continuation))
      ensures Owed(tbuf, 0, buf, hdr, at, left, outChunkSize, continuation, total)
    {}

    lemma NothingOwed(tbuf: array?<byte>, toff: nat, buf: array<byte>, at: nat, chunk: nat, continuation: seq<byte>,
                      total: seq<byte>)
      requires at <= buf.Length && Owed(tbuf, toff, buf, at, at, 0, chunk, continuation, total)
      ensures HasSent(tbuf, toff, total)
    {}

    /** One turn of the send loop. Since the loop began only the bytes from `safe` on may differ from `was`. */
    method SendNext(tbuf: array?<byte>, toff: nat, buf: array<byte>, hdr: nat, at: nat, left: nat, chunk: nat,
                    continuation: seq<byte>, ghost total: seq<byte>, ghost was: seq<byte>, ghost safe: int)
      returns (toff': nat, hdr': nat, at': nat, left': nat, chunk': nat)
      requires hdr < at && at + left <= buf.Length && 1 <= |continuation| <= 3 && at >= 2
      requires Owed(tbuf, toff, buf, hdr, at, left, chunk, continuation, total)
      requires SameAround(was, buf[..], safe, at + left) && (left > chunk ==> safe <= at + chunk - |continuation|)
      requires tbuf != null ==> tbuf != buf && |total| <= tbuf.Length
      modifies this`wire, tbuf, buf
      ensures tbuf != null ==> wire == old(wire)
      ensures hdr' <= at' && at <= at' && at' + left' == at + left && left' == left - chunk'
      ensures chunk' == (if left < chunk then left else chunk)
      ensures if hdr' == at' then left' == 0 else chunk' == outChunkSize && left' < left
      ensures Owed(tbuf, toff', buf, hdr', at', left', chunk', continuation, total)
      ensures SameAround(was, buf[..], safe, at + left)
    {
      hide Chunks, SameAround;
      chunk' := if left < chunk then left else chunk;
      ghost var mid := buf[..];
      ghost var sent, front, rest;
      toff', hdr', sent, front, rest :=
        SendChunk(tbuf, toff, buf, hdr, at, left, chunk', continuation, at + left,
                  if tbuf == null then wire else tbuf[..toff], buf[hdr..at], buf[at..at + left]);
      at', left' := at + chunk', left - chunk';
      SameAroundBoth(was, mid, buf[..], safe, at + left, at' - (if left' == 0 then 0 else |continuation|), at');
    }

    /**
     The send loop, for direct writes and for one HTTP request. `header` and `hSize` delimit the
     header built in front of the body, which is buf[header + hSize..header + hSize + n].
     */
    method SendLoop(tbuf: array?<byte>, buf: array<byte>, header: nat, hSize: nat, n: nat, continuation: seq<byte>,
                    ghost total: seq<byte>)
      returns (toff: nat)
      requires outChunkSize > 0
      requires hSize > 0 && header + hSize + n <= buf.Length
      requires 1 <= |continuation| <= 3 && header + hSize >= 2
      requires tbuf != null ==> tbuf != buf && |total| <= tbuf.Length
      requires Owed(tbuf, 0, buf, header, header + hSize, n, outChunkSize, continuation, total)
      modifies this`wire, tbuf, buf
      ensures HasSent(tbuf, toff, total)
      ensures tbuf != null ==> wire == old(wire)
      ensures var body := header + hSize;
        SameAround(old(buf[..]), buf[..], body + Untouched(n, outChunkSize, |continuation|), body + n)
    {
      var hdr: nat, at: nat, left: nat, chunk: nat := header, header + hSize, n, outChunkSize;
      ghost var safe, end, was := at + Untouched(n, chunk, |continuation|), at + n, buf[..];
      toff := 0;
      assert SameAround(was, buf[..], safe, end) && (n > chunk ==> safe == at + chunk - |continuation|);
      hide *;
      while left + (at - hdr) > 0
        invariant hdr <= at && at + left == end && header + hSize <= at
        invariant if hdr == at then left == 0 else chunk == outChunkSize
        invariant Owed(tbuf, toff, buf, hdr, at, left, chunk, continuation, total)
        invariant tbuf != null ==> wire == old(wire)
        invariant SameAround(was, buf[..], safe, end)
        decreases left, at - hdr
      {
        toff, hdr, at, left, chunk := SendNext(tbuf, toff, buf, hdr, at, left, chunk, continuation, total, was, safe);
      }
      NothingOwed(tbuf, toff, buf, at, chunk, continuation, total);
    }

    method WriteChunks(buf: array<byte>, header: nat, hSize: nat, n: nat, continuation: seq<byte>)
      requires outChunkSize > 0
      requires hSize > 0 && header + hSize + n <= buf.Length
      requires 1 <= |continuation| <= 3 && header + hSize >= 2
      modifies this`wire, buf
      ensures wire == old(wire) + (old(buf[header..header + hSize])
                      + Chunks(old(buf[header + hSize..header + hSize + n]), outChunkSize, continuation))
      ensures var body := header + hSize;
        SameAround(old(buf[..]), buf[..], body + Untouched(n, outChunkSize, |continuation|), body + n)
    {
      ghost var body := buf[header + hSize..header + hSize + n];
      ghost var owed := buf[header..header + hSize] + Chunks(body, outChunkSize, continuation);
      var tbuf := NewRequest(hSize, n, |continuation|, body, continuation);
      ghost var total := (if tbuf == null then wire else []) + owed;
      assert tbuf != null ==> total == owed;
      AllOwed(tbuf, buf, header, header + hSize, n, continuation, total);
      var toff := SendLoop(tbuf, buf, header, hSize, n, continuation, total);
      if tbuf != null {
        wire := wire + tbuf[..toff];
      }
    }

    /**
     Sends the packet whose body starts 18 bytes into `mem` (RTMPPacket_Alloc's headroom), or which has
     no body memory at all. The caller's packet keeps the header type that was chosen.
     */
    method SendPacket(packet: PacketHeader, mem: array?<byte>) returns (ok: bool)
      requires outChunkSize > 0 && packet.channel <= 65599
      requires if mem == null then packet.bodySize == 0 else MAX_HEADER_SIZE + packet.bodySize <= mem.Length
      modifies this`wire, this`channelsOut, mem
      ensures ok == (packet.headerType <= 3)
      ensures !ok ==> wire == old(wire) && channelsOut == old(channelsOut) && (mem != null ==> mem[..] == old(mem[..]))
      ensures ok ==>
        var m := WithBody(packet, old(BodyOf(packet, mem)));
        wire == old(wire) + WireBytes(old(State()), m) && State() == AfterSend(old(State()), m)
      ensures ok && mem != null ==>
        var untouched := Untouched(packet.bodySize, outChunkSize, 1 + ChannelBytes(packet.channel));
        forall p | MAX_HEADER_SIZE <= p < MAX_HEADER_SIZE + untouched :: mem[p] == old(mem[p])
    {
      if packet.headerType > 3 {
        return false;
      }
      var prev := State().Prev(packet.channel);
      var headerType, t := ChosenType(prev, packet), TimestampField(prev, packet);
      var buf := mem;
      if buf == null {
        buf := new byte[MAX_HEADER_SIZE];
      }
      ghost var body := BodyOf(packet, mem);
      var header := BuildHeader(packet, headerType, t, buf, MAX_HEADER_SIZE);
      assert buf[MAX_HEADER_SIZE..MAX_HEADER_SIZE + packet.bodySize] == body;
      label Built:
      WriteChunks(buf, header, MAX_HEADER_SIZE - header, packet.bodySize, BasicHeader(MINIMUM, packet.channel));
      ghost var untouched := Untouched(packet.bodySize, outChunkSize, 1 + ChannelBytes(packet.channel));
      assert forall p | MAX_HEADER_SIZE <= p < MAX_HEADER_SIZE + untouched ::
          buf[p] == buf[..][p] == old@Built(buf[..])[p];
      channelsOut := channelsOut[packet.channel := packet.(headerType := headerType)];
      ok := true;
    }

    /** sendChunkSize: switches first and announces afterwards, on channel 2 with a LARGE header. */
    method SendChunkSize(chunkSize: int32) returns (ok: bool)
      requires chunkSize > 0
      modifies this`wire, this`channelsOut, this`outChunkSize
      ensures ok
      ensures var st := old(State()).(chunkSize := chunkSize);
        wire == old(wire) + WireBytes(st, Announcement(chunkSize)) && State() == AfterSend(st, Announcement(chunkSize))
    {
      var pbuf := new byte[384];
      outChunkSize := chunkSize;
      Store(pbuf, MAX_HEADER_SIZE, EncodeInt32(chunkSize));
      ok := SendPacket(Announcement(chunkSize).Header(), pbuf);
    }
  }

  /** The "set chunk size" message: packet type 1, four bytes of body. */
  function Announcement(chunkSize: int32): Message {
    Message(LARGE, 1, 2, 0, 0, EncodeInt32(chunkSize))
  }

  function BodyOf(packet: PacketHeader, mem: array?<byte>): (body: seq<byte>)
    requires if mem == null then packet.bodySize == 0 else MAX_HEADER_SIZE + packet.bodySize <= mem.Length
    reads mem
    ensures |body| == packet.bodySize
  {
    if mem == null then [] else mem[MAX_HEADER_SIZE..MAX_HEADER_SIZE + packet.bodySize]
  }

  function WithBody(h: PacketHeader, body: seq<byte>): (m: Message)
    ensures |body| == h.bodySize ==> m.Header() == h && m.body == body
  {
    Message(h.headerType, h.packetType, h.channel, h.timestamp, h.info, body)
  }
}
