/**
 The FLV byte stream that RTMP_Read hands out in pieces of the caller's choice
 (librtmp/rtmp.c:3828-4402), for connections without resume or seek.
 */
module FlvReader {
  import opened Wrappers
  import opened Bytes
  import opened Memory
  import opened PacketTypes
  import opened FlvAggregate
  import opened Sequences

  const HEADERBUF := 131072
  const FLV_HEADER: seq<byte> := [0x46, 0x4C, 0x56, 1, 0, 0, 0, 0, 9, 0, 0, 0, 0]

  /** A packet from RTMP_GetNextMediaPacket, and what HandleMetadata found in it. */
  datatype MediaPacket = MediaPacket(packetType: byte, timestamp: uint32, body: seq<byte>,
                                     hintsAudio: bool, hintsVideo: bool)

  /** What the connection yields next; it has ended when nothing is left. */
  datatype Arrival = Media(p: MediaPacket) | PlayComplete

  predicate Framed(p: MediaPacket) {
    p.packetType == AUDIO || p.packetType == VIDEO || p.packetType == INFO
  }

  predicate TooSmall(p: MediaPacket) {
    (p.packetType == VIDEO && |p.body| <= 5) || (p.packetType == AUDIO && |p.body| <= 1)
  }

  function TagHead(p: MediaPacket): seq<byte> {
    if Framed(p) then [p.packetType] + EncodeInt24(|p.body|) + StampBytes(p.timestamp) + [0, 0, 0] else []
  }

  function FirstStamp(body: seq<byte>): uint32 {
    if |body| >= 8 then StampOf(body) else 0
  }

  function Delta(p: MediaPacket): int {
    p.timestamp - FirstStamp(p.body)
  }

  function Content(p: MediaPacket, spare: seq<byte>): seq<byte>
    requires |spare| == 4
  {
    if p.packetType == AGGREGATE then Rewritten(p.body, spare, Delta(p)) else p.body
  }

  function TagSize(p: MediaPacket): seq<byte> {
    if p.packetType == AGGREGATE then [] else EncodeInt32(if Framed(p) then TAG_HEADER + |p.body| else 0)
  }

  const NO_SPARE: seq<byte> := [0, 0, 0, 0]

  /** The bytes one packet contributes to the stream. */
  function Output(p: MediaPacket): seq<byte> {
    if TooSmall(p) then [] else OutputOver(p, NO_SPARE)
  }

  /** The same in memory where `spare` lay behind the copied body. */
  function OutputOver(p: MediaPacket, spare: seq<byte>): seq<byte>
    requires |spare| == 4
  {
    TagHead(p) + Content(p, spare) + TagSize(p)
  }

  /** `size` as computed before an aggregate may grow by its last trailing size. */
  function Nominal(p: MediaPacket): nat {
    |TagHead(p)| + |p.body| + |TagSize(p)|
  }

  /** Audio and video are noted even for packets too small to be passed on. */
  function Noted(p: MediaPacket, seen: Seen): Seen {
    Seen(seen.stamp, seen.audio || p.hintsAudio || p.packetType == AUDIO,
         seen.video || p.hintsVideo || p.packetType == VIDEO)
  }

  function Stamped(p: MediaPacket, seen: Seen): Seen {
    seen.(stamp := if p.packetType == AGGREGATE then FirstStamp(p.body) else if Framed(p) then p.timestamp else 0)
  }

  function Built(p: MediaPacket, seen: Seen): Seen {
    if p.packetType == AGGREGATE then AllSeen(p.body, Delta(p), seen) else seen
  }

  function NewSeen(p: MediaPacket, seen: Seen, live: bool): Seen {
    if TooSmall(p) then Noted(p, seen)
    else
      var after := Built(p, Stamped(p, Noted(p, seen)));
      if live then after.(stamp := p.timestamp) else after
  }

  /** Everything the rest of the connection contributes. */
  function Outputs(arrivals: seq<Arrival>): seq<byte> {
    if arrivals == [] || arrivals[0].PlayComplete? then []
    else Output(arrivals[0].p) + Outputs(arrivals[1..])
  }

  /** Only an aggregate that ends within a trailing size shows what lay behind it. */
  predicate Tidy(p: MediaPacket) {
    p.packetType == AGGREGATE ==> Clean(p.body)
  }

  predicate AllClean(arrivals: seq<Arrival>) {
    forall a | a in arrivals && a.Media? :: |a.p.body| < TWO_24 && Tidy(a.p)
  }

  method BuildPlain(p: MediaPacket, ptr: array<byte>, q: nat)
    requires q + Nominal(p) <= ptr.Length && p.packetType != AGGREGATE
    modifies ptr
    ensures ptr[q..q + Nominal(p)] == TagHead(p) + p.body + TagSize(p)
    ensures forall i | 0 <= i < ptr.Length && (i < q || i >= q + Nominal(p)) :: ptr[i] == old(ptr[i])
  {
    hide TagHead, TagSize;
    StoreTwo(ptr, q, TagHead(p) + p.body, TagSize(p));
  }

  method BuildAggregate(p: MediaPacket, ptr: array<byte>, q: nat, seen: Seen) returns (size: nat, seen': Seen)
    requires q + |p.body| + 4 <= ptr.Length
    modifies ptr
    ensures size == |p.body| + Added(p.body)
    ensures ptr[q..q + size] == Rewritten(p.body, old(ptr[q + |p.body|..q + |p.body| + 4]), Delta(p))
    ensures seen' == AllSeen(p.body, Delta(p), seen)
    ensures forall i | 0 <= i < ptr.Length && (i < q || i >= q + |p.body| + 4) :: ptr[i] == old(ptr[i])
  {
    hide AllSeen, Rewrite, Added;
    ghost var spare := ptr[q + |p.body|..q + |p.body| + 4];
    Store(ptr, q, p.body);
    assert ptr[q + |p.body|..q + |p.body| + 4] == spare;
    var added;
    added, seen' := RewriteTags(p.body, ptr, q, Delta(p), seen);
    size := |p.body| + added;
    assert ptr[q..q + size] == ptr[q..q + |p.body| + 4][..size];
  }

  lemma OutputParts(p: MediaPacket, spare: seq<byte>)
    requires !TooSmall(p) && |spare| == 4
    ensures p.packetType == AGGREGATE ==>
      && OutputOver(p, spare) == Rewritten(p.body, spare, Delta(p)) && Nominal(p) == |p.body|
      && |Output(p)| == |p.body| + Added(p.body)
    ensures p.packetType != AGGREGATE ==>
      OutputOver(p, spare) == Output(p) == TagHead(p) + p.body + TagSize(p) && |Output(p)| == Nominal(p)
  {
    assert p.packetType == AGGREGATE ==> TagHead(p) == [] && TagSize(p) == [];
    hide Rewritten, TagHead, TagSize;
    RewrittenLength(p.body, NO_SPARE, Delta(p));
  }

  lemma TidyIgnoresSpare(p: MediaPacket, spare: seq<byte>)
    requires !TooSmall(p) && Tidy(p) && |spare| == 4
    ensures OutputOver(p, spare) == Output(p)
  {
    if p.packetType == AGGREGATE {
      CleanIgnoresSpare(p.body, spare, NO_SPARE, Delta(p));
    }
    hide Rewritten, Clean;
  }

  /** Builds the packet's tag at ptr[q..], where there is room for four bytes more. */
  method BuildTag(p: MediaPacket, ptr: array<byte>, q: nat, seen: Seen) returns (size: nat, seen': Seen)
    requires q + Nominal(p) + 4 <= ptr.Length && !TooSmall(p)
    modifies ptr
    ensures size == |Output(p)| <= Nominal(p) + 4
    ensures q + |p.body| + 4 <= ptr.Length
    ensures ptr[q..q + size] == OutputOver(p, old(ptr[q + |p.body|..q + |p.body| + 4]))
    ensures Tidy(p) ==> ptr[q..q + size] == Output(p)
    ensures seen' == Built(p, seen)
    ensures forall i | 0 <= i < ptr.Length && (i < q || i >= q + Nominal(p) + 4) :: ptr[i] == old(ptr[i])
  {
    assert |p.body| <= Nominal(p);
    ghost var spare := ptr[q + |p.body|..q + |p.body| + 4];
    OutputParts(p, spare);
    assert Built(p, seen) == if p.packetType == AGGREGATE then AllSeen(p.body, Delta(p), seen) else seen;
    hide *;
    if p.packetType == AGGREGATE {
      size, seen' := BuildAggregate(p, ptr, q, seen);
    } else {
      BuildPlain(p, ptr, q);
      size, seen' := Nominal(p), seen;
    }
    if Tidy(p) {
      TidyIgnoresSpare(p, spare);
    }
  }

  lemma RewrittenLength(r: seq<byte>, spare: seq<byte>, delta: int)
    requires |spare| == 4
    ensures |Rewritten(r, spare, delta)| == |r| + Added(r)
  {}

  /** The first tag's timestamp is what the aggregate's is compared with. */
  lemma FirstStampOf(t: Tag, rest: seq<byte>)
    requires ValidTag(t)
    ensures FirstStamp(HeaderBytes(t) + rest) == t.timestamp
  {
    TagFields(t, rest);
  }

  lemma FirstStampOfTags(ts: seq<Tag>, rest: seq<byte>)
    requires ValidTags(ts) && ts != []
    ensures FirstStamp(Concat(ts) + rest) == ts[0].timestamp
  {
    var t, more := ts[0], Concat(ts[1..]) + rest;
    hide HeaderBytes, FirstStamp, EncodeInt32;
    assert Concat(ts) + rest == HeaderBytes(t) + (t.payload + EncodeInt32(t.trailer) + more);
    FirstStampOf(t, t.payload + EncodeInt32(t.trailer) + more);
  }

  /** An aggregate of complete tags comes out as those tags, moved so that the first has the packet's timestamp. */
  lemma AggregateOutput(p: MediaPacket, ts: seq<Tag>)
    requires p.packetType == AGGREGATE && ValidTags(ts) && ts != [] && p.body == Concat(ts)
    ensures var repaired := AllRepaired(ts, p.timestamp - ts[0].timestamp);
      repaired[0].timestamp == p.timestamp && Output(p) == Concat(repaired)
  {
    hide *;
    FirstRepaired(ts, p.timestamp);
    FirstStampWhole(ts);
    RewrittenWhole(ts, p.timestamp - ts[0].timestamp);
    OutputOfAggregate(p);
  }

  lemma FirstRepaired(ts: seq<Tag>, stamp: uint32)
    requires ValidTags(ts) && ts != []
    ensures AllRepaired(ts, stamp - ts[0].timestamp)[0].timestamp == stamp
  {
    assert Wrap(ts[0].timestamp + (stamp - ts[0].timestamp)) == stamp;
  }

  lemma FirstStampWhole(ts: seq<Tag>)
    requires ValidTags(ts) && ts != []
    ensures FirstStamp(Concat(ts)) == ts[0].timestamp
  {
    FirstStampOfTags(ts, []);
    assert Concat(ts) + [] == Concat(ts);
    hide Concat, FirstStamp;
  }

  lemma RewrittenWhole(ts: seq<Tag>, delta: int)
    requires ValidTags(ts)
    ensures Rewritten(Concat(ts), NO_SPARE, delta) == Concat(AllRepaired(ts, delta))
  {
    AggregateOfTags(ts, NO_SPARE, delta);
    RepairedLength(ts, delta);
    hide Rewrite, Added, Concat, AllRepaired;
  }

  /** The same when the last tag lacks its trailing size but has a payload. */
  lemma UntrailedAggregateOutput(p: MediaPacket, ts: seq<Tag>)
    requires p.packetType == AGGREGATE && ValidTags(ts) && ts != [] && ts[|ts| - 1].payload != []
    requires p.body == Concat(ts[..|ts| - 1]) + Untrailed(ts[|ts| - 1])
    ensures Output(p) == Concat(AllRepaired(ts, p.timestamp - ts[0].timestamp))
  {
    hide *;
    FirstStampUntrailed(ts);
    OutputOfAggregate(p);
    RewrittenUntrailed(ts, p.timestamp - ts[0].timestamp);
  }

  lemma RewrittenUntrailed(ts: seq<Tag>, delta: int)
    requires ValidTags(ts) && ts != [] && ts[|ts| - 1].payload != []
    ensures Rewritten(Concat(ts[..|ts| - 1]) + Untrailed(ts[|ts| - 1]), NO_SPARE, delta)
            == Concat(AllRepaired(ts, delta))
  {
    LastSizeAppendedIff(ts[..|ts| - 1], ts[|ts| - 1], NO_SPARE, delta);
    RepairedWithLast(ts, delta);
    hide Rewritten, Concat, AllRepaired, Untrailed, TagBytes;
  }

  lemma OutputOfAggregate(p: MediaPacket)
    requires p.packetType == AGGREGATE
    ensures Output(p) == Rewritten(p.body, NO_SPARE, p.timestamp - FirstStamp(p.body))
  {
    hide Rewritten, FirstStamp;
  }

  lemma FirstStampUntrailed(ts: seq<Tag>)
    requires ValidTags(ts) && ts != []
    ensures FirstStamp(Concat(ts[..|ts| - 1]) + Untrailed(ts[|ts| - 1])) == ts[0].timestamp
  {
    var front, last := ts[..|ts| - 1], ts[|ts| - 1];
    if front == [] {
      FirstStampOf(last, last.payload);
      assert Concat(front) + Untrailed(last) == HeaderBytes(last) + last.payload;
    } else {
      FirstStampOfTags(front, Untrailed(last));
    }
  }

  lemma {:induction false} RepairedWithLast(ts: seq<Tag>, delta: int)
    requires ValidTags(ts) && ts != []
    ensures var front, last := ts[..|ts| - 1], ts[|ts| - 1];
      Concat(AllRepaired(ts, delta)) == Concat(AllRepaired(front, delta)) + TagBytes(Repaired(last, delta))
    decreases |ts|
  {
    hide TagBytes;
    var rs := AllRepaired(ts, delta);
    assert rs[1..] == AllRepaired(ts[1..], delta);
    if |ts| == 1 {
      assert ts[..0] == [] && ts[1..] == [];
    } else {
      RepairedWithLast(ts[1..], delta);
      assert ts[..|ts| - 1][1..] == ts[1..][..|ts| - 2];
      assert AllRepaired(ts[..|ts| - 1], delta)[1..] == AllRepaired(ts[1..][..|ts| - 2], delta);
    }
  }

  // ----- the start of the stream -----

  /** The bytes buffered before the first read returns, and where the connection then stands. */
  datatype Started = Started(bytes: seq<byte>, arrivals: seq<Arrival>, seen: Seen)

  /**
   Packets are collected behind the FLV header until a timestamp is known or both audio and video
   have been seen; None when the connection ends first. A packet that does not fit the start-up
   buffer ends the collection, and the header's length is left out of the offset it is copied to.
   */
  function Startup(arrivals: seq<Arrival>, seen: Seen, live: bool, acc: seq<byte>): (r: Option<Started>)
    requires |acc| >= |FLV_HEADER|
    ensures r.Some? ==> |r.value.bytes| >= |FLV_HEADER|
    decreases |arrivals|
  {
    if seen.stamp != 0 then Some(Started(acc, arrivals, seen))
    else if arrivals == [] || arrivals[0].PlayComplete? then None
    else
      var p := arrivals[0].p;
      var seen', rest := NewSeen(p, seen, live), arrivals[1..];
      if !TooSmall(p) && |acc| + Nominal(p) + 4 > HEADERBUF then
        Some(Started(acc[..|acc| - |FLV_HEADER|] + Output(p), rest, seen'))
      else if seen'.audio && seen'.video then Some(Started(acc + Output(p), rest, seen'))
      else Startup(rest, seen', live, acc + Output(p))
  }

  /** Whether all packets collected at the start fit. */
  predicate StartupFits(arrivals: seq<Arrival>, seen: Seen, live: bool, size: nat)
    decreases |arrivals|
  {
    seen.stamp != 0 || arrivals == [] || arrivals[0].PlayComplete?
    || (var p := arrivals[0].p;
        var seen' := NewSeen(p, seen, live);
        && (TooSmall(p) || size + Nominal(p) + 4 <= HEADERBUF)
        && ((seen'.audio && seen'.video) || StartupFits(arrivals[1..], seen', live, size + |Output(p)|)))
  }

  /** The header byte that says which kinds of data follow. */
  function DataType(seen: Seen): byte {
    (if seen.audio then 4 else 0) + (if seen.video then 1 else 0)
  }

  /** The whole stream of a connection that has not been read from yet. */
  function Stream(arrivals: seq<Arrival>, seen: Seen, live: bool): seq<byte> {
    match Startup(arrivals, seen, live, FLV_HEADER)
    case None => []
    case Some(st) => Patched(st) + Outputs(st.arrivals)
  }

  function Patched(st: Started): seq<byte>
    requires |st.bytes| >= |FLV_HEADER|
  {
    st.bytes[4 := DataType(st.seen)]
  }

  function Min(a: nat, b: nat): nat {
    if a < b then a else b
  }

  ghost predicate Window(buf: array?<byte>, pos: nat, len: nat) {
    buf != null ==> pos + len <= buf.Length
  }

  function Held(buf: array?<byte>, pos: nat, len: nat): seq<byte>
    requires Window(buf, pos, len)
    reads buf
  {
    if buf == null then [] else buf[pos..pos + len]
  }

  /** `out` went to dest[at..] as far as there is room; the rest is held back. */
  ghost predicate Delivered(out: seq<byte>, dest: array<byte>, at: nat, room: nat,
                            buf: array?<byte>, pos: nat, len: nat)
    requires at + room <= dest.Length
    reads buf, dest
  {
    var n := Min(|out|, room);
    && Window(buf, pos, len) && |Held(buf, pos, len)| == |out| - n
    && dest[at..at + n] == out[..n] && Held(buf, pos, len) == out[n..]
  }

  lemma NothingDelivered(dest: array<byte>, at: nat, room: nat, buf: array?<byte>, pos: nat, len: nat)
    requires at + room <= dest.Length && Window(buf, pos, len) && Held(buf, pos, len) == []
    ensures Delivered([], dest, at, room, buf, pos, len)
  {}

  lemma AllDelivered(out: seq<byte>, dest: array<byte>, at: nat, room: nat, pos: nat, len: nat)
    requires at + room <= dest.Length && Delivered(out, dest, at, room, null, pos, len)
    ensures |out| <= room && dest[at..at + |out|] == out
  {}

  lemma HeldSize(buf: array?<byte>, pos: nat, len: nat)
    requires Window(buf, pos, len)
    ensures |Held(buf, pos, len)| == if buf == null then 0 else len
  {}

  lemma OutputsStep(arrivals: seq<Arrival>)
    ensures arrivals == [] || arrivals[0].PlayComplete? ==> Outputs(arrivals) == []
    ensures arrivals != [] && arrivals[0].Media? ==>
      && Outputs(arrivals) == Output(arrivals[0].p) + Outputs(arrivals[1..])
      && (Output(arrivals[0].p) == [] ==> Outputs(arrivals) == Outputs(arrivals[1..]))
  {
    hide Output;
    if arrivals != [] && arrivals[0].Media? {
      assert [] + Outputs(arrivals[1..]) == Outputs(arrivals[1..]);
    }
  }

  /** As much of `own` as there is room for stands in `dest`, and the rest of it is held. */
  lemma FirstPartDelivered(own: array<byte>, ret: nat, dest: array<byte>, at: nat, room: nat)
    requires ret <= own.Length && at + room <= dest.Length
    requires var n := Min(ret, room); dest[at..at + n] == own[..n]
    ensures Delivered(own[..ret], dest, at, room, own, Min(ret, room), ret - Min(ret, room))
  {
    var n := Min(ret, room);
    assert own[..n] == own[..ret][..n] && own[n..ret] == own[..ret][n..];
  }

  lemma DeliveredJoins(out: seq<byte>, dest: array<byte>, at: nat, room: nat, buf: array?<byte>, pos: nat, len: nat,
                       later: seq<byte>)
    requires at + room <= dest.Length && Delivered(out, dest, at, room, buf, pos, len)
    ensures |Held(buf, pos, len)| + Min(|out|, room) == |out|
    ensures out == [] ==> Held(buf, pos, len) == []
    ensures dest[at..at + Min(|out|, room)] + (Held(buf, pos, len) + later) == out + later
  {
    SplitJoins(out, Min(|out|, room), later);
  }

  class FlvSource {
    var arrivals: seq<Arrival>
    const live: bool
    // m_read.buf, bufpos and buflen: bytes that did not fit the caller's buffer.
    var buf: array?<byte>
    var bufpos: nat
    var buflen: nat
    // m_read.timestamp and m_read.dataType.
    var seen: Seen
    var headerDone: bool
    // 0 while reading goes on, else the code that ended it.
    var status: int

    constructor (arrivals: seq<Arrival>, live: bool)
      requires AllClean(arrivals)
      ensures Valid() && this.arrivals == arrivals && this.live == live && seen == Seen(0, false, false)
      ensures !headerDone && status == 0 && buf == null
    {
      this.arrivals, this.live := arrivals, live;
      buf, bufpos, buflen := null, 0, 0;
      seen, headerDone, status := Seen(0, false, false), false, 0;
    }

    ghost predicate Valid()
      reads this
    {
      && AllClean(arrivals)
      && Buffered() && (buf != null ==> headerDone) && status <= 0
    }

    ghost predicate Buffered()
      reads this
    {
      Window(buf, bufpos, buflen)
    }

    ghost function Leftover(): seq<byte>
      requires Buffered()
      reads this, buf
    {
      Held(buf, bufpos, buflen)
    }

    /** The tag is built in a buffer of its own; the caller gets what fits. */
    method Overflow(p: MediaPacket, dest: array<byte>, at: nat, room: nat, s: Seen) returns (ret: nat, seen': Seen)
      requires at + room <= dest.Length && !TooSmall(p) && Tidy(p)
      modifies this`buf, this`bufpos, this`buflen, dest
      ensures buf != null && fresh(buf) && bufpos + buflen == ret <= buf.Length && buf[..ret] == Output(p)
      ensures ret == |Output(p)| && seen' == Built(p, s)
      ensures Delivered(Output(p), dest, at, room, buf, bufpos, buflen)
      ensures forall i | 0 <= i < dest.Length && (i < at || i >= at + room) :: dest[i] == old(dest[i])
    {
      hide Output, Nominal, Built, TooSmall, Clean, Tidy, Delivered;
      var own := new byte[Nominal(p) + 4];
      ret, seen' := BuildTag(p, own, 0, s);
      var len := Min(ret, room);
      Store(dest, at, own[..len]);
      buf, bufpos, buflen := own, len, ret - len;
      assert own[..ret] == own[0..ret];
      FirstPartDelivered(own, ret, dest, at, room);
    }

    /** The tag goes to `dest` if that has room for it and four bytes more. */
    method ReadTag(p: MediaPacket, dest: array<byte>, at: nat, room: nat, s: Seen) returns (ret: nat, seen': Seen)
      requires Buffered() && Leftover() == [] && at + room <= dest.Length && !TooSmall(p) && Tidy(p)
      modifies this`buf, this`bufpos, this`buflen, dest
      ensures ret == |Output(p)| && seen' == Built(p, s)
      ensures if Nominal(p) + 4 <= room
        then buf == old(buf) && bufpos == old(bufpos) && buflen == old(buflen)
        else buf != null && fresh(buf) && bufpos + buflen == ret <= buf.Length && buf[..ret] == Output(p)
      ensures Delivered(Output(p), dest, at, room, buf, bufpos, buflen)
      ensures forall i | 0 <= i < dest.Length && (i < at || i >= at + room) :: dest[i] == old(dest[i])
    {
      hide Output, Nominal, Built, TooSmall, Clean, Tidy;
      if Nominal(p) + 4 > room {
        ret, seen' := Overflow(p, dest, at, room, s);
      } else {
        ret, seen' := BuildTag(p, dest, at, s);
      }
    }

    /** What one media packet does: its tag goes to `dest`, and what does not fit stays in a buffer of its own. */
    method ReadMedia(p: MediaPacket, dest: array<byte>, at: nat, room: nat) returns (ret: nat)
      requires Buffered() && Leftover() == [] && at + room <= dest.Length && Tidy(p)
      modifies this`buf, this`bufpos, this`buflen, this`seen, dest
      ensures ret == |Output(p)| && seen == NewSeen(p, old(seen), live)
      ensures if TooSmall(p) || Nominal(p) + 4 <= room
        then buf == old(buf) && bufpos == old(bufpos) && buflen == old(buflen)
        else buf != null && fresh(buf) && bufpos + buflen == ret <= buf.Length && buf[..ret] == Output(p)
      ensures Delivered(Output(p), dest, at, room, buf, bufpos, buflen)
      ensures forall i | 0 <= i < dest.Length && (i < at || i >= at + room) :: dest[i] == old(dest[i])
    {
      assert TooSmall(p) ==> Output(p) == [];
      hide Output, Nominal, Noted, Stamped, Built, TooSmall, Clean, Tidy, Delivered;
      seen := Noted(p, seen);
      if TooSmall(p) {
        NothingDelivered(dest, at, room, buf, bufpos, buflen);
        return 0;
      }
      var after;
      ret, after := ReadTag(p, dest, at, room, Stamped(p, seen));
      seen := if live then after.(stamp := p.timestamp) else after;
    }

    /** Read_1_Packet; it is called only when nothing is left over. */
    method Read1Packet(dest: array<byte>, at: nat, room: nat) returns (ret: int)
      requires AllClean(arrivals) && Buffered() && Leftover() == [] && at + room <= dest.Length
      modifies this`arrivals, this`buf, this`bufpos, this`buflen, this`seen, dest
      ensures AllClean(arrivals)
      ensures if old(arrivals) == [] || old(arrivals)[0].PlayComplete?
        then ret < 0 && arrivals == [] && seen == old(seen)
          && buf == old(buf) && bufpos == old(bufpos) && buflen == old(buflen)
        else
          var p := old(arrivals)[0].p;
          && ret == |Output(p)| && arrivals == old(arrivals)[1..] && seen == NewSeen(p, old(seen), live)
          && (if TooSmall(p) || Nominal(p) + 4 <= room
              then buf == old(buf) && bufpos == old(bufpos) && buflen == old(buflen)
              else buf != null && fresh(buf) && bufpos + buflen == ret <= buf.Length && buf[..ret] == Output(p))
          && Delivered(Output(p), dest, at, room, buf, bufpos, buflen)
      ensures forall i | 0 <= i < dest.Length && (i < at || i >= at + room) :: dest[i] == old(dest[i])
    {
      hide Output, Nominal, TooSmall, NewSeen, Delivered;
      if arrivals == [] {
        return -1;
      }
      var next := arrivals[0];
      if next.PlayComplete? {
        arrivals := [];
        return -3;
      }
      arrivals := arrivals[1..];
      ret := ReadMedia(next.p, dest, at, room);
    }

    /** What is still to be handed out. */
    ghost function Remaining(): seq<byte>
      requires Valid()
      reads this, buf
    {
      if status != 0 then []
      else if headerDone then Leftover() + Outputs(arrivals)
      else Stream(arrivals, seen, live)
    }

    /** The tag that did not fit replaces the header's length of bytes before it. */
    method Spill(mybuf: array<byte>, pos: nat, ret: nat, ghost acc: seq<byte>, ghost out: seq<byte>)
      requires |FLV_HEADER| <= pos <= mybuf.Length && mybuf[..pos] == acc
      requires buf != null && ret <= buf.Length && buf[..ret] == out && pos + ret > 2 * |FLV_HEADER|
      modifies this`buf, this`bufpos, this`buflen
      ensures buf != null && fresh(buf) && bufpos == 0 && buflen == buf.Length
      ensures buf[..] == acc[..pos - |FLV_HEADER|] + out
    {
      var count := pos - |FLV_HEADER|;
      var whole := new byte[count + ret];
      assert mybuf[..count] == acc[..count];
      StoreTwo(whole, 0, mybuf[..count], buf[..ret]);
      assert whole[..] == whole[0..count + ret];
      buf, bufpos, buflen := whole, 0, count + ret;
    }

    /** It fits: the bytes now start with those collected before and this packet's. */
    lemma Collected(mybuf: array<byte>, pos: nat, acc: seq<byte>, out: seq<byte>)
      requires pos <= mybuf.Length && mybuf[..pos] == acc
      requires Delivered(out, mybuf, pos, mybuf.Length - pos, null, bufpos, buflen)
      ensures pos + |out| <= mybuf.Length && mybuf[..pos + |out|] == acc + out
    {
      AllDelivered(out, mybuf, pos, mybuf.Length - pos, bufpos, buflen);
      assert mybuf[..pos + |out|] == mybuf[..pos] + mybuf[pos..pos + |out|];
    }

    /** One packet of the start goes behind the bytes collected so far, or replaces the buffer if it does not fit. */
    method CollectOne(mybuf: array<byte>, pos: nat) returns (nRead: int)
      requires AllClean(arrivals) && buf == null && |FLV_HEADER| <= pos <= mybuf.Length == HEADERBUF
      modifies this`arrivals, this`buf, this`bufpos, this`buflen, this`seen, mybuf
      ensures AllClean(arrivals)
      ensures if old(arrivals) == [] || old(arrivals)[0].PlayComplete? then nRead < 0 && buf == null
        else
          var p, acc := old(arrivals)[0].p, old(mybuf[..pos]);
          && nRead == |Output(p)| && arrivals == old(arrivals)[1..] && seen == NewSeen(p, old(seen), live)
          && (buf == null <==> TooSmall(p) || pos + Nominal(p) + 4 <= HEADERBUF)
          && (buf == null ==> pos + nRead <= mybuf.Length && mybuf[..pos + nRead] == acc + Output(p))
          && (buf != null ==>
                && fresh(buf) && bufpos == 0 && buflen == buf.Length
                && buf[..] == acc[..pos - |FLV_HEADER|] + Output(p))
    {
      hide NewSeen, Output, Nominal, TooSmall, Outputs;
      if arrivals != [] && arrivals[0].Media? && !TooSmall(arrivals[0].p) {
        OutputLength(arrivals[0].p);
      }
      ghost var acc := mybuf[..pos];
      assert Buffered() && Leftover() == [];
      hide Held, Window, Min, Delivered, AllClean;
      nRead := Read1Packet(mybuf, pos, mybuf.Length - pos);
      assert mybuf[..pos] == acc;
      if buf != null {
        Spill(mybuf, pos, nRead, acc, Output(old(arrivals)[0].p));
      } else if nRead >= 0 {
        Collected(mybuf, pos, acc, Output(old(arrivals)[0].p));
      }
    }

    /** The first read collects packets behind the FLV header. */
    method Collect() returns (found: bool)
      requires AllClean(arrivals) && buf == null
      modifies this`arrivals, this`buf, this`bufpos, this`buflen, this`seen, this`status
      ensures AllClean(arrivals)
      ensures match old(Startup(arrivals, seen, live, FLV_HEADER))
        case None => !found && status < 0 && buf == null
        case Some(st) =>
          && found && buf != null && fresh(buf) && bufpos == 0 && buflen <= buf.Length && Leftover() == st.bytes
          && arrivals == st.arrivals && seen == st.seen && status == old(status)
    {
      hide Startup, NewSeen, Output, Nominal, TooSmall, AllClean;
      var mybuf := new byte[HEADERBUF];
      Store(mybuf, 0, FLV_HEADER);
      var pos := |FLV_HEADER|;
      assert mybuf[..pos] == mybuf[0..pos];
      ghost var goal := Startup(arrivals, seen, live, FLV_HEADER);
      while seen.stamp == 0
        invariant buf == null && status == old(status) && AllClean(arrivals) && |FLV_HEADER| <= pos <= mybuf.Length
        invariant Startup(arrivals, seen, live, mybuf[..pos]) == goal
        decreases |arrivals|
      {
        StartupStep(arrivals, seen, live, mybuf[..pos]);
        var nRead := CollectOne(mybuf, pos);
        if nRead < 0 {
          status := nRead;
          return false;
        }
        if buf != null {
          assert buf[..] == buf[0..buf.Length];
          return true;
        }
        pos := pos + nRead;
        if seen.audio && seen.video {
          assert mybuf[..pos] == mybuf[0..pos];
          buf, bufpos, buflen := mybuf, 0, pos;
          return true;
        }
      }
      StartupEnd(arrivals, seen, live, mybuf[..pos]);
      assert mybuf[..pos] == mybuf[0..pos];
      buf, bufpos, buflen, found := mybuf, 0, pos, true;
    }

    /** Startup and the header byte saying which data follow. */
    method Begin() returns (found: bool)
      requires Valid() && !headerDone && status == 0 && buf == null
      modifies this
      ensures Valid() && Remaining() == old(Remaining())
      ensures if found then headerDone && status == 0 && buf != null && fresh(buf) else buf == null && Remaining() == []
    {
      hide Startup, Outputs, AllClean;
      found := Collect();
      if found {
        ghost var bytes := Leftover();
        buf[4] := DataType(seen);
        headerDone := true;
        assert Leftover() == bytes[4 := DataType(seen)];
      }
    }

    /** The first `n` bytes held are gone; an empty buffer is given up. */
    method Forget(n: nat)
      requires Buffered() && buf != null && n <= buflen
      modifies this`buf, this`bufpos, this`buflen
      ensures Buffered() && (buf == null || buf == old(buf)) && Leftover() == old(Leftover())[n..]
    {
      buflen := buflen - n;
      if buflen == 0 {
        buf, bufpos := null, 0;
      } else {
        bufpos := bufpos + n;
      }
    }

    /** Leftovers go first. */
    method TakeLeftover(dest: array<byte>, at: nat, size: nat) returns (n: nat)
      requires Valid() && at + size <= dest.Length && buf != dest
      modifies this`buf, this`bufpos, this`buflen, dest
      ensures Valid() && n == Min(size, |old(Leftover())|) && n <= size && n <= |old(Leftover())|
      ensures dest[at..at + n] == old(Leftover())[..n] && Leftover() == old(Leftover())[n..]
      ensures (buf == null || buf == old(buf)) && (n < size ==> n == |old(Leftover())| && Leftover() == [])
      ensures forall i | 0 <= i < dest.Length && (i < at || i >= at + n) :: dest[i] == old(dest[i])
    {
      hide AllClean;
      if buf == null {
        return 0;
      }
      n := Min(buflen, size);
      assert buf[bufpos..bufpos + n] == Leftover()[..n];
      Store(dest, at, buf[bufpos..bufpos + n]);
      Forget(n);
    }

    /** One call of Read_1_Packet, seen from the stream. */
    method Advance(dest: array<byte>, at: nat, size: nat) returns (nRead: int)
      requires AllClean(arrivals) && Buffered() && Leftover() == [] && at + size <= dest.Length
      modifies this`arrivals, this`buf, this`bufpos, this`buflen, this`seen, dest
      ensures AllClean(arrivals) && Buffered()
      ensures nRead < 0 ==> arrivals == [] && Outputs(arrivals) == [] && Leftover() == []
      ensures nRead < 0 ==> old(Outputs(arrivals)) == []
      ensures nRead >= 0 ==>
        && |arrivals| < old(|arrivals|) && |Leftover()| + Min(nRead, size) == nRead
        && dest[at..at + Min(nRead, size)] + (Leftover() + Outputs(arrivals)) == old(Outputs(arrivals))
      ensures nRead == 0 ==> Leftover() == [] && Outputs(arrivals) == old(Outputs(arrivals))
      ensures forall i | 0 <= i < dest.Length && (i < at || i >= at + size) :: dest[i] == old(dest[i])
    {
      hide Output, NewSeen, TooSmall, Nominal, Outputs, Delivered, Min, AllClean, Held;
      ghost var before := arrivals;
      OutputsStep(before);
      OutputsStep([]);
      HeldSize(buf, bufpos, buflen);
      nRead := Read1Packet(dest, at, size);
      if nRead >= 0 {
        DeliveredJoins(Output(before[0].p), dest, at, size, buf, bufpos, buflen, Outputs(arrivals));
      } else {
        HeldSize(buf, bufpos, buflen);
      }
    }

    /** Packets are read until one yields bytes; packets without output are skipped. */
    method SkipEmpty(dest: array<byte>, at: nat, size: nat) returns (nRead: int)
      requires AllClean(arrivals) && Buffered() && Leftover() == [] && at + size <= dest.Length
      modifies this`arrivals, this`buf, this`bufpos, this`buflen, this`seen, dest
      ensures AllClean(arrivals) && Buffered() && nRead != 0
      ensures nRead < 0 ==> arrivals == [] && Leftover() == [] && old(Outputs(arrivals)) == []
      ensures nRead > 0 ==> dest[at..at + Min(nRead, size)] + (Leftover() + Outputs(arrivals)) == old(Outputs(arrivals))
      ensures forall i | 0 <= i < dest.Length && (i < at || i >= at + size) :: dest[i] == old(dest[i])
    {
      hide Outputs, AllClean, Held, Window;
      nRead := Advance(dest, at, size);
      while nRead == 0
        invariant AllClean(arrivals) && Buffered()
        invariant nRead <= 0 ==> Leftover() == [] && Outputs(arrivals) == old(Outputs(arrivals))
        invariant nRead < 0 ==> arrivals == [] && old(Outputs(arrivals)) == []
        invariant nRead > 0 ==>
                    dest[at..at + Min(nRead, size)] + (Leftover() + Outputs(arrivals)) == old(Outputs(arrivals))
        invariant forall i | 0 <= i < dest.Length && (i < at || i >= at + size) :: dest[i] == old(dest[i])
        decreases |arrivals| + if nRead == 0 then 1 else 0
      {
        nRead := Advance(dest, at, size);
      }
    }

    method ReadMore(dest: array<byte>, at: nat, size: nat) returns (n: nat)
      requires Valid() && headerDone && status == 0 && Leftover() == [] && at + size <= dest.Length && size > 0
      modifies this`arrivals, this`buf, this`bufpos, this`buflen, this`seen, this`status, dest
      ensures Valid() && n <= size && (n == 0 ==> Remaining() == [])
      ensures dest[at..at + n] + Remaining() == old(Remaining())
      ensures forall i | 0 <= i < dest.Length && (i < at || i >= at + size) :: dest[i] == old(dest[i])
    {
      hide Outputs, AllClean, Held, Window;
      assert Remaining() == Outputs(arrivals);
      var nRead := SkipEmpty(dest, at, size);
      if nRead < 0 {
        status := nRead;
        return 0;
      }
      n := Min(nRead, size);
    }

    /** What leftovers give to the stream. */
    method TakeFirst(dest: array<byte>, at: nat, size: nat) returns (n: nat)
      requires Valid() && headerDone && status == 0 && at + size <= dest.Length && buf != dest
      modifies this`buf, this`bufpos, this`buflen, dest
      ensures Valid() && n <= size && (n < size ==> Leftover() == [])
      ensures dest[at..at + n] + Remaining() == old(Remaining())
      ensures forall i | 0 <= i < dest.Length && (i < at || i >= at + n) :: dest[i] == old(dest[i])
    {
      hide Outputs, AllClean, Held, Window, Min;
      ghost var rest, later := Leftover(), Outputs(arrivals);
      n := TakeLeftover(dest, at, size);
      SplitJoins(rest, n, later);
    }

    /** Leftovers, then as many packets as it takes to have any bytes. */
    method Serve(dest: array<byte>, at: nat, size: nat) returns (total: nat)
      requires Valid() && headerDone && status == 0 && at + size <= dest.Length && buf != dest
      modifies this, dest
      ensures Valid() && total <= size && (total == 0 && size > 0 ==> Remaining() == [])
      ensures dest[at..at + total] + Remaining() == old(Remaining())
      ensures forall i | 0 <= i < dest.Length && (i < at || i >= at + size) :: dest[i] == old(dest[i])
    {
      hide *;
      total := TakeFirst(dest, at, size);
      if total < size {
        ghost var first, left := dest[at..at + total], Remaining();
        var n := ReadMore(dest, at + total, size - total);
        assert dest[at..at + total] == first;
        ReadsJoin(dest, at, total, n, first, Remaining(), left);
        total := total + n;
      }
    }

    /** Nothing more comes after the end; before the first bytes the start-up packets are collected. */
    method Ready() returns (ok: bool)
      requires Valid()
      modifies this
      ensures Valid() && Remaining() == old(Remaining()) && (buf == old(buf) || (buf != null && fresh(buf)))
      ensures if ok then headerDone && status == 0 else Remaining() == []
    {
      hide Startup, Outputs, Stream, AllClean, Held, Window;
      ok := status == 0;
      if ok && !headerDone {
        ok := Begin();
      }
    }

    /**
     RTMP_Read: however the caller chooses its buffer sizes, the bytes come out of one and the same
     stream, none lost and none twice.
     */
    method Read(dest: array<byte>, at: nat, size: nat) returns (total: nat)
      requires Valid() && at + size <= dest.Length && buf != dest
      modifies this, dest
      ensures Valid() && total <= size
      ensures dest[at..at + total] + Remaining() == old(Remaining())
      ensures total == 0 && size > 0 ==> Remaining() == []
      ensures forall i | 0 <= i < dest.Length && (i < at || i >= at + size) :: dest[i] == old(dest[i])
    {
      hide *;
      var ok := Ready();
      if ok {
        total := Serve(dest, at, size);
      } else {
        total := 0;
        assert dest[at..at] + Remaining() == Remaining();
      }
    }
  }

  lemma SplitJoins(rest: seq<byte>, n: nat, later: seq<byte>)
    requires n <= |rest|
    ensures rest[..n] + (rest[n..] + later) == rest + later
  {}

  lemma SliceJoins(a: array<byte>, at: nat, m: nat, n: nat)
    requires at + m + n <= a.Length
    ensures a[at..at + (m + n)] == a[at..at + m] + a[at + m..at + m + n]
  {}

  lemma ReadsJoin(a: array<byte>, at: nat, m: nat, n: nat, rest: seq<byte>, rem: seq<byte>, later: seq<byte>)
    requires at + m + n <= a.Length && a[at..at + m] == rest && a[at + m..at + m + n] + rem == later
    ensures a[at..at + (m + n)] + rem == rest + later
  {
    SliceJoins(a, at, m, n);
    Regroup(rest, a[at + m..at + m + n], rem);
  }

  lemma OutputLength(p: MediaPacket)
    requires !TooSmall(p)
    ensures Nominal(p) <= |Output(p)|
  {
    OutputParts(p, NO_SPARE);
  }

  lemma StartupStep(arrivals: seq<Arrival>, seen: Seen, live: bool, acc: seq<byte>)
    requires |acc| >= |FLV_HEADER| && seen.stamp == 0
    ensures if arrivals == [] || arrivals[0].PlayComplete? then Startup(arrivals, seen, live, acc) == None
      else
        var p := arrivals[0].p;
        var seen', rest := NewSeen(p, seen, live), arrivals[1..];
        && Startup(arrivals, seen, live, acc) ==
           if !TooSmall(p) && |acc| + Nominal(p) + 4 > HEADERBUF
           then Some(Started(acc[..|acc| - |FLV_HEADER|] + Output(p), rest, seen'))
           else if seen'.audio && seen'.video then Some(Started(acc + Output(p), rest, seen'))
           else Startup(rest, seen', live, acc + Output(p))
  {}

  lemma StartupEnd(arrivals: seq<Arrival>, seen: Seen, live: bool, acc: seq<byte>)
    requires |acc| >= |FLV_HEADER| && seen.stamp != 0
    ensures Startup(arrivals, seen, live, acc) == Some(Started(acc, arrivals, seen))
  {}

  // ----- whole runs -----

  method ReadOnce(source: FlvSource, size: nat) returns (got: seq<byte>)
    requires source.Valid()
    modifies source
    ensures source.Valid() && got + source.Remaining() == old(source.Remaining())
    ensures |got| <= size && (got == [] && size > 0 ==> source.Remaining() == [])
  {
    hide Outputs, Stream, AllClean, Window, Held;
    var dest := new byte[size];
    var n := source.Read(dest, 0, size);
    got := dest[..n];
    assert dest[0..0 + n] == got;
  }

  /** Any sequence of buffer sizes: what the reads return, put together, starts the stream. */
  method Drain(source: FlvSource, sizes: seq<nat>) returns (out: seq<byte>)
    requires source.Valid()
    modifies source
    ensures source.Valid() && out + source.Remaining() == old(source.Remaining())
  {
    out := [];
    for k := 0 to |sizes|
      invariant source.Valid() && out + source.Remaining() == old(source.Remaining())
    {
      var got := ReadOnce(source, sizes[k]);
      Regroup(out, got, source.Remaining());
      out := out + got;
    }
  }

  /**
   The buffered start is the header and the tags of the packets it took, exactly when they all fit;
   otherwise the header's length of bytes is missing.
   */
  lemma {:induction false} StartupKeeps(arrivals: seq<Arrival>, seen: Seen, live: bool, acc: seq<byte>)
    requires |acc| >= |FLV_HEADER| && Startup(arrivals, seen, live, acc).Some?
    ensures var st := Startup(arrivals, seen, live, acc).value;
      var got, due := st.bytes + Outputs(st.arrivals), acc + Outputs(arrivals);
      if StartupFits(arrivals, seen, live, |acc|) then got == due else |got| + |FLV_HEADER| == |due|
    decreases |arrivals|
  {
    hide NewSeen, Output, Nominal, TooSmall;
    if seen.stamp == 0 {
      StartupStep(arrivals, seen, live, acc);
      var p, rest := arrivals[0].p, arrivals[1..];
      var seen' := NewSeen(p, seen, live);
      Regroup(acc, Output(p), Outputs(rest));
      if (TooSmall(p) || |acc| + Nominal(p) + 4 <= HEADERBUF) && !(seen'.audio && seen'.video) {
        StartupKeeps(rest, seen', live, acc + Output(p));
      }
    }
  }

  /** The connection does not end while packets are still being collected for the start. */
  predicate StartupEnds(arrivals: seq<Arrival>, seen: Seen, live: bool, size: nat)
    decreases |arrivals|
  {
    seen.stamp != 0
    || (&& arrivals != [] && arrivals[0].Media?
        && (var p := arrivals[0].p;
            var seen' := NewSeen(p, seen, live);
            || (!TooSmall(p) && size + Nominal(p) + 4 > HEADERBUF)
            || (seen'.audio && seen'.video)
            || StartupEnds(arrivals[1..], seen', live, size + |Output(p)|)))
  }

  lemma {:induction false} StartupEndsIff(arrivals: seq<Arrival>, seen: Seen, live: bool, acc: seq<byte>)
    requires |acc| >= |FLV_HEADER|
    ensures Startup(arrivals, seen, live, acc).Some? <==> StartupEnds(arrivals, seen, live, |acc|)
    decreases |arrivals|
  {
    hide NewSeen, Output, Nominal, TooSmall;
    if seen.stamp == 0 && arrivals != [] && arrivals[0].Media? {
      StartupStep(arrivals, seen, live, acc);
      var p := arrivals[0].p;
      StartupEndsIff(arrivals[1..], NewSeen(p, seen, live), live, acc + Output(p));
    }
  }

  /** The stream is the header, with `d` as its data byte, and every packet's tag in order. */
  ghost predicate Whole(stream: seq<byte>, arrivals: seq<Arrival>, d: byte) {
    stream == FLV_HEADER[4 := d] + Outputs(arrivals)
  }

  /**
   The stream is whole if and only if the collecting at the start comes to an end before the
   connection does and all packets collected fit. When the connection ends first all of it is
   thrown away; when a packet does not fit, the header's length of bytes is missing.
   */
  lemma StreamExactIff(arrivals: seq<Arrival>, seen: Seen, live: bool)
    ensures var ends := StartupEnds(arrivals, seen, live, |FLV_HEADER|);
      var fits := StartupFits(arrivals, seen, live, |FLV_HEADER|);
      var stream := Stream(arrivals, seen, live);
      && ((exists d :: Whole(stream, arrivals, d)) <==> ends && fits)
      && (!ends ==> stream == [])
      && (ends && !fits ==> |stream| == |Outputs(arrivals)|)
  {
    StartupEndsIff(arrivals, seen, live, FLV_HEADER);
    if StartupEnds(arrivals, seen, live, |FLV_HEADER|) {
      StartedStream(arrivals, seen, live);
    }
    hide Startup, StartupFits, StartupEnds, Outputs;
  }

  /** The data byte says what was seen at the start. */
  lemma StartedStream(arrivals: seq<Arrival>, seen: Seen, live: bool)
    requires Startup(arrivals, seen, live, FLV_HEADER).Some?
    ensures var st, stream := Startup(arrivals, seen, live, FLV_HEADER).value, Stream(arrivals, seen, live);
      if StartupFits(arrivals, seen, live, |FLV_HEADER|) then Whole(stream, arrivals, DataType(st.seen))
      else |stream| == |Outputs(arrivals)| && stream[4] == DataType(st.seen)
  {
    hide Startup, StartupFits, Outputs;
    StartupKeeps(arrivals, seen, live, FLV_HEADER);
    var st := Startup(arrivals, seen, live, FLV_HEADER).value;
    var got, due := st.bytes + Outputs(st.arrivals), FLV_HEADER + Outputs(arrivals);
    assert Stream(arrivals, seen, live) == got[4 := DataType(st.seen)];
    assert FLV_HEADER[4 := DataType(st.seen)] + Outputs(arrivals) == due[4 := DataType(st.seen)];
  }

  /** A connection that ends after one audio packet with timestamp 0 yields nothing, although it fits. */
  lemma EarlyEndLosesAll()
    ensures var p := MediaPacket(AUDIO, 0, [0xAF, 1], false, false);
      var arrivals, seen := [Media(p)], Seen(0, false, false);
      && StartupFits(arrivals, seen, false, |FLV_HEADER|) && |Outputs(arrivals)| == 17
      && Stream(arrivals, seen, false) == []
  {
    var p := MediaPacket(AUDIO, 0, [0xAF, 1], false, false);
    var arrivals, seen := [Media(p)], Seen(0, false, false);
    assert arrivals[1..] == [] && Outputs(arrivals) == Output(p) + Outputs([]);
    StartupStep(arrivals, seen, false, FLV_HEADER);
  }
}
