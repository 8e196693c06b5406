/**
 RTMP_Write undoes what Read_1_Packet does: the tags the reader makes, written in pieces,
 become the packets they were made from (librtmp/rtmp.c:4136-4170, 4254-4258, 4406-4491).
 */
module FlvRebuild {
  import opened Wrappers
  import opened Bytes
  import opened PacketTypes
  import opened FlvAggregate
  import opened FlvWriter
  import opened ChunkFormat

  /** Data tags need two bytes, or the name put in front of them does not fit its own check. */
  predicate Writable(t: Tag) {
    ValidTag(t) && !IsFlvHeader(HeaderBytes(t)) && (t.tagType == INFO ==> |t.payload| >= 2)
  }

  predicate AllWritable(ts: seq<Tag>) {
    ValidTags(ts) && forall t | t in ts :: Writable(t)
  }

  /** Bytes of the packet's body that come before the tag's payload. */
  function Lead(t: Tag): seq<byte> {
    if t.tagType == INFO then Amf0.FullString(SET_DATA_FRAME) else []
  }

  /** The packet a tag stands for. */
  function Rebuilt(t: Tag, info: int32): Message {
    var media := t.tagType == AUDIO || t.tagType == VIDEO;
    var keyed := (media && t.timestamp == 0) || t.tagType == INFO;
    Message(if keyed then LARGE else MEDIUM, t.tagType, SOURCE_CHANNEL, t.timestamp, info, Lead(t) + t.payload)
  }

  /** On channel 4, with a full header for data and for the first audio and video; data get the name in front. */
  lemma RebuiltIs(t: Tag, info: int32)
    ensures Rebuilt(t, info)
            == Message(if t.tagType == 18 || ((t.tagType == 8 || t.tagType == 9) && t.timestamp == 0) then 0 else 1,
                       t.tagType, 4, t.timestamp, info,
                       (if t.tagType == 18 then [2, 0, 13] + SET_DATA_FRAME else []) + t.payload)
    ensures Text(SET_DATA_FRAME) == "@setDataFrame"
  {}

  function AllRebuilt(ts: seq<Tag>, info: int32): seq<Message> {
    if ts == [] then [] else [Rebuilt(ts[0], info)] + AllRebuilt(ts[1..], info)
  }

  // ----- one tag -----

  /** The packet while `m` bytes of the payload are there. */
  function HeldBack(t: Tag, m: nat, info: int32): Pending
    requires m <= |t.payload|
  {
    Partial(Rebuilt(t, info).Header(), Lead(t) + t.payload[..m])
  }

  lemma HeadParses(t: Tag, rest: seq<byte>, info: int32)
    requires Writable(t)
    ensures var b := HeaderBytes(t) + rest;
      && Skipped(b) == 0 && HeadOf(b, info) == Rebuilt(t, info).Header()
      && Prefix(HeadOf(b, info)) == Some(Lead(t)) && b[TAG_HEADER..] == rest
  {
    TagFields(t, rest);
    var b := HeaderBytes(t) + rest;
    assert b[0] == b[..4][0] && b[..3] == HeaderBytes(t)[..3];
    assert |Lead(t)| == if t.tagType == INFO then 16 else 0;
  }

  lemma JoinsUp(lead: seq<byte>, s: seq<byte>, m: nat, k: nat)
    requires m <= k <= |s|
    ensures lead + s[..m] + s[m..k] == lead + s[..k]
  {}

  lemma FillsTag(t: Tag, m: nat, rest: seq<byte>, size: nat, info: int32)
    requires Writable(t) && m <= |t.payload| && Digest(Idle, rest, size, info).Some?
    ensures Fill(Rebuilt(t, info).Header(), Lead(t) + t.payload[..m], t.payload[m..] + EncodeInt32(t.trailer) + rest,
                 size, info)
      == Some(Digest(Idle, rest, size, info).value.Behind([Rebuilt(t, info)]))
  {
    hide Lead, Digest, Prefix, HeadOf;
    var b := t.payload[m..] + EncodeInt32(t.trailer) + rest;
    var num := |t.payload| - m;
    assert b[..num] == t.payload[m..|t.payload|];
    JoinsUp(Lead(t), t.payload, m, |t.payload|);
    assert t.payload[..|t.payload|] == t.payload;
    assert b[num + 4..] == rest;
  }

  lemma FillsPart(t: Tag, m: nat, k: nat, size: nat, info: int32)
    requires Writable(t) && m <= k < |t.payload|
    ensures Fill(Rebuilt(t, info).Header(), Lead(t) + t.payload[..m], t.payload[m..k], size, info)
      == Some(Outcome(if Lead(t) + t.payload[..k] == [] then Idle else HeldBack(t, k, info), [], size))
  {
    hide Lead, Digest, Prefix, HeadOf;
    var b := t.payload[m..k];
    assert b[..k - m] == b;
    JoinsUp(Lead(t), t.payload, m, k);
  }

  /** A cut inside the tag that RTMP_Write can resume from: it has bytes of the body already, and lacks some. */
  predicate InBody(t: Tag, k: nat) {
    TAG_HEADER <= k < TAG_HEADER + |t.payload| && k - TAG_HEADER + |Lead(t)| > 0
  }

  predicate Resumable(t: Tag, k: nat) {
    k == 0 || InBody(t, k)
  }

  function At(t: Tag, k: nat, info: int32): Pending
    requires Resumable(t, k)
  {
    if k == 0 then Idle else HeldBack(t, k - TAG_HEADER, info)
  }

  function Length(t: Tag): nat {
    TAG_HEADER + |t.payload| + 4
  }

  lemma TagSlices(t: Tag, m: nat)
    requires ValidTag(t) && m <= |t.payload|
    ensures |TagBytes(t)| == Length(t)
    ensures TagBytes(t) == HeaderBytes(t) + (t.payload + EncodeInt32(t.trailer))
    ensures TagBytes(t)[TAG_HEADER + m..] == t.payload[m..] + EncodeInt32(t.trailer)
  {
    var rest := t.payload + EncodeInt32(t.trailer);
    assert TagBytes(t) == HeaderBytes(t) + rest;
    assert TagBytes(t)[TAG_HEADER + m..] == rest[m..];
  }

  lemma DigestsHeader(b: seq<byte>, size: nat, info: int32)
    requires size >= TAG_HEADER && |b| >= TAG_HEADER && Skipped(b) == 0
    requires var h := HeadOf(b, info); Prefix(h).Some? && |Prefix(h).value| <= h.bodySize
    ensures var h := HeadOf(b, info);
      Digest(Idle, b, size, info) == Fill(h, Prefix(h).value, b[TAG_HEADER..], size, info)
  {
    hide Fill, HeadOf, Prefix, Skipped;
    assert b[0..] == b;
  }

  lemma DigestsMore(h: PacketHeader, got: seq<byte>, b: seq<byte>, size: nat, info: int32)
    requires |got| < h.bodySize && b != []
    ensures Digest(Partial(h, got), b, size, info) == Fill(h, got, b, size, info)
  {}

  /** The rest of a tag completes its packet. */
  lemma TagEnd(t: Tag, k: nat, rest: seq<byte>, size: nat, info: int32)
    requires Writable(t) && Resumable(t, k) && (k == 0 ==> size >= TAG_HEADER) && Digest(Idle, rest, size, info).Some?
    ensures k <= |TagBytes(t)|
    ensures Digest(At(t, k, info), TagBytes(t)[k..] + rest, size, info)
      == Some(Digest(Idle, rest, size, info).value.Behind([Rebuilt(t, info)]))
  {
    hide Digest, Fill, HeaderBytes, TagBytes, HeadOf, Prefix, Skipped, Lead;
    if k == 0 {
      var tail := t.payload + EncodeInt32(t.trailer) + rest;
      TagSlices(t, 0);
      FillsTag(t, 0, rest, size, info);
      assert TagBytes(t)[0..] + rest == HeaderBytes(t) + tail;
      HeadParses(t, tail, info);
      assert t.payload[0..] == t.payload && Lead(t) + t.payload[..0] == Lead(t);
      DigestsHeader(HeaderBytes(t) + tail, size, info);
    } else {
      var m := k - TAG_HEADER;
      TagSlices(t, m);
      FillsTag(t, m, rest, size, info);
      DigestsMore(Rebuilt(t, info).Header(), Lead(t) + t.payload[..m], TagBytes(t)[k..] + rest, size, info);
    }
  }

  /** A part of a tag leaves its packet under way. */
  lemma TagPart(t: Tag, from: nat, to: nat, size: nat, info: int32)
    requires Writable(t) && Resumable(t, from) && InBody(t, to) && from < to && (from == 0 ==> size >= TAG_HEADER)
    ensures to <= |TagBytes(t)|
    ensures Digest(At(t, from, info), TagBytes(t)[from..to], size, info) == Some(Outcome(At(t, to, info), [], size))
  {
    hide Digest, Fill, HeaderBytes, TagBytes, HeadOf, Prefix, Skipped, Lead;
    var k := to - TAG_HEADER;
    if from == 0 {
      TagSlices(t, 0);
      FillsPart(t, 0, k, size, info);
      assert TagBytes(t)[0..to] == HeaderBytes(t) + t.payload[..k];
      HeadParses(t, t.payload[..k], info);
      assert t.payload[0..k] == t.payload[..k] && Lead(t) + t.payload[..0] == Lead(t);
      DigestsHeader(HeaderBytes(t) + t.payload[..k], size, info);
    } else {
      var m := from - TAG_HEADER;
      TagSlices(t, m);
      FillsPart(t, m, k, size, info);
      assert TagBytes(t)[from..to] == TagBytes(t)[from..][..k - m] == t.payload[m..k];
      DigestsMore(Rebuilt(t, info).Header(), Lead(t) + t.payload[..m], t.payload[m..k], size, info);
    }
  }

  lemma RestWritable(ts: seq<Tag>)
    requires AllWritable(ts) && ts != []
    ensures Writable(ts[0]) && AllWritable(ts[1..])
  {}

  // ----- a stream of tags, cut into pieces -----

  /** A cut at a tag boundary or inside a tag's body. */
  predicate CutOk(ts: seq<Tag>, k: nat) {
    k == 0 || (ts != [] && (InBody(ts[0], k) || (k >= Length(ts[0]) && CutOk(ts[1..], k - Length(ts[0])))))
  }

  function PendingAt(ts: seq<Tag>, k: nat, info: int32): (p: Pending)
    requires CutOk(ts, k)
    ensures p.Proper()
  {
    if k == 0 then Idle
    else if k < Length(ts[0]) then At(ts[0], k, info)
    else PendingAt(ts[1..], k - Length(ts[0]), info)
  }

  /** The packets complete before the cut. */
  function DoneAt(ts: seq<Tag>, k: nat, info: int32): seq<Message>
    requires CutOk(ts, k)
  {
    if k == 0 || k < Length(ts[0]) then [] else [Rebuilt(ts[0], info)] + DoneAt(ts[1..], k - Length(ts[0]), info)
  }

  function Size(ts: seq<Tag>): nat {
    if ts == [] then 0 else Length(ts[0]) + Size(ts[1..])
  }

  lemma {:induction false} SizeIsLength(ts: seq<Tag>)
    requires ValidTags(ts)
    ensures |Concat(ts)| == Size(ts)
  {
    if ts != [] {
      TagSlices(ts[0], 0);
      SizeIsLength(ts[1..]);
    }
  }

  lemma {:induction false} CutInside(ts: seq<Tag>, k: nat)
    requires CutOk(ts, k)
    ensures k <= Size(ts)
  {
    if k > 0 && k >= Length(ts[0]) {
      CutInside(ts[1..], k - Length(ts[0]));
    }
  }

  lemma {:induction false} WholeCut(ts: seq<Tag>, info: int32)
    ensures CutOk(ts, Size(ts))
    ensures PendingAt(ts, Size(ts), info) == Idle && DoneAt(ts, Size(ts), info) == AllRebuilt(ts, info)
  {
    if ts != [] {
      WholeCut(ts[1..], info);
    }
  }

  /** What a call for the bytes from one cut to another does. */
  predicate Advances(o: Option<Outcome>, ts: seq<Tag>, from: nat, to: nat, size: nat, info: int32)
    requires CutOk(ts, from) && CutOk(ts, to)
  {
    && o.Some? && o.value.pending == PendingAt(ts, to, info) && o.value.result == size
    && DoneAt(ts, from, info) + o.value.sent == DoneAt(ts, to, info)
  }

  lemma {:induction false} PieceAdvances(ts: seq<Tag>, from: nat, to: nat, size: nat, info: int32)
    requires AllWritable(ts) && CutOk(ts, from) && CutOk(ts, to) && from <= to && to - from <= size
    ensures to <= |Concat(ts)|
    ensures Advances(Digest(PendingAt(ts, from, info), Concat(ts)[from..to], size, info), ts, from, to, size, info)
    decreases |ts|
  {
    hide Digest, TagBytes, Rebuilt, At, Lead;
    SizeIsLength(ts);
    CutInside(ts, to);
    var b := Concat(ts)[from..to];
    if from == to {
      DigestEnd(PendingAt(ts, from, info), size, info);
    } else {
      var t, rest, n := ts[0], ts[1..], Length(ts[0]);
      RestWritable(ts);
      TagSlices(t, 0);
      if from >= n {
        PieceAdvances(rest, from - n, to - n, size, info);
        assert b == Concat(rest)[from - n..to - n];
        ghost var sent := Digest(PendingAt(ts, from, info), b, size, info).value.sent;
        assert [Rebuilt(t, info)] + DoneAt(rest, from - n, info) + sent
            == [Rebuilt(t, info)] + (DoneAt(rest, from - n, info) + sent);
      } else if to < n {
        PieceWithin(ts, from, to, size, info);
      } else {
        PieceAdvances(rest, 0, to - n, size, info);
        PieceAcross(ts, from, to, size, info);
      }
    }
  }

  lemma PieceWithin(ts: seq<Tag>, from: nat, to: nat, size: nat, info: int32)
    requires AllWritable(ts) && ts != [] && CutOk(ts, from) && CutOk(ts, to)
    requires from < to <= |Concat(ts)| && to - from <= size
    requires to < Length(ts[0])
    ensures Advances(Digest(PendingAt(ts, from, info), Concat(ts)[from..to], size, info), ts, from, to, size, info)
  {
    RestWritable(ts);
    TagSlices(ts[0], 0);
    TagPart(ts[0], from, to, size, info);
    assert Concat(ts)[from..to] == TagBytes(ts[0])[from..to];
  }

  lemma Across(a: seq<byte>, b: seq<byte>, from: nat, to: nat)
    requires from <= |a| <= to <= |a| + |b|
    ensures (a + b)[from..to] == a[from..] + b[..to - |a|]
  {}

  lemma PieceAcross(ts: seq<Tag>, from: nat, to: nat, size: nat, info: int32)
    requires AllWritable(ts) && ts != [] && CutOk(ts, from) && CutOk(ts, to)
    requires from < Length(ts[0]) <= to <= |Concat(ts)| && to - from <= size
    requires to - Length(ts[0]) <= |Concat(ts[1..])|
    requires var left := to - Length(ts[0]);
      Advances(Digest(Idle, Concat(ts[1..])[..left], size, info), ts[1..], 0, left, size, info)
    ensures Advances(Digest(PendingAt(ts, from, info), Concat(ts)[from..to], size, info), ts, from, to, size, info)
  {
    hide Digest, TagBytes, Rebuilt, Lead, Writable;
    var t, rest, k := ts[0], ts[1..], to - Length(ts[0]);
    RestWritable(ts);
    TagSlices(t, 0);
    TagEnd(t, from, Concat(rest)[..k], size, info);
    Across(TagBytes(t), Concat(rest), from, to);
    var o := Digest(Idle, Concat(rest)[..k], size, info).value;
    assert [] + o.sent == o.sent && DoneAt(rest, 0, info) == [];
    assert [] + o.Behind([Rebuilt(t, info)]).sent == [Rebuilt(t, info)] + o.sent;
  }

  // ----- runs of RTMP_Write calls -----

  /** Calls one after another; None when one reads outside its bytes or does not take all of them. */
  function Feed(p: Pending, pieces: seq<seq<byte>>, info: int32): Option<(Pending, seq<Message>)>
    requires p.Proper()
    decreases |pieces|
  {
    if pieces == [] then Some((p, []))
    else
      match Digest(p, pieces[0], |pieces[0]|, info)
      case None => None
      case Some(o) =>
        if o.result != |pieces[0]| then None
        else
          match Feed(o.pending, pieces[1..], info)
          case None => None
          case Some(r) => Some((r.0, o.sent + r.1))
  }

  /** The pieces put together are the stream from `k` on, and each ends at a good cut. */
  ghost predicate Cuts(ts: seq<Tag>, k: nat, pieces: seq<seq<byte>>)
    requires ValidTags(ts)
    decreases |pieces|
  {
    if pieces == [] then k == |Concat(ts)|
    else
      var to := k + |pieces[0]|;
      to <= |Concat(ts)| && pieces[0] == Concat(ts)[k..to] && CutOk(ts, to) && Cuts(ts, to, pieces[1..])
  }

  lemma {:induction false} PiecesRebuild(ts: seq<Tag>, k: nat, pieces: seq<seq<byte>>, info: int32)
    requires AllWritable(ts) && CutOk(ts, k) && Cuts(ts, k, pieces)
    ensures var r := Feed(PendingAt(ts, k, info), pieces, info);
      r.Some? && r.value.0 == Idle && DoneAt(ts, k, info) + r.value.1 == AllRebuilt(ts, info)
    decreases |pieces|
  {
    hide Digest, TagBytes, Rebuilt, DoneAt, CutOk, Writable, Concat;
    if pieces == [] {
      SizeIsLength(ts);
      WholeCut(ts, info);
    } else {
      var to := k + |pieces[0]|;
      PieceAdvances(ts, k, to, |pieces[0]|, info);
      PiecesRebuild(ts, to, pieces[1..], info);
      hide AllWritable, AllRebuilt, PendingAt, Cuts;
      FeedStep(PendingAt(ts, k, info), pieces, info, DoneAt(ts, k, info));
    }
  }

  /** The first call, then the others. */
  lemma FeedStep(p: Pending, pieces: seq<seq<byte>>, info: int32, done: seq<Message>)
    requires p.Proper() && pieces != []
    requires var o := Digest(p, pieces[0], |pieces[0]|, info);
      o.Some? && o.value.result == |pieces[0]| && Feed(o.value.pending, pieces[1..], info).Some?
    ensures var o := Digest(p, pieces[0], |pieces[0]|, info).value;
      var r, later := Feed(p, pieces, info), Feed(o.pending, pieces[1..], info).value;
      r.Some? && r.value.0 == later.0 && done + r.value.1 == done + o.sent + later.1
  {
    hide Digest;
    var o := Digest(p, pieces[0], |pieces[0]|, info).value;
    var later := Feed(o.pending, pieces[1..], info).value;
    assert done + (o.sent + later.1) == done + o.sent + later.1;
  }

  // ----- tags made by the reader -----

  /** An audio, video or data packet that the reader passes on. */
  predicate Passed(p: FlvReader.MediaPacket) {
    FlvReader.Framed(p) && !FlvReader.TooSmall(p) && |p.body| < TWO_24 && (p.packetType == INFO ==> |p.body| >= 2)
  }

  predicate AllPassed(ps: seq<FlvReader.MediaPacket>) {
    forall p | p in ps :: Passed(p)
  }

  function TagOf(p: FlvReader.MediaPacket): Tag {
    Tag(p.packetType, p.timestamp, [0, 0, 0], p.body, Wrap(TAG_HEADER + |p.body|))
  }

  function TagsOf(ps: seq<FlvReader.MediaPacket>): (ts: seq<Tag>)
    requires AllPassed(ps)
    ensures ValidTags(ts)
  {
    if ps == [] then []
    else
      var rest := TagsOf(ps[1..]);
      assert Passed(ps[0]) && ValidTag(TagOf(ps[0]));
      [TagOf(ps[0])] + rest
  }

  function ArrivalsOf(ps: seq<FlvReader.MediaPacket>): seq<FlvReader.Arrival> {
    if ps == [] then [] else [FlvReader.Media(ps[0])] + ArrivalsOf(ps[1..])
  }

  lemma TagIsOutput(p: FlvReader.MediaPacket)
    requires Passed(p)
    ensures ValidTag(TagOf(p)) && Writable(TagOf(p)) && TagBytes(TagOf(p)) == FlvReader.Output(p)
  {
    hide StampBytes, EncodeInt24, EncodeInt32;
    assert HeaderBytes(TagOf(p))[..3][0] == p.packetType;
  }

  lemma {:induction false} TagsAreOutputs(ps: seq<FlvReader.MediaPacket>)
    requires AllPassed(ps)
    ensures AllWritable(TagsOf(ps)) && Concat(TagsOf(ps)) == FlvReader.Outputs(ArrivalsOf(ps))
  {
    hide TagBytes, FlvReader.Output, Writable, TagOf;
    if ps != [] {
      TagIsOutput(ps[0]);
      TagsAreOutputs(ps[1..]);
      assert ArrivalsOf(ps)[1..] == ArrivalsOf(ps[1..]);
      assert TagsOf(ps)[1..] == TagsOf(ps[1..]);
    }
  }

  /** An FLV header in front of the first tag makes no difference. */
  lemma HeaderSkipped(t: Tag, rest: seq<byte>, header: seq<byte>, size: nat, info: int32)
    requires Writable(t) && |header| == FLV_HEADER_SIZE && IsFlvHeader(header) && size >= TAG_HEADER
    ensures Digest(Idle, header + (HeaderBytes(t) + rest), size, info)
            == Digest(Idle, HeaderBytes(t) + rest, size, info)
  {
    HeadParses(t, rest, info);
    var b := HeaderBytes(t) + rest;
    assert (header + b)[..3] == header[..3];
    assert (header + b)[FLV_HEADER_SIZE..] == b;
    assert (header + b)[FLV_HEADER_SIZE + TAG_HEADER..] == b[TAG_HEADER..];
  }

  /**
   Written in any pieces with good cuts, the FLV file of a run of packets becomes those packets:
   same types, timestamps and bodies, in order.
   */
  lemma WriteUndoesRead(ps: seq<FlvReader.MediaPacket>, header: seq<byte>, first: seq<byte>, more: seq<seq<byte>>,
                        info: int32)
    requires AllPassed(ps) && |header| == FLV_HEADER_SIZE && IsFlvHeader(header)
    requires first != [] && Cuts(TagsOf(ps), 0, [first] + more)
    ensures Concat(TagsOf(ps)) == FlvReader.Outputs(ArrivalsOf(ps))
    ensures Feed(Idle, [header + first] + more, info) == Some((Idle, AllRebuilt(TagsOf(ps), info)))
  {
    hide Digest, Rebuilt, TagBytes, HeaderBytes, FlvReader.Outputs, IsFlvHeader, Writable;
    var ts, n := TagsOf(ps), |first|;
    TagsAreOutputs(ps);
    PiecesRebuild(ts, 0, [first] + more, info);
    PieceAdvances(ts, 0, n, n, info);
    PieceAdvances(ts, 0, n, FLV_HEADER_SIZE + n, info);
    FirstPiece(ts, first);
    HeaderSkipped(ts[0], first[TAG_HEADER..], header, FLV_HEADER_SIZE + n, info);
    assert ([first] + more)[1..] == more && ([header + first] + more)[1..] == more;
    var o, o' := Digest(Idle, first, n, info).value, Digest(Idle, header + first, FLV_HEADER_SIZE + n, info).value;
    assert [] + o.sent == o.sent && [] + o'.sent == o'.sent;
    var r := Feed(PendingAt(ts, n, info), more, info).value;
    assert [] + (o.sent + r.1) == o.sent + r.1;
  }

  lemma FirstPiece(ts: seq<Tag>, first: seq<byte>)
    requires AllWritable(ts) && first != [] && CutOk(ts, |first|)
    requires |first| <= |Concat(ts)| && first == Concat(ts)[..|first|]
    ensures ts != [] && |first| >= TAG_HEADER && first == HeaderBytes(ts[0]) + first[TAG_HEADER..]
  {
    TagSlices(ts[0], 0);
  }

  /** A first piece of a tag leaves the packet under way exactly at the good cuts; at others it is lost or cut short. */
  lemma ResumesIff(t: Tag, k: nat, info: int32)
    requires Writable(t) && 0 < k < Length(t)
    ensures k <= |TagBytes(t)|
    ensures var o := Digest(Idle, TagBytes(t)[..k], k, info);
      o.Some? && ((o.value.pending != Idle && o.value.result == k) <==> InBody(t, k))
  {
    TagSlices(t, 0);
    if InBody(t, k) {
      TagPart(t, 0, k, k, info);
    } else if k >= TAG_HEADER {
      var rest := TagBytes(t)[TAG_HEADER..k];
      assert TagBytes(t)[..k] == HeaderBytes(t) + rest;
      HeadParses(t, rest, info);
    }
  }

  /** Whole tags in one call, behind an FLV header or not, become their packets; the result is the call's size. */
  lemma WholeTags(ts: seq<Tag>, header: seq<byte>, info: int32)
    requires AllWritable(ts) && ts != [] && |header| == 13 && header[..3] == [0x46, 0x4C, 0x56]
    ensures var b := Concat(ts);
      && Digest(Idle, b, |b|, info) == Some(Outcome(Idle, AllRebuilt(ts, info), |b|))
      && Digest(Idle, header + b, 13 + |b|, info) == Some(Outcome(Idle, AllRebuilt(ts, info), 13 + |b|))
  {
    assert IsFlvHeader(header) && FLV_HEADER_SIZE == 13 && TAG_HEADER == 11;
    hide *;
    var rest := HeadAhead(ts);
    var size := 13 + |Concat(ts)|;
    TagsDigest(ts, |Concat(ts)|, info);
    TagsDigest(ts, size, info);
    HeaderSkipped(ts[0], rest, header, size, info);
  }

  lemma HeadAhead(ts: seq<Tag>) returns (rest: seq<byte>)
    requires AllWritable(ts) && ts != []
    ensures Writable(ts[0]) && Concat(ts) == HeaderBytes(ts[0]) + rest
  {
    rest := ts[0].payload + EncodeInt32(ts[0].trailer) + Concat(ts[1..]);
    hide HeaderBytes, EncodeInt32;
  }

  lemma TagsDigest(ts: seq<Tag>, size: nat, info: int32)
    requires AllWritable(ts) && size >= |Concat(ts)|
    ensures Digest(Idle, Concat(ts), size, info) == Some(Outcome(Idle, AllRebuilt(ts, info), size))
  {
    var b := Concat(ts);
    SizeIsLength(ts);
    WholeCut(ts, info);
    PieceAdvances(ts, 0, |b|, size, info);
    assert b[0..|b|] == b && PendingAt(ts, 0, info) == Idle && DoneAt(ts, 0, info) == [];
    var sent := Digest(Idle, b, size, info).value.sent;
    assert [] + sent == sent;
    hide Digest, Concat;
  }

  /** A call of fewer than eleven bytes between two tags takes nothing. */
  lemma ShortCall(b: seq<byte>, size: nat, info: int32)
    requires 0 < |b| && size < 11
    ensures Digest(Idle, b, size, info) == Some(Outcome(Idle, [], 0))
  {}
}
