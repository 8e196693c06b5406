/**
 The start of the FLV stream in terms of the packets themselves: which packets are collected before
 the first bytes are returned, and what the bytes of header and tags are
 (librtmp/rtmp.c:4095-4170, 4254-4265, 4283-4353).
 */
module FlvStartup {
  import opened Bytes
  import opened Sequences
  import opened FlvAggregate
  import opened FlvReader

  // ----- what a packet becomes -----

  /** Video of at most five bytes and audio of at most one are not passed on. */
  predicate Skipped(p: MediaPacket) {
    (p.packetType == 9 && |p.body| <= 5) || (p.packetType == 8 && |p.body| <= 1)
  }

  predicate IsTag(p: MediaPacket) {
    p.packetType == 8 || p.packetType == 9 || p.packetType == 18
  }

  function Field24(n: nat): seq<byte> {
    [n / 0x1_0000 % 0x100, n / 0x100 % 0x100, n % 0x100]
  }

  function Field32(n: nat): seq<byte> {
    [n / 0x100_0000 % 0x100, n / 0x1_0000 % 0x100, n / 0x100 % 0x100, n % 0x100]
  }

  /** Audio, video and data get a tag header and a size behind them, other packets a zero behind them. */
  lemma OutputBytes(p: MediaPacket)
    requires !Skipped(p) && p.packetType != 22
    ensures IsTag(p) ==>
      Output(p) == [p.packetType] + Field24(|p.body|) + Field24(p.timestamp) + [p.timestamp / 0x100_0000]
                   + [0, 0, 0] + p.body + Field32(11 + |p.body|)
    ensures !IsTag(p) ==> Output(p) == p.body + [0, 0, 0, 0]
  {
    assert [] + p.body == p.body;
  }

  lemma SkippedOutput(p: MediaPacket)
    ensures Skipped(p) ==> Output(p) == []
    ensures Skipped(p) <==> TooSmall(p)
  {}

  // ----- when the collecting stops -----

  predicate HasAudio(p: MediaPacket) {
    p.packetType == 8 || p.hintsAudio
  }

  predicate HasVideo(p: MediaPacket) {
    p.packetType == 9 || p.hintsVideo
  }

  /** How many packets are collected, when audio or video went by before; more than there are if it never stops. */
  function Collected(ps: seq<MediaPacket>, audio: bool, video: bool): (n: nat)
    ensures n <= |ps| + 1
  {
    if ps == [] then 1
    else
      var a, v := audio || HasAudio(ps[0]), video || HasVideo(ps[0]);
      if (a && v) || (!Skipped(ps[0]) && ps[0].timestamp != 0) then 1
      else 1 + Collected(ps[1..], a, v)
  }

  /** It stops at the first timestamp or when both kinds went by. */
  lemma {:induction false} CollectedIff(ps: seq<MediaPacket>, audio: bool, video: bool)
    ensures Collected(ps, audio, video) <= |ps| <==>
      ps != [] &&
      ((exists p :: p in ps && !Skipped(p) && p.timestamp != 0)
       || ((audio || exists p :: p in ps && HasAudio(p)) && (video || exists p :: p in ps && HasVideo(p))))
    decreases |ps|
  {
    if ps != [] {
      var p, rest := ps[0], ps[1..];
      assert forall q :: q in ps <==> q == p || q in rest;
      CollectedIff(rest, audio || HasAudio(p), video || HasVideo(p));
      hide Skipped, HasAudio, HasVideo;
    }
  }

  /** The header byte: 4 for audio, 1 for video, among the packets collected. */
  function DataByte(ps: seq<MediaPacket>): byte {
    (if exists p :: p in ps && HasAudio(p) then 4 else 0) + (if exists p :: p in ps && HasVideo(p) then 1 else 0)
  }

  function Arriving(ps: seq<MediaPacket>, rest: seq<Arrival>): seq<Arrival> {
    if ps == [] then rest else [Media(ps[0])] + Arriving(ps[1..], rest)
  }

  /** Room for tags in the buffer, with the four bytes that every packet must find free behind it. */
  function TagBytes(ps: seq<MediaPacket>): nat {
    if ps == [] then 0 else 15 + |ps[0].body| + TagBytes(ps[1..])
  }

  predicate AllTags(ps: seq<MediaPacket>) {
    forall p | p in ps :: IsTag(p)
  }

  /** One audio, video or data packet. */
  lemma TagSeen(p: MediaPacket, seen: Seen, live: bool)
    requires IsTag(p)
    ensures NewSeen(p, seen, live)
            == Seen(if Skipped(p) then seen.stamp else p.timestamp,
                    seen.audio || HasAudio(p), seen.video || HasVideo(p))
    ensures |Output(p)| <= Nominal(p) == 15 + |p.body|
  {
    SkippedOutput(p);
    if !Skipped(p) {
      OutputBytes(p);
    }
  }

  /** The first of the packets that arrive. */
  lemma FirstArrives(ps: seq<MediaPacket>, rest: seq<Arrival>)
    requires ps != []
    ensures var arrivals := Arriving(ps, rest);
      arrivals != [] && arrivals[0] == Media(ps[0]) && arrivals[1..] == Arriving(ps[1..], rest)
  {}

  /** One turn of the collecting loop, with room for the packet. */
  lemma OneTurn(arrivals: seq<Arrival>, p: MediaPacket, seen: Seen, live: bool, size: nat)
    requires arrivals != [] && arrivals[0] == Media(p) && seen.stamp == 0 && size + Nominal(p) + 4 <= 131072
    ensures var seen' := NewSeen(p, seen, live);
      var later := size + |Output(p)|;
      && (StartupEnds(arrivals, seen, live, size)
          <==> (seen'.audio && seen'.video) || StartupEnds(arrivals[1..], seen', live, later))
      && (StartupFits(arrivals, seen, live, size)
          <==> (seen'.audio && seen'.video) || StartupFits(arrivals[1..], seen', live, later))
  {
    hide NewSeen, Output, Nominal, TooSmall;
  }

  /** After a timestamp nothing more is collected. */
  lemma StampEnds(arrivals: seq<Arrival>, seen: Seen, live: bool, size: nat)
    requires seen.stamp != 0
    ensures StartupEnds(arrivals, seen, live, size) && StartupFits(arrivals, seen, live, size)
  {}

  /** With room for all of it, collecting stops in time exactly where the packets say, whatever arrives later. */
  lemma {:induction false} TagsEnd(ps: seq<MediaPacket>, rest: seq<Arrival>, seen: Seen, live: bool, size: nat)
    requires AllTags(ps) && seen.stamp == 0 && size + TagBytes(ps) + 4 <= 131072
    ensures Collected(ps, seen.audio, seen.video) <= |ps| ==>
      && StartupEnds(Arriving(ps, rest), seen, live, size)
      && StartupFits(Arriving(ps, rest), seen, live, size)
    ensures Collected(ps, seen.audio, seen.video) > |ps| && rest == [] ==>
      !StartupEnds(Arriving(ps, rest), seen, live, size)
    decreases |ps|
  {
    if ps != [] {
      var p := ps[0];
      var seen' := NewSeen(p, seen, live);
      var arrivals := Arriving(ps, rest);
      FirstArrives(ps, rest);
      TagSeen(p, seen, live);
      SkippedOutput(p);
      OneTurn(arrivals, p, seen, live, size);
      hide Output, NewSeen, HasAudio, HasVideo, Skipped, TooSmall, Nominal, Arriving, StartupEnds, StartupFits;
      if seen'.stamp == 0 {
        TagsEnd(ps[1..], rest, seen', live, size + |Output(p)|);
      } else {
        StampEnds(arrivals[1..], seen', live, size + |Output(p)|);
      }
    }
  }

  /** What went by until then. */
  lemma {:induction false} TagsSeen(ps: seq<MediaPacket>, rest: seq<Arrival>, seen: Seen, live: bool, acc: seq<byte>)
    requires AllTags(ps) && Collected(ps, seen.audio, seen.video) <= |ps| && seen.stamp == 0
    requires |acc| >= 13 && |acc| + TagBytes(ps) + 4 <= 131072
    ensures var n := Collected(ps, seen.audio, seen.video);
      var st := Startup(Arriving(ps, rest), seen, live, acc);
      && st.Some?
      && (st.value.seen.audio <==> seen.audio || exists p :: p in ps[..n] && HasAudio(p))
      && (st.value.seen.video <==> seen.video || exists p :: p in ps[..n] && HasVideo(p))
    decreases |ps|
  {
    var p, more := ps[0], ps[1..];
    var seen', acc' := NewSeen(p, seen, live), acc + Output(p);
    FirstArrives(ps, rest);
    TagSeen(p, seen, live);
    SkippedOutput(p);
    StartupStep(Arriving(ps, rest), seen, live, acc);
    FirstCollected(ps, Collected(ps, seen.audio, seen.video));
    hide Output, NewSeen, HasAudio, HasVideo, Skipped, TooSmall, Nominal, Arriving, Startup;
    if !(seen'.audio && seen'.video) {
      if seen'.stamp != 0 {
        StartupEnd(Arriving(more, rest), seen', live, acc');
      } else {
        TagsSeen(more, rest, seen', live, acc');
      }
    }
  }

  lemma FirstCollected(ps: seq<MediaPacket>, n: nat)
    requires 1 <= n <= |ps|
    ensures ps[..n] == [ps[0]] + ps[1..][..n - 1]
    ensures forall q :: q in ps[..n] <==> q == ps[0] || q in ps[1..][..n - 1]
  {
    assert ps[..n] == [ps[0]] + ps[1..][..n - 1];
  }

  /**
   A connection whose first packets are audio, video and data, and fit the start-up buffer: the stream
   is the FLV header for what was collected, then every packet's bytes, if collecting stops among
   these packets; if it does not and nothing else comes, there is no stream.
   */
  lemma StreamOfTags(ps: seq<MediaPacket>, rest: seq<Arrival>, live: bool)
    requires AllTags(ps) && TagBytes(ps) + 17 <= 131072
    ensures var n := Collected(ps, false, false);
      var stream := Stream(Arriving(ps, rest), Seen(0, false, false), live);
      && (n <= |ps| ==>
            stream == [0x46, 0x4C, 0x56, 1, DataByte(ps[..n]), 0, 0, 0, 9, 0, 0, 0, 0] + Outputs(Arriving(ps, rest)))
      && (n > |ps| && rest == [] ==> stream == [])
  {
    assert |FLV_HEADER| == 13;
    hide *;
    var arrivals, seen, n := Arriving(ps, rest), Seen(0, false, false), Collected(ps, false, false);
    TagsEnd(ps, rest, seen, live, 13);
    StreamExactIff(arrivals, seen, live);
    if n <= |ps| {
      TagsSeen(ps, rest, seen, live, FLV_HEADER);
      StartedStream(arrivals, seen, live);
      var st := Startup(arrivals, seen, live, FLV_HEADER).value;
      SameByte(ps[..n], st.seen);
      WholeIs(Stream(arrivals, seen, live), arrivals, DataType(st.seen));
    }
  }

  lemma SameByte(ps: seq<MediaPacket>, seen: Seen)
    requires seen.audio <==> exists p :: p in ps && HasAudio(p)
    requires seen.video <==> exists p :: p in ps && HasVideo(p)
    ensures DataType(seen) == DataByte(ps)
  {
    hide HasAudio, HasVideo;
  }

  lemma WholeIs(stream: seq<byte>, arrivals: seq<Arrival>, d: byte)
    requires Whole(stream, arrivals, d)
    ensures stream == [0x46, 0x4C, 0x56, 1, d, 0, 0, 0, 9, 0, 0, 0, 0] + Outputs(arrivals)
  {
    hide Outputs;
    assert FLV_HEADER[4 := d] == [0x46, 0x4C, 0x56, 1, d, 0, 0, 0, 9, 0, 0, 0, 0];
  }

  /** One packet with a timestamp is enough. */
  lemma FirstPacketStarts(p: MediaPacket, rest: seq<Arrival>, live: bool)
    requires IsTag(p) && !Skipped(p) && p.timestamp != 0 && |p.body| + 32 <= 131072
    ensures var d := (if HasAudio(p) then 4 else 0) + (if HasVideo(p) then 1 else 0);
      Stream([Media(p)] + rest, Seen(0, false, false), live)
      == [0x46, 0x4C, 0x56, 1, d, 0, 0, 0, 9, 0, 0, 0, 0] + Output(p) + Outputs(rest)
  {
    OnePacket(p, rest);
    StreamOfTags([p], rest, live);
    assert [p][..1] == [p];
    hide *;
    Regroup([0x46, 0x4C, 0x56, 1, DataByte([p]), 0, 0, 0, 9, 0, 0, 0, 0], Output(p), Outputs(rest));
  }

  lemma OnePacket(p: MediaPacket, rest: seq<Arrival>)
    requires IsTag(p) && !Skipped(p) && p.timestamp != 0
    ensures AllTags([p]) && TagBytes([p]) == 15 + |p.body| && Collected([p], false, false) == 1
    ensures DataByte([p]) == (if HasAudio(p) then 4 else 0) + (if HasVideo(p) then 1 else 0)
    ensures Arriving([p], rest) == [Media(p)] + rest && Outputs([Media(p)] + rest) == Output(p) + Outputs(rest)
  {
    assert [p][1..] == [] && p in [p] && forall q :: q in [p] <==> q == p;
    assert ([Media(p)] + rest)[1..] == rest;
    hide Output, HasAudio, HasVideo;
  }

  /** The buffer holds 128 KiB: a first packet fits if four bytes more than header and tag fit. */
  lemma FirstFitsIff(p: MediaPacket, rest: seq<Arrival>, live: bool)
    requires IsTag(p) && !Skipped(p) && p.timestamp != 0
    ensures StartupFits([Media(p)] + rest, Seen(0, false, false), live, 13) <==> 13 + 15 + |p.body| + 4 <= 128 * 1024
  {
    TagSeen(p, Seen(0, false, false), live);
    SkippedOutput(p);
    assert ([Media(p)] + rest)[1..] == rest;
    hide Output, NewSeen, Nominal, TooSmall, Skipped, HasAudio, HasVideo;
  }

  /** Packets of other types have no timestamp of their own here, except in live mode. */
  lemma OtherSeen(p: MediaPacket, seen: Seen, live: bool)
    requires !IsTag(p) && p.packetType != 22
    ensures NewSeen(p, seen, live)
            == Seen(if live then p.timestamp else 0, seen.audio || p.hintsAudio, seen.video || p.hintsVideo)
  {}

  // ----- aggregates -----

  /** The timestamp field of the first tag header: three low bytes, then the high one. */
  lemma FirstStampBytes(b: seq<byte>)
    requires |b| >= 8
    ensures FirstStamp(b) == b[7] as int * 0x100_0000 + b[4] as int * 0x1_0000 + b[5] as int * 0x100 + b[6]
  {}

  /** After an aggregate, the timestamp is that of its last tag, moved; in live mode that of the packet. */
  lemma {:induction false} AllSeenOfTags(ts: seq<Tag>, delta: int, seen: Seen)
    requires ValidTags(ts) && ts != []
    ensures AllSeen(Concat(ts), delta, seen)
            == Seen((ts[|ts| - 1].timestamp + delta) % 0x1_0000_0000,
                    seen.audio || exists t :: t in ts && t.tagType == 8,
                    seen.video || exists t :: t in ts && t.tagType == 9)
    decreases |ts|
  {
    var t, more := ts[0], ts[1..];
    assert forall u :: u in ts <==> u == t || u in more;
    SeenFirst(t, Concat(more), delta, seen);
    if more == [] {
      LastSeen([], delta, See(Concat(ts), delta, seen));
    } else {
      AllSeenOfTags(more, delta, See(Concat(ts), delta, seen));
    }
    hide AllSeen, See, FlvAggregate.TagBytes;
  }

  lemma SeenFirst(t: Tag, rest: seq<byte>, delta: int, seen: Seen)
    requires ValidTag(t)
    ensures var r := FlvAggregate.TagBytes(t) + rest;
      && See(r, delta, seen)
         == Seen((t.timestamp + delta) % 0x1_0000_0000, seen.audio || t.tagType == 8, seen.video || t.tagType == 9)
      && AllSeen(r, delta, seen) == AllSeen(rest, delta, See(r, delta, seen))
  {
    hide HeaderBytes, EncodeInt32, AllSeen;
    var size := EncodeInt32(t.trailer);
    var r := FlvAggregate.TagBytes(t) + rest;
    assert r == Untrailed(t) + (size + rest) == HeaderBytes(t) + (t.payload + (size + rest));
    TagFields(t, t.payload + (size + rest));
    TagRepaired(t, size + rest, delta);
    assert r[0] == HeaderBytes(t)[0];
    assert r[TAG_HEADER + |t.payload| + 4..] == (size + rest)[4..] == rest;
    LoopSeen(r, delta, seen);
  }

  /** An aggregate of complete tags, as the start-up loop sees it. */
  lemma AggregateSeen(p: MediaPacket, ts: seq<Tag>, seen: Seen, live: bool)
    requires p.packetType == 22 && ValidTags(ts) && ts != [] && p.body == Concat(ts)
    ensures NewSeen(p, seen, live)
            == Seen(if live then p.timestamp
                    else (ts[|ts| - 1].timestamp + p.timestamp - ts[0].timestamp) % 0x1_0000_0000,
                    seen.audio || p.hintsAudio || exists t :: t in ts && t.tagType == 8,
                    seen.video || p.hintsVideo || exists t :: t in ts && t.tagType == 9)
  {
    hide *;
    var d := p.timestamp - ts[0].timestamp;
    DeltaOfTags(p, ts);
    AggregateNoted(p, seen, live);
    var noted := Seen(FirstStamp(p.body), seen.audio || p.hintsAudio, seen.video || p.hintsVideo);
    AllSeenOfTags(ts, d, noted);
    assert ts[|ts| - 1].timestamp + d == ts[|ts| - 1].timestamp + p.timestamp - ts[0].timestamp;
  }

  lemma DeltaOfTags(p: MediaPacket, ts: seq<Tag>)
    requires ValidTags(ts) && ts != [] && p.body == Concat(ts)
    ensures Delta(p) == p.timestamp - ts[0].timestamp
  {
    FirstStampOfTags(ts, []);
    assert Concat(ts) + [] == Concat(ts);
    hide Concat, FirstStamp;
  }

  lemma AggregateNoted(p: MediaPacket, seen: Seen, live: bool)
    requires p.packetType == 22
    ensures var noted := Seen(FirstStamp(p.body), seen.audio || p.hintsAudio, seen.video || p.hintsVideo);
      var after := AllSeen(p.body, Delta(p), noted);
      NewSeen(p, seen, live) == if live then after.(stamp := p.timestamp) else after
  {
    hide AllSeen, FirstStamp, Delta;
  }
}
