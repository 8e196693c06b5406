/**
 FLV tags, and the rewriting of aggregate messages (packet type 0x16) in Read_1_Packet
 (librtmp/rtmp.c:4172-4252); Adobe FLV specification v10.1, section E.4.1.
 */
module FlvAggregate {
  import opened Sequences
  import opened Bytes
  import opened Memory
  import opened PacketTypes

  const TAG_HEADER := 11

  /** A tag as it may stand in an aggregate: its trailing size can be any number. */
  datatype Tag = Tag(tagType: byte, timestamp: uint32, streamId: seq<byte>, payload: seq<byte>, trailer: uint32)

  predicate ValidTag(t: Tag) {
    |t.streamId| == 3 && |t.payload| < TWO_24
  }

  /** The timestamp field: three low bytes, then the high one. */
  function StampBytes(ts: uint32): (b: seq<byte>)
    ensures |b| == 4
  {
    EncodeInt24(ts) + [ts / 0x100_0000]
  }

  function StampOf(r: seq<byte>): uint32
    requires |r| >= 8
  {
    DecodeInt24(r[4..]) + r[7] as int * 0x100_0000
  }

  function HeaderBytes(t: Tag): (b: seq<byte>)
    requires ValidTag(t)
    ensures |b| == TAG_HEADER
  {
    [t.tagType] + EncodeInt24(|t.payload|) + StampBytes(t.timestamp) + t.streamId
  }

  /** Header and payload, without the trailing size. */
  function Untrailed(t: Tag): seq<byte>
    requires ValidTag(t)
  {
    HeaderBytes(t) + t.payload
  }

  function TagBytes(t: Tag): seq<byte>
    requires ValidTag(t)
  {
    Untrailed(t) + EncodeInt32(t.trailer)
  }

  // ----- the rewriting loop -----

  /** A tag header with its timestamp moved by `delta`. */
  function ShiftedHeader(r: seq<byte>, delta: int): (h: seq<byte>)
    requires |r| >= TAG_HEADER
    ensures |h| == TAG_HEADER
  {
    if delta == 0 then r[..TAG_HEADER] else r[..4] + StampBytes(Wrap(StampOf(r) + delta)) + r[8..TAG_HEADER]
  }

  function DataSize(r: seq<byte>): nat
    requires |r| >= TAG_HEADER
  {
    DecodeInt24(r[1..])
  }

  /** A tag whose payload is all there: shifted, and with the trailing size that belongs to it. */
  function Front(r: seq<byte>, delta: int): (w: seq<byte>)
    requires |r| >= TAG_HEADER && TAG_HEADER + DataSize(r) <= |r|
    ensures |w| == TAG_HEADER + DataSize(r) + 4
  {
    var n := TAG_HEADER + DataSize(r);
    ShiftedHeader(r, delta) + r[TAG_HEADER..n] + EncodeInt32(n)
  }

  /** The buffer after one turn of the loop: `r` is the rest of the body, `spare` what lies behind it. */
  function Turn(r: seq<byte>, spare: seq<byte>, delta: int): (w: seq<byte>)
    requires |spare| == 4 && |r| > TAG_HEADER
    ensures |w| == |r| + 4
  {
    var n := TAG_HEADER + DataSize(r);
    if n > |r| then ShiftedHeader(r, delta) + (r + spare)[TAG_HEADER..]
    else Front(r, delta) + (r + spare)[n + 4..]
  }

  /**
   The buffer behind the loop, from the first tag of `r` on: the rewritten copy of `r`, and the
   four spare bytes behind it.
   */
  function Rewrite(r: seq<byte>, spare: seq<byte>, delta: int): (w: seq<byte>)
    requires |spare| == 4
    ensures |w| == |r| + 4
    decreases |r|
  {
    if |r| <= TAG_HEADER then r + spare
    else
      var n := TAG_HEADER + DataSize(r);
      if n + 4 > |r| then Turn(r, spare, delta)
      else Front(r, delta) + Rewrite(r[n + 4..], spare, delta)
  }

  /** How many of the spare bytes become part of the output. */
  function Added(r: seq<byte>): (n: nat)
    ensures n == 0 || n == 4
    decreases |r|
  {
    if |r| <= TAG_HEADER then 0
    else
      var n := TAG_HEADER + DataSize(r);
      if n > |r| then 0 else if n + 4 > |r| then 4 else Added(r[n + 4..])
  }

  /** What the loop remembers besides the buffer: the last timestamp, and whether audio or video went by. */
  datatype Seen = Seen(stamp: uint32, audio: bool, video: bool)

  function See(r: seq<byte>, delta: int, seen: Seen): Seen
    requires |r| >= TAG_HEADER
  {
    Seen(Wrap(StampOf(r) + delta), seen.audio || r[0] == AUDIO, seen.video || r[0] == VIDEO)
  }

  function AllSeen(r: seq<byte>, delta: int, seen: Seen): Seen
    decreases |r|
  {
    if |r| <= TAG_HEADER then seen
    else
      var n := TAG_HEADER + DataSize(r);
      if n + 4 > |r| then See(r, delta, seen) else AllSeen(r[n + 4..], delta, See(r, delta, seen))
  }

  /** One turn: the timestamp if it moves, the trailing size if it is missing or wrong. */
  method RewriteTag(buf: array<byte>, q: nat, end: nat, r: seq<byte>, delta: int, ghost spare: seq<byte>)
    requires |r| > TAG_HEADER && |spare| == 4 && q + |r| + 4 == end <= buf.Length
    requires buf[q..end] == r + spare
    modifies buf
    ensures buf[q..end] == Turn(r, spare, delta)
    ensures forall i | 0 <= i < buf.Length && (i < q || i >= end) :: buf[i] == old(buf[i])
  {
    if delta != 0 {
      Patch(buf, q, end, q + 4, StampBytes(Wrap(StampOf(r) + delta)));
    }
    Shifted(r, spare, delta);
    var n := TAG_HEADER + DataSize(r);
    if n <= |r| {
      Sized(r, spare, delta);
      if n + 4 > |r| || DecodeInt32(r[n..]) != n {
        Patch(buf, q, end, q + n, EncodeInt32(n));
      } else {
        EncodeDecodeInt32(r[n..]);
      }
    }
  }

  lemma Shifted(r: seq<byte>, spare: seq<byte>, delta: int)
    requires |r| > TAG_HEADER
    ensures var all := r + spare;
      ShiftedHeader(r, delta) + all[TAG_HEADER..]
      == if delta == 0 then all else all[..4] + StampBytes(Wrap(StampOf(r) + delta)) + all[8..]
  {}

  lemma Sized(r: seq<byte>, spare: seq<byte>, delta: int)
    requires |spare| == 4 && |r| > TAG_HEADER && TAG_HEADER + DataSize(r) <= |r|
    ensures var n := TAG_HEADER + DataSize(r);
      var now := ShiftedHeader(r, delta) + (r + spare)[TAG_HEADER..];
      && Turn(r, spare, delta) == now[..n] + EncodeInt32(n) + now[n + 4..]
      && (n + 4 <= |r| && r[n..][..4] == EncodeInt32(n) ==> Turn(r, spare, delta) == now)
  {
    var n := TAG_HEADER + DataSize(r);
    var now := ShiftedHeader(r, delta) + (r + spare)[TAG_HEADER..];
    assert now[..n] == ShiftedHeader(r, delta) + r[TAG_HEADER..n];
    assert now[n + 4..] == (r + spare)[n + 4..];
    if n + 4 <= |r| {
      assert now[n..n + 4] == (r + spare)[n..n + 4] == r[n..n + 4] == r[n..][..4];
      assert now == now[..n] + now[n..n + 4] + now[n + 4..];
    }
  }

  /** The same turn in the window that starts with the tags already `done`. */
  method RewriteNext(buf: array<byte>, at: nat, end: nat, pos: nat, r: seq<byte>, delta: int,
                     ghost done: seq<byte>, ghost spare: seq<byte>)
    requires |r| > TAG_HEADER && |spare| == 4 && |done| == pos && at + pos + |r| + 4 == end <= buf.Length
    requires buf[at..end] == done + (r + spare)
    modifies buf
    ensures buf[at..end] == done + Turn(r, spare, delta)
    ensures forall i | 0 <= i < buf.Length && (i < at || i >= end) :: buf[i] == old(buf[i])
  {
    hide Turn;
    assert buf[at + pos..end] == buf[at..end][pos..] == r + spare;
    assert buf[at..at + pos] == buf[at..end][..pos] == done;
    RewriteTag(buf, at + pos, end, r, delta, spare);
    assert buf[at..at + pos] == done;
    assert buf[at..end] == buf[at..at + pos] + buf[at + pos..end];
  }

  /** The loop over the copy at buf[at..], which has four spare bytes behind the body. */
  method RewriteTags(body: seq<byte>, buf: array<byte>, at: nat, delta: int, seen: Seen)
    returns (added: nat, seen': Seen)
    requires at + |body| + 4 <= buf.Length && buf[at..at + |body|] == body
    modifies buf
    ensures added == Added(body) && seen' == AllSeen(body, delta, seen)
    ensures buf[at..at + |body| + 4] == Rewrite(body, old(buf[at + |body|..at + |body| + 4]), delta)
    ensures forall i | 0 <= i < buf.Length && (i < at || i >= at + |body| + 4) :: buf[i] == old(buf[i])
  {
    hide Turn, Front, Rewrite, Added, AllSeen, See, DataSize, StampOf;
    var end := at + |body| + 4;
    ghost var spare := buf[at + |body|..end];
    ghost var done := [];
    var pos := 0;
    seen' := seen;
    assert buf[at..end] == [] + (body + spare) && body[0..] == body;
    var r := body;
    while TAG_HEADER < |r|
      invariant |r| + |done| == |body| && pos == |done|
      invariant buf[at..end] == done + (r + spare)
      invariant done + Rewrite(r, spare, delta) == Rewrite(body, spare, delta) && Added(r) == Added(body)
      invariant AllSeen(r, delta, seen') == AllSeen(body, delta, seen)
      invariant forall i | 0 <= i < buf.Length && (i < at || i >= end) :: buf[i] == old(buf[i])
      decreases |r|
    {
      var n := TAG_HEADER + DataSize(r);
      RewriteNext(buf, at, end, pos, r, delta, done, spare);
      LoopTurn(r, spare, delta, done);
      LoopSeen(r, delta, seen');
      seen' := See(r, delta, seen');
      if n + 4 > |r| {
        return if n > |r| then 0 else 4, seen';
      }
      done, pos, r := done + Front(r, delta), pos + n + 4, r[n + 4..];
    }
    LastTurn(r, spare, delta);
    LastSeen(r, delta, seen');
    added := 0;
  }

  lemma LoopSeen(r: seq<byte>, delta: int, seen: Seen)
    requires |r| > TAG_HEADER
    ensures var n := TAG_HEADER + DataSize(r);
      AllSeen(r, delta, seen)
      == if n + 4 > |r| then See(r, delta, seen) else AllSeen(r[n + 4..], delta, See(r, delta, seen))
  {}

  lemma LastSeen(r: seq<byte>, delta: int, seen: Seen)
    requires |r| <= TAG_HEADER
    ensures AllSeen(r, delta, seen) == seen
  {}

  lemma LoopTurn(r: seq<byte>, spare: seq<byte>, delta: int, done: seq<byte>)
    requires |spare| == 4 && |r| > TAG_HEADER
    ensures var n := TAG_HEADER + DataSize(r);
      && (n + 4 > |r| ==> Rewrite(r, spare, delta) == Turn(r, spare, delta) && Added(r) == (if n > |r| then 0 else 4))
      && (n + 4 <= |r| ==>
            && |Front(r, delta)| == n + 4 && Added(r) == Added(r[n + 4..])
            && done + Rewrite(r, spare, delta) == done + Front(r, delta) + Rewrite(r[n + 4..], spare, delta)
            && done + Turn(r, spare, delta) == done + Front(r, delta) + (r[n + 4..] + spare))
  {
    hide Front, DataSize;
    var n := TAG_HEADER + DataSize(r);
    if n + 4 <= |r| {
      assert (r + spare)[n + 4..] == r[n + 4..] + spare;
      Regroup(done, Front(r, delta), r[n + 4..] + spare);
      Regroup(done, Front(r, delta), Rewrite(r[n + 4..], spare, delta));
    }
  }

  lemma LastTurn(r: seq<byte>, spare: seq<byte>, delta: int)
    requires |spare| == 4 && |r| <= TAG_HEADER
    ensures Rewrite(r, spare, delta) == r + spare && Added(r) == 0
  {}

  // ----- what the rewriting means for tags -----

  /** The tag with its timestamp moved and the trailing size that belongs to it. */
  function Repaired(t: Tag, delta: int): Tag
    requires ValidTag(t)
  {
    t.(timestamp := Wrap(t.timestamp + delta), trailer := TAG_HEADER + |t.payload|)
  }

  predicate ValidTags(ts: seq<Tag>) {
    forall t | t in ts :: ValidTag(t)
  }

  function Concat(ts: seq<Tag>): seq<byte>
    requires ValidTags(ts)
  {
    if ts == [] then [] else TagBytes(ts[0]) + Concat(ts[1..])
  }

  function AllRepaired(ts: seq<Tag>, delta: int): (rs: seq<Tag>)
    requires ValidTags(ts)
    ensures ValidTags(rs) && |rs| == |ts|
  {
    if ts == [] then [] else [Repaired(ts[0], delta)] + AllRepaired(ts[1..], delta)
  }

  lemma StampParses(ts: uint32, rest: seq<byte>)
    ensures var b := StampBytes(ts) + rest; DecodeInt24(b) + b[3] as int * 0x100_0000 == ts
  {
    DecodeEncodeInt24(ts, [ts / 0x100_0000] + rest);
    assert StampBytes(ts) + rest == EncodeInt24(ts) + ([ts / 0x100_0000] + rest);
  }

  /** The fields of a tag are where the loop looks for them. */
  lemma TagFields(t: Tag, rest: seq<byte>)
    requires ValidTag(t)
    ensures var r := HeaderBytes(t) + rest;
      && DataSize(r) == |t.payload| && StampOf(r) == t.timestamp
      && r[..TAG_HEADER] == HeaderBytes(t) && r[TAG_HEADER..] == rest
      && r[..4] == [t.tagType] + EncodeInt24(|t.payload|) && r[8..TAG_HEADER] == t.streamId
  {
    var r := HeaderBytes(t) + rest;
    var size := EncodeInt24(|t.payload|);
    DecodeEncodeInt24(|t.payload|, StampBytes(t.timestamp) + t.streamId + rest);
    assert r[1..] == size + (StampBytes(t.timestamp) + t.streamId + rest);
    StampParses(t.timestamp, t.streamId + rest);
    assert r[4..] == StampBytes(t.timestamp) + (t.streamId + rest);
    assert r[7] == r[4..][3];
  }

  lemma HeaderRepaired(t: Tag, rest: seq<byte>, delta: int)
    requires ValidTag(t)
    ensures ShiftedHeader(HeaderBytes(t) + rest, delta) == HeaderBytes(Repaired(t, delta))
  {
    hide StampBytes;
    TagFields(t, rest);
  }

  /** A tag in front becomes the repaired tag, whether its trailing size was there or not. */
  lemma TagRepaired(t: Tag, rest: seq<byte>, delta: int)
    requires ValidTag(t)
    ensures var r := Untrailed(t) + rest;
      && |r| >= TAG_HEADER && DataSize(r) == |t.payload| && TAG_HEADER + DataSize(r) <= |r|
      && Front(r, delta) == TagBytes(Repaired(t, delta)) && r[TAG_HEADER + |t.payload|..] == rest
  {
    hide HeaderBytes;
    TagFields(t, t.payload + rest);
    HeaderRepaired(t, t.payload + rest, delta);
    var r := Untrailed(t) + rest;
    assert r == HeaderBytes(t) + (t.payload + rest);
    assert r[TAG_HEADER..TAG_HEADER + |t.payload|] == t.payload;
  }

  lemma FrontStep(r: seq<byte>, spare: seq<byte>, delta: int)
    requires |spare| == 4 && |r| > TAG_HEADER && TAG_HEADER + DataSize(r) + 4 <= |r|
    ensures var rest := r[TAG_HEADER + DataSize(r) + 4..];
      Rewrite(r, spare, delta) == Front(r, delta) + Rewrite(rest, spare, delta) && Added(r) == Added(rest)
  {}

  lemma FirstTag(t: Tag, rest: seq<byte>, spare: seq<byte>, delta: int)
    requires ValidTag(t) && |spare| == 4
    ensures Rewrite(TagBytes(t) + rest, spare, delta) == TagBytes(Repaired(t, delta)) + Rewrite(rest, spare, delta)
    ensures Added(TagBytes(t) + rest) == Added(rest)
  {
    hide HeaderBytes, Front, Rewrite, Added, DataSize, EncodeInt32;
    var r, size := TagBytes(t) + rest, EncodeInt32(t.trailer);
    assert r == Untrailed(t) + (size + rest);
    TagRepaired(t, size + rest, delta);
    assert r[TAG_HEADER + |t.payload| + 4..] == (size + rest)[4..] == rest;
    FrontStep(r, spare, delta);
  }

  /** Whole tags in front are repaired one by one. */
  lemma {:induction false} TagsInFront(ts: seq<Tag>, rest: seq<byte>, spare: seq<byte>, delta: int)
    requires ValidTags(ts) && |spare| == 4
    ensures Rewrite(Concat(ts) + rest, spare, delta) == Concat(AllRepaired(ts, delta)) + Rewrite(rest, spare, delta)
    ensures Added(Concat(ts) + rest) == Added(rest)
    decreases |ts|
  {
    hide TagBytes, Rewrite, Added;
    if ts == [] {
      assert [] + rest == rest;
    } else {
      FirstTag(ts[0], Concat(ts[1..]) + rest, spare, delta);
      TagsInFront(ts[1..], rest, spare, delta);
      assert Concat(ts) + rest == TagBytes(ts[0]) + (Concat(ts[1..]) + rest);
      assert AllRepaired(ts, delta)[1..] == AllRepaired(ts[1..], delta);
    }
  }

  /** With complete tags every timestamp moves by `delta`, every trailing size is right, nothing is added. */
  lemma AggregateOfTags(ts: seq<Tag>, spare: seq<byte>, delta: int)
    requires ValidTags(ts) && |spare| == 4
    ensures Rewrite(Concat(ts), spare, delta) == Concat(AllRepaired(ts, delta)) + spare && Added(Concat(ts)) == 0
  {
    hide TagBytes, Turn, Front;
    TagsInFront(ts, [], spare, delta);
    assert Concat(ts) + [] == Concat(ts) && [] + spare == spare;
  }

  /** What the reader returns for an aggregate. */
  function Rewritten(r: seq<byte>, spare: seq<byte>, delta: int): seq<byte>
    requires |spare| == 4
  {
    Rewrite(r, spare, delta)[..|r| + Added(r)]
  }

  /**
   A last tag without its trailing size is repaired like the others, using up the four spare bytes,
   if and only if it has a payload: the loop stops in front of a bare header.
   */
  lemma LastSizeAppendedIff(ts: seq<Tag>, last: Tag, spare: seq<byte>, delta: int)
    requires ValidTags(ts) && ValidTag(last) && |spare| == 4
    ensures Rewritten(Concat(ts) + Untrailed(last), spare, delta)
              == Concat(AllRepaired(ts, delta)) + TagBytes(Repaired(last, delta))
            <==> last.payload != []
    ensures Added(Concat(ts) + Untrailed(last)) == if last.payload != [] then 4 else 0
  {
    var r, front := Untrailed(last), Concat(AllRepaired(ts, delta));
    TagsInFront(ts, r, spare, delta);
    RepairedLength(ts, delta);
    TagRepaired(last, [], delta);
    assert r + [] == r;
    if last.payload != [] {
      assert Rewrite(r, spare, delta) == Front(r, delta) + (r + spare)[|r| + 4..] == Front(r, delta);
    }
  }

  /** A last tag whose payload is cut short keeps what is there of it; only its timestamp moves. */
  lemma LastTagCut(ts: seq<Tag>, last: Tag, part: seq<byte>, spare: seq<byte>, delta: int)
    requires ValidTags(ts) && ValidTag(last) && |spare| == 4 && 0 < |part| < |last.payload|
    ensures var moved := last.(timestamp := (last.timestamp + delta) % 0x1_0000_0000);
      Rewritten(Concat(ts) + (HeaderBytes(last) + part), spare, delta)
      == Concat(AllRepaired(ts, delta)) + (HeaderBytes(moved) + part)
  {
    var r := HeaderBytes(last) + part;
    RepairedLength(ts, delta);
    TagsInFront(ts, r, spare, delta);
    CutTag(last, part, spare, delta);
    hide Concat, AllRepaired, HeaderBytes, Rewrite, Added;
  }

  lemma CutTag(t: Tag, part: seq<byte>, spare: seq<byte>, delta: int)
    requires ValidTag(t) && |spare| == 4 && 0 < |part| < |t.payload|
    ensures var moved := t.(timestamp := (t.timestamp + delta) % 0x1_0000_0000);
      && Rewrite(HeaderBytes(t) + part, spare, delta) == HeaderBytes(moved) + part + spare
      && Added(HeaderBytes(t) + part) == 0
  {
    hide ShiftedHeader, DataSize, Front;
    var r := HeaderBytes(t) + part;
    TagFields(t, part);
    HeaderRepaired(t, part, delta);
    hide HeaderBytes;
    CutTurn(r, part, spare, delta);
    SameHeader(t, delta);
    Regroup(ShiftedHeader(r, delta), part, spare);
  }

  lemma CutTurn(r: seq<byte>, part: seq<byte>, spare: seq<byte>, delta: int)
    requires |spare| == 4 && |r| > TAG_HEADER && r[TAG_HEADER..] == part && TAG_HEADER + DataSize(r) > |r|
    ensures Rewrite(r, spare, delta) == ShiftedHeader(r, delta) + (part + spare) && Added(r) == 0
  {
    hide ShiftedHeader, DataSize, Front;
    assert (r + spare)[TAG_HEADER..] == part + spare;
  }

  lemma SameHeader(t: Tag, delta: int)
    requires ValidTag(t)
    ensures HeaderBytes(Repaired(t, delta)) == HeaderBytes(t.(timestamp := (t.timestamp + delta) % 0x1_0000_0000))
  {
    hide StampBytes, EncodeInt24;
  }

  /** Fewer than twelve bytes behind the last whole tag are handed on as they are. */
  lemma LooseEnd(ts: seq<Tag>, r: seq<byte>, spare: seq<byte>, delta: int)
    requires ValidTags(ts) && |r| < 12 && |spare| == 4
    ensures Rewritten(Concat(ts) + r, spare, delta) == Concat(AllRepaired(ts, delta)) + r
  {
    RepairedLength(ts, delta);
    TagsInFront(ts, r, spare, delta);
    hide Concat, AllRepaired;
    assert Rewrite(r, spare, delta) == r + spare;
    hide Rewrite;
  }

  lemma {:induction false} RepairedLength(ts: seq<Tag>, delta: int)
    requires ValidTags(ts)
    ensures |Concat(AllRepaired(ts, delta))| == |Concat(ts)|
    decreases |ts|
  {
    if ts != [] {
      RepairedLength(ts[1..], delta);
      assert AllRepaired(ts, delta)[1..] == AllRepaired(ts[1..], delta);
    }
  }

  /** No tag of the body has one to three of the four bytes of its trailing size. */
  predicate Clean(r: seq<byte>)
    decreases |r|
  {
    |r| <= TAG_HEADER
    || (var n := TAG_HEADER + DataSize(r); n >= |r| || (n + 4 <= |r| && Clean(r[n + 4..])))
  }

  /** Then the output does not depend on what the spare bytes held. */
  lemma {:induction false} CleanIgnoresSpare(r: seq<byte>, spare1: seq<byte>, spare2: seq<byte>, delta: int)
    requires |spare1| == |spare2| == 4 && Clean(r)
    ensures Rewritten(r, spare1, delta) == Rewritten(r, spare2, delta)
    decreases |r|
  {
    hide ShiftedHeader;
    if |r| > TAG_HEADER && TAG_HEADER + DataSize(r) + 4 <= |r| {
      var n := TAG_HEADER + DataSize(r);
      CleanIgnoresSpare(r[n + 4..], spare1, spare2, delta);
      RewrittenStep(r, spare1, delta);
      RewrittenStep(r, spare2, delta);
    } else if |r| > TAG_HEADER && TAG_HEADER + DataSize(r) > |r| {
      assert (r + spare1)[TAG_HEADER..] == r[TAG_HEADER..] + spare1;
      assert (r + spare2)[TAG_HEADER..] == r[TAG_HEADER..] + spare2;
    }
  }

  /** An unclean body shows its spare bytes: what stands behind a trailing size that is there in part. */
  lemma {:induction false} UncleanShowsSpare(r: seq<byte>, delta: int)
    requires !Clean(r)
    ensures Rewritten(r, [0, 0, 0, 0], delta) != Rewritten(r, [1, 1, 1, 1], delta)
    decreases |r|
  {
    hide ShiftedHeader;
    var n := TAG_HEADER + DataSize(r);
    var zeros, ones: seq<byte> := [0, 0, 0, 0], [1, 1, 1, 1];
    if n + 4 <= |r| {
      UncleanShowsSpare(r[n + 4..], delta);
      RewrittenStep(r, zeros, delta);
      RewrittenStep(r, ones, delta);
      assert (Front(r, delta) + Rewritten(r[n + 4..], zeros, delta))[n + 4..] == Rewritten(r[n + 4..], zeros, delta);
      assert (Front(r, delta) + Rewritten(r[n + 4..], ones, delta))[n + 4..] == Rewritten(r[n + 4..], ones, delta);
    } else {
      LastSpare(r, zeros, delta);
      LastSpare(r, ones, delta);
    }
  }

  lemma LastSpare(r: seq<byte>, spare: seq<byte>, delta: int)
    requires |spare| == 4 && |r| > TAG_HEADER
    requires TAG_HEADER + DataSize(r) < |r| < TAG_HEADER + DataSize(r) + 4
    ensures var n := TAG_HEADER + DataSize(r);
      n + 4 < |Rewritten(r, spare, delta)| && Rewritten(r, spare, delta)[n + 4] == spare[n + 4 - |r|]
  {
    hide ShiftedHeader, Front;
    var n := TAG_HEADER + DataSize(r);
    assert Rewritten(r, spare, delta) == Front(r, delta) + (r + spare)[n + 4..];
  }

  lemma RewrittenStep(r: seq<byte>, spare: seq<byte>, delta: int)
    requires |spare| == 4 && |r| > TAG_HEADER && TAG_HEADER + DataSize(r) + 4 <= |r|
    ensures var n := TAG_HEADER + DataSize(r);
      Rewritten(r, spare, delta) == Front(r, delta) + Rewritten(r[n + 4..], spare, delta)
  {
    hide ShiftedHeader;
  }

  /** The output is the same over any spare bytes if and only if the body is clean. */
  lemma SpareIgnoredIff(r: seq<byte>, delta: int)
    ensures (forall s1, s2 | |s1| == |s2| == 4 :: Rewritten(r, s1, delta) == Rewritten(r, s2, delta)) <==> Clean(r)
  {
    hide Rewritten, Clean;
    if Clean(r) {
      forall s1, s2 | |s1| == |s2| == 4
        ensures Rewritten(r, s1, delta) == Rewritten(r, s2, delta)
      {
        CleanIgnoresSpare(r, s1, s2, delta);
      }
    } else {
      UncleanShowsSpare(r, delta);
    }
  }
}
