/**
 H.264 Annex B data into AVC video packets: the start-code scan of sendX264VideoData and the
 sequence header of getSpsAndPps (rtmp_client.c:133-193, 540-662).
 */
module AvcPacketiser {
  import opened Wrappers
  import opened Bytes
  import opened Memory
  import opened ChunkFormat
  import opened PacketTypes
  import opened StartCodes

  const VIDEO_CHANNEL := 6
  const SPS: byte := 0x67
  const PPS: byte := 0x68
  const KEY_SLICE: byte := 0x65

  // ----- the scan for the next start code -----

  predicate Low(b: byte) {
    b == 0 || b == 1
  }

  /** `zore_count` behind `s`: how many bytes at its end are 00 or 01. */
  function Run(s: seq<byte>): (n: nat)
    ensures n <= |s|
  {
    if s == [] || !Low(s[|s| - 1]) then 0 else Run(s[..|s| - 1]) + 1
  }

  /** A start code ends at index `i`: a run of at least three 00 or 01 bytes whose last is 01. */
  predicate CodeEnds(s: seq<byte>, i: nat) {
    i < |s| && s[i] == 1 && Run(s[..i + 1]) >= 3
  }

  lemma RunGrows(s: seq<byte>, i: nat)
    requires i < |s|
    ensures Run(s[..i + 1]) == if s[i] <= 1 then Run(s[..i]) + 1 else 0
  {
    assert s[..i + 1][..i] == s[..i];
  }

  /** The same in bytes: 00 or 01 twice, then 01. */
  lemma CodeEndsIff(s: seq<byte>, i: nat)
    ensures CodeEnds(s, i) <==> 2 <= i < |s| && s[i - 2] <= 1 && s[i - 1] <= 1 && s[i] == 1
  {
    if 2 <= i < |s| {
      RunGrows(s, i - 2);
      RunGrows(s, i - 1);
      RunGrows(s, i);
    }
  }

  predicate NoCode(s: seq<byte>, end: nat)
    requires end <= |s|
  {
    forall i | 0 <= i < end :: !CodeEnds(s, i)
  }

  /** The index at which the first start code from `i` on ends, or the length when there is none. */
  function FirstCode(s: seq<byte>, i: nat): (r: nat)
    requires i <= |s| && NoCode(s, i)
    ensures i <= r <= |s| && NoCode(s, r) && (r < |s| ==> CodeEnds(s, r))
    decreases |s| - i
  {
    if i == |s| || CodeEnds(s, i) then i else FirstCode(s, i + 1)
  }

  /** How much was looked at: all, or the bytes up to the end of a start code. */
  function Looked(s: seq<byte>): (n: nat)
    ensures n <= |s|
  {
    var r := FirstCode(s, 0);
    if r == |s| then r else r + 1
  }

  /** The size of the unit in front: a start code does not belong to it, but trailing low bytes without one do. */
  function UnitSize(s: seq<byte>): (n: nat)
    ensures n <= |s|
  {
    if FirstCode(s, 0) == |s| then |s| else Looked(s) - Run(s[..Looked(s)])
  }

  /** What is left behind the unit and the run of low bytes. */
  function Behind(s: seq<byte>): seq<byte> {
    if FirstCode(s, 0) == |s| then [] else s[Looked(s)..]
  }

  /** The scanning loop. */
  method Scan(s: seq<byte>) returns (size: nat, zeros: nat)
    ensures size == UnitSize(s) && zeros == Run(s[..Looked(s)])
    ensures if size + zeros <= |s| then Behind(s) == s[size + zeros..] else Behind(s) == []
  {
    size, zeros := 0, 0;
    while size < |s|
      invariant size <= |s| && zeros == Run(s[..size]) && NoCode(s, size)
      invariant FirstCode(s, size) == FirstCode(s, 0)
    {
      assert s[..size + 1][..size] == s[..size];
      if Low(s[size]) {
        zeros := zeros + 1;
      } else {
        zeros := 0;
      }
      if s[size] == 1 && zeros >= 3 {
        assert CodeEnds(s, size);
        size := size - (zeros - 1);
        return;
      }
      size := size + 1;
    }
    assert s[..|s|] == s;
  }

  // ----- packets -----

  /** SpsData: the parameter sets found last. */
  datatype ParameterSets = ParameterSets(sps: Option<seq<byte>>, pps: Option<seq<byte>>)

  function NonEmpty(unit: seq<byte>): Option<seq<byte>> {
    if unit == [] then None else Some(unit)
  }

  /** A sequence parameter set in front is stored, and forgets the picture parameter set. */
  function AfterSps(sets: ParameterSets, s: seq<byte>): (ParameterSets, seq<byte>) {
    if s != [] && s[0] == SPS then (ParameterSets(NonEmpty(s[..UnitSize(s)]), None), Behind(s)) else (sets, s)
  }

  function AfterPps(sets: ParameterSets, s: seq<byte>): (ParameterSets, seq<byte>) {
    if s != [] && s[0] == PPS then (sets.(pps := NonEmpty(s[..UnitSize(s)])), Behind(s)) else (sets, s)
  }

  /** The data behind its start code; None when it does not start with one. */
  function Unprefixed(data: seq<byte>): Option<seq<byte>> {
    if START_CODE <= data then Some(data[4..]) else if SHORT_CODE <= data then Some(data[3..]) else None
  }

  /** The packet body for one access unit. */
  function FrameBody(frame: seq<byte>, key: bool): seq<byte>
    requires frame != []
  {
    [if frame[0] == KEY_SLICE || key then 0x17 else 0x27, 1, 0, 0, 0] + EncodeInt32(|frame|) + frame
  }

  /** The AVC decoder configuration made from the two parameter sets. */
  function SequenceHeader(sps: seq<byte>, pps: seq<byte>): seq<byte>
    requires |sps| >= 4
  {
    [0x17, 0, 0, 0, 0, 1, sps[1], sps[2], sps[3], 0xff, 0xe1] + EncodeInt16(|sps|) + sps
    + ([1] + EncodeInt16(|pps|) + pps)
  }

  method PacketSps(sps: seq<byte>, buf: array<byte>) returns (p: nat)
    requires |sps| >= 4 && 13 + |sps| <= buf.Length
    modifies buf
    ensures p == 13 + |sps|
    ensures buf[..p] == [0x17, 0, 0, 0, 0, 1, sps[1], sps[2], sps[3], 0xff, 0xe1] + EncodeInt16(|sps|) + sps
  {
    Store(buf, 0, [0x17, 0, 0, 0, 0, 1, sps[1], sps[2], sps[3], 0xff, 0xe1]);
    StoreTwo(buf, 11, EncodeInt16(|sps|), sps);
    p := 13 + |sps|;
    assert buf[..p] == buf[0..11] + buf[11..p];
  }

  method PacketPps(pps: seq<byte>, buf: array<byte>, at: nat) returns (p: nat)
    requires at + 3 + |pps| <= buf.Length
    modifies buf
    ensures p == at + 3 + |pps| && buf[at..p] == [1] + EncodeInt16(|pps|) + pps && buf[..at] == old(buf[..at])
  {
    StoreTwo(buf, at, [1] + EncodeInt16(|pps|), pps);
    p := at + 3 + |pps|;
  }

  method PacketFrame(frame: seq<byte>, key: bool) returns (body: array<byte>)
    requires frame != []
    ensures fresh(body) && body[..] == FrameBody(frame, key)
  {
    body := new byte[|frame| + 9];
    Store(body, 0, [if frame[0] == KEY_SLICE || key then 0x17 else 0x27, 1, 0, 0, 0]);
    StoreTwo(body, 5, EncodeInt32(|frame|), frame);
    assert body[..] == body[0..5] + body[5..5 + 4 + |frame|];
  }

  class Client {
    const streamId: int32
    var sets: ParameterSets
    // Packets pushed to dataFifo.
    var pushed: seq<Message>

    constructor (streamId: int32)
      ensures sets == ParameterSets(None, None) && pushed == [] && this.streamId == streamId
    {
      this.streamId := streamId;
      sets, pushed := ParameterSets(None, None), [];
    }

    /** The packet that has to come before any video. */
    method GetSpsAndPps() returns (r: Option<Message>)
      requires sets.sps.Some? ==> |sets.sps.value| >= 4
      ensures r == if sets.sps.None? || sets.pps.None? then None
                   else Some(Message(0, 9, 6, 0, streamId, SequenceHeader(sets.sps.value, sets.pps.value)))
    {
      if sets.sps.None? || sets.pps.None? {
        return None;
      }
      var sps, pps := sets.sps.value, sets.pps.value;
      var body := new byte[|sps| + 13 + |pps| + 3];
      var p := PacketSps(sps, body);
      ghost var front := body[..p];
      var end := PacketPps(pps, body, p);
      assert body[..] == front + body[p..end];
      r := Some(Message(LARGE, VIDEO, VIDEO_CHANNEL, 0, streamId, body[..]));
    }

    method TakeSps(s: seq<byte>) returns (rest: seq<byte>)
      modifies this`sets
      ensures (sets, rest) == AfterSps(old(sets), s)
    {
      if s == [] || s[0] != SPS {
        return s;
      }
      var size, zeros := Scan(s);
      sets := ParameterSets(if size > 0 then Some(s[..size]) else None, None);
      rest := if size + zeros <= |s| then s[size + zeros..] else [];
    }

    method TakePps(s: seq<byte>) returns (rest: seq<byte>)
      modifies this`sets
      ensures (sets, rest) == AfterPps(old(sets), s)
    {
      if s == [] || s[0] != PPS {
        return s;
      }
      var size, zeros := Scan(s);
      sets := sets.(pps := if size > 0 then Some(s[..size]) else None);
      rest := if size + zeros <= |s| then s[size + zeros..] else [];
    }

    /** sendX264VideoData. */
    method SendX264VideoData(data: seq<byte>, timestamp: uint32, absTimestamp: bool, key: bool) returns (ret: int)
      modifies this
      ensures if Unprefixed(data).None? then ret == -1 && sets == old(sets) && pushed == old(pushed)
        else
          var (sets1, rest1) := AfterSps(old(sets), Unprefixed(data).value);
          var (sets2, frame) := AfterPps(sets1, rest1);
          && ret == 0 && sets == sets2
          && pushed == old(pushed) + if frame == [] then []
             else [Message(if absTimestamp then 0 else 1, 9, 6, timestamp, streamId, FrameBody(frame, key))]
    {
      var s;
      if START_CODE <= data {
        s := data[4..];
      } else if SHORT_CODE <= data {
        s := data[3..];
      } else {
        return -1;
      }
      s := TakeSps(s);
      s := TakePps(s);
      if s != [] {
        var body := PacketFrame(s, key);
        var headerType := if absTimestamp then LARGE else MEDIUM;
        pushed := pushed + [Message(headerType, VIDEO, VIDEO_CHANNEL, timestamp, streamId, body[..])];
      }
      ret := 0;
    }
  }
}
