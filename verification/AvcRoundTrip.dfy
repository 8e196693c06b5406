/**
 What the H.264 packetiser and the receiver's callbacks do to each other.
 */
module AvcRoundTrip {
  import opened Wrappers
  import opened Bytes
  import opened AvcPacketiser
  import opened AvcReceiver
  import opened Sequences
  import opened StartCodes

  // ----- the receiver on any well-formed body -----

  /** NAL units with their four-byte lengths. */
  function Packed(units: seq<seq<byte>>): seq<byte> {
    if units == [] then [] else EncodeInt32(|units[0]|) + units[0] + Packed(units[1..])
  }

  /** Units the receiver can take: not empty, not too large, and not one to three bytes shorter than the buffer. */
  predicate Fit(units: seq<seq<byte>>, size: nat) {
    units == []
    || (var n := |units[0]|; 0 < n <= MAX_UNIT && (n >= size || n + 4 <= size) && Fit(units[1..], Grown(size, n)))
  }

  function GrownBy(units: seq<seq<byte>>, size: nat): nat {
    if units == [] then size else GrownBy(units[1..], Grown(size, |units[0]|))
  }

  function Frames(units: seq<seq<byte>>, info: Info): seq<Call> {
    if units == [] then [] else [Video(START_CODE + units[0], info)] + Frames(units[1..], info)
  }

  lemma OneUnit(body: seq<byte>, pos: nat, n: nat, len: int, size: nat, info: Info)
    requires pos + 4 + n <= |body| && DecodeInt32(body[pos..]) == n && len > 4
    requires 0 < n <= MAX_UNIT && n + 4 <= Grown(size, n)
    ensures var end := pos + 4 + n;
      var call := Video(START_CODE + body[pos + 4..end], info);
      if end == |body| then Units(body, pos, len, size, info) == Some(Outcome([call], Grown(size, n)))
      else
        var later := Units(body, end, len - 4 - n, Grown(size, n), info);
        later.Some? ==> Units(body, pos, len, size, info) == Some(later.value.Behind(call))
  {}

  lemma PackedParts(body: seq<byte>, pos: nat, units: seq<seq<byte>>)
    requires pos <= |body| && body[pos..] == Packed(units) && units != [] && |units[0]| <= MAX_UNIT
    ensures var n := |units[0]|;
      var end := pos + 4 + n;
      && end <= |body| && DecodeInt32(body[pos..]) == n
      && body[pos + 4..end] == units[0] && body[end..] == Packed(units[1..])
  {
    var n, rest := |units[0]|, Packed(units[1..]);
    assert Packed(units) == EncodeInt32(n) + units[0] + rest;
    hide *;
    DecodeEncodeInt32(n, units[0] + rest);
    Regroup(EncodeInt32(n), units[0], rest);
    UnitSlices(body, pos, EncodeInt32(n), units[0], rest);
  }

  lemma UnitSlices(body: seq<byte>, pos: nat, size: seq<byte>, unit: seq<byte>, rest: seq<byte>)
    requires pos <= |body| && |size| == 4 && body[pos..] == size + unit + rest
    ensures var end := pos + 4 + |unit|; end <= |body| && body[pos + 4..end] == unit && body[end..] == rest
  {
    var tail := body[pos..];
    assert tail[4..4 + |unit|] == unit && tail[4 + |unit|..] == rest;
  }

  lemma {:induction false} UnitsDelivered(body: seq<byte>, pos: nat, units: seq<seq<byte>>, size: nat, info: Info)
    requires pos <= |body| && body[pos..] == Packed(units) && units != [] && Fit(units, size)
    ensures Units(body, pos, |body| - pos + 2, size, info) == Some(Outcome(Frames(units, info), GrownBy(units, size)))
    decreases |units|
  {
    hide Units, DecodeInt32, EncodeInt32;
    var n := |units[0]|;
    PackedParts(body, pos, units);
    OneUnit(body, pos, n, |body| - pos + 2, size, info);
    if units[1..] != [] {
      assert |Packed(units[1..])| >= 4;
      UnitsDelivered(body, pos + 4 + n, units[1..], Grown(size, n), info);
    } else {
      assert Frames(units, info) == [Video(START_CODE + units[0], info)] && GrownBy(units, size) == Grown(size, n);
      assert |body[pos + 4 + n..]| == 0;
    }
  }

  predicate AllShort(units: seq<seq<byte>>) {
    forall u | u in units :: |u| < TWO_32
  }

  lemma PackedHead(body: seq<byte>, pos: nat, units: seq<seq<byte>>)
    requires pos <= |body| && body[pos..] == Packed(units) && units != [] && |units[0]| < TWO_32
    ensures pos + 4 <= |body| && DecodeInt32(body[pos..]) == |units[0]|
  {
    hide DecodeInt32, EncodeInt32;
    var n, rest := |units[0]|, Packed(units[1..]);
    DecodeEncodeInt32(n, units[0] + rest);
    Regroup(EncodeInt32(n), units[0], rest);
  }

  lemma OneUnitRefused(body: seq<byte>, pos: nat, n: nat, len: int, size: nat, info: Info)
    requires pos + 4 <= |body| && DecodeInt32(body[pos..]) == n && len > 4
    requires !(0 < n <= MAX_UNIT && n + 4 <= Grown(size, n))
    ensures var o := Units(body, pos, len, size, info); o.Some? ==> o.value.calls == []
  {}

  lemma {:induction false} UnitsRefused(body: seq<byte>, pos: nat, units: seq<seq<byte>>, size: nat, info: Info)
    requires pos <= |body| && body[pos..] == Packed(units) && AllShort(units) && !Fit(units, size)
    ensures var o := Units(body, pos, |body| - pos + 2, size, info); o.Some? ==> |o.value.calls| < |Frames(units, info)|
    decreases |units|
  {
    hide Units, DecodeInt32, EncodeInt32;
    var n := |units[0]|;
    PackedHead(body, pos, units);
    if 0 < n <= MAX_UNIT && n + 4 <= Grown(size, n) {
      PackedParts(body, pos, units);
      assert |Packed(units[1..])| >= 4;
      UnitsRefused(body, pos + 4 + n, units[1..], Grown(size, n), info);
      NoMoreThanLater(body, pos, n, |body| - pos + 2, size, info);
    } else {
      OneUnitRefused(body, pos, n, |body| - pos + 2, size, info);
    }
  }

  lemma NoMoreThanLater(body: seq<byte>, pos: nat, n: nat, len: int, size: nat, info: Info)
    requires pos + 4 + n < |body| && DecodeInt32(body[pos..]) == n && len > 4
    requires 0 < n <= MAX_UNIT && n + 4 <= Grown(size, n)
    ensures var o := Units(body, pos, len, size, info);
      var later := Units(body, pos + 4 + n, len - 4 - n, Grown(size, n), info);
      o.Some? ==> later.Some? && |o.value.calls| == 1 + |later.value.calls|
  {}

  /**
   A body of `k` NAL units becomes `k` callbacks, in order, although the loop's count is two too
   large: exactly when all units are ones the receiver can take.
   */
  lemma BodyDeliveredIff(p: VideoPacket, key: byte, composition: seq<byte>, units: seq<seq<byte>>, size: nat)
    requires key <= 2 && |composition| == 3 && AllShort(units)
    requires p.body == [key * 16 + 7, 1] + composition + Packed(units)
    ensures var o, info := Handled(false, p, size), Info(p.timestamp, p.absolute, key);
      && (Fit(units, size) ==> o == Some(Outcome(Frames(units, info), GrownBy(units, size))))
      && ((o.Some? && o.value.calls == Frames(units, info)) <==> Fit(units, size))
  {
    hide Units;
    var body, info := p.body, Info(p.timestamp, p.absolute, key);
    assert body[0] == key * 16 + 7 && body[1] == 1;
    if units != [] {
      assert body[5..] == Packed(units);
      assert |Packed(units)| >= 4;
      if Fit(units, size) {
        UnitsDelivered(body, 5, units, size, info);
      } else {
        UnitsRefused(body, 5, units, size, info);
      }
    }
  }

  // ----- the start-code scan -----

  lemma RunSnoc(s: seq<byte>, b: byte)
    ensures Run(s + [b]) == if Low(b) then Run(s) + 1 else 0
  {
    assert (s + [b])[..|s|] == s;
  }

  predicate IsCode(code: seq<byte>) {
    code == START_CODE || code == SHORT_CODE
  }

  lemma RunOfCode(s: seq<byte>, code: seq<byte>)
    requires IsCode(code)
    ensures Run(s + code) == Run(s) + |code|
  {
    hide Run;
    var two := s + [0] + [0];
    RunSnoc(s, 0);
    RunSnoc(s + [0], 0);
    if code == SHORT_CODE {
      RunSnoc(two, 1);
      assert s + code == two + [1];
    } else {
      RunSnoc(two, 0);
      RunSnoc(two + [0], 1);
      assert s + code == two + [0] + [1];
    }
  }

  /** No start code ends inside, and the last byte cannot be taken for part of one. */
  predicate Separable(unit: seq<byte>) {
    NoCode(unit, |unit|) && unit != [] && !Low(unit[|unit| - 1])
  }

  lemma SeparableIff(unit: seq<byte>)
    ensures Separable(unit) <==>
      && unit != [] && unit[|unit| - 1] > 1
      && forall i | 2 <= i < |unit| :: !(unit[i - 2] <= 1 && unit[i - 1] <= 1 && unit[i] == 1)
  {
    forall i: nat {
      CodeEndsIff(unit, i);
    }
    hide CodeEnds;
  }

  lemma SameCodes(unit: seq<byte>, tail: seq<byte>, i: nat)
    requires i < |unit|
    ensures CodeEnds(unit + tail, i) == CodeEnds(unit, i)
  {
    assert (unit + tail)[..i + 1] == unit[..i + 1];
  }

  lemma {:induction false} FirstCodeIs(s: seq<byte>, i: nat, e: nat)
    requires i <= e < |s| && NoCode(s, e) && CodeEnds(s, e)
    ensures FirstCode(s, i) == e
    decreases e - i
  {
    if i < e {
      FirstCodeIs(s, i + 1, e);
    }
  }

  /** Without a code inside the unit, the first one is the start code behind it. */
  lemma CodeBehind(unit: seq<byte>, code: seq<byte>, rest: seq<byte>)
    requires IsCode(code) && NoCode(unit, |unit|)
    ensures var s, e := unit + code + rest, |unit| + |code|;
      && FirstCode(s, 0) == e - 1 && Looked(s) == e && Behind(s) == rest
      && Run(s[..e]) == Run(unit) + |code| && UnitSize(s) == |unit| - Run(unit)
  {
    hide Run, FirstCode, Looked, Behind, UnitSize, NoCode;
    var s, e := unit + code + rest, |unit| + |code|;
    CodeInside(unit, code, rest);
    RunOfCode(unit, code);
    NoneBefore(unit, code, rest);
    CodeFound(s, e);
  }

  lemma CodeFound(s: seq<byte>, e: nat)
    requires 0 < e <= |s| && NoCode(s, e - 1) && s[e - 1] == 1 && Run(s[..e]) >= 3
    ensures FirstCode(s, 0) == e - 1 && Looked(s) == e && Behind(s) == s[e..] && UnitSize(s) == e - Run(s[..e])
  {
    hide Run;
    assert CodeEnds(s, e - 1);
    FirstCodeIs(s, 0, e - 1);
  }

  lemma CodeInside(unit: seq<byte>, code: seq<byte>, rest: seq<byte>)
    requires IsCode(code)
    ensures var s, e := unit + code + rest, |unit| + |code|;
      s[..e] == unit + code && s[e - 1] == 1 && s[e..] == rest
  {
    assert (unit + code + rest)[|unit| + |code| - 1] == code[|code| - 1];
  }

  lemma NoneBefore(unit: seq<byte>, code: seq<byte>, rest: seq<byte>)
    requires IsCode(code) && NoCode(unit, |unit|)
    ensures NoCode(unit + code + rest, |unit| + |code| - 1)
  {
    var s := unit + code + rest;
    assert s == unit + (code + rest);
    forall i | 0 <= i < |unit| + |code| - 1 ensures !CodeEnds(s, i) {
      if i < |unit| {
        SameCodes(unit, code + rest, i);
      } else {
        assert s[i] == code[i - |unit|] == 0;
      }
    }
  }

  /** The scan finds the unit in front of a start code exactly when the unit is separable. */
  lemma UnitFoundIff(unit: seq<byte>, code: seq<byte>, rest: seq<byte>)
    requires IsCode(code) && unit != []
    ensures UnitSize(unit + code + rest) == |unit| <==> Separable(unit)
    ensures Separable(unit) ==> Behind(unit + code + rest) == rest
    ensures Separable(unit) <==>
      && unit[|unit| - 1] > 1
      && forall i | 2 <= i < |unit| :: !(unit[i - 2] <= 1 && unit[i - 1] <= 1 && unit[i] == 1)
  {
    SeparableIff(unit);
    var s := unit + code + rest;
    if NoCode(unit, |unit|) {
      CodeBehind(unit, code, rest);
    } else {
      var i :| 0 <= i < |unit| && CodeEnds(unit, i);
      SameCodes(unit, code + rest, i);
      assert s == unit + (code + rest);
      assert CodeEnds(s, i) && FirstCode(s, 0) <= i;
    }
  }

  // ----- packetiser and receiver together -----

  /** Parameter sets and a frame between start codes. */
  function AnnexB(first: seq<byte>, sps: seq<byte>, second: seq<byte>, pps: seq<byte>, third: seq<byte>,
                  frame: seq<byte>): seq<byte>
  {
    first + (sps + second + (pps + third + frame))
  }

  /** The client stores exactly the parameter sets, and the rest is the frame. */
  lemma SetsAreSplit(sets: ParameterSets, first: seq<byte>, sps: seq<byte>, second: seq<byte>, pps: seq<byte>,
                     third: seq<byte>, frame: seq<byte>)
    requires IsCode(first) && IsCode(second) && IsCode(third)
    requires Separable(sps) && Separable(pps) && sps[0] == 0x67 && pps[0] == 0x68
    ensures Unprefixed(AnnexB(first, sps, second, pps, third, frame)) == Some(sps + second + (pps + third + frame))
    ensures AfterSps(sets, sps + second + (pps + third + frame))
            == (ParameterSets(Some(sps), None), pps + third + frame)
    ensures AfterPps(ParameterSets(Some(sps), None), pps + third + frame)
            == (ParameterSets(Some(sps), Some(pps)), frame)
  {
    assert !Low(SPS) && !Low(PPS);
    hide UnitSize, Behind, NoCode, AfterSps, AfterPps;
    var rest := pps + third + frame;
    Prefixed(first, sps + second + rest);
    SpsTaken(sets, sps, second, rest);
    PpsTaken(ParameterSets(Some(sps), None), pps, third, frame);
  }

  lemma SpsTaken(sets: ParameterSets, sps: seq<byte>, code: seq<byte>, rest: seq<byte>)
    requires IsCode(code) && Separable(sps) && sps[0] == 0x67
    ensures AfterSps(sets, sps + code + rest) == (ParameterSets(Some(sps), None), rest)
  {
    hide UnitSize, Behind, NoCode, IsCode;
    UnitFoundIff(sps, code, rest);
    assert (sps + code + rest)[..|sps|] == sps && (sps + code + rest)[0] == sps[0];
  }

  lemma PpsTaken(sets: ParameterSets, pps: seq<byte>, code: seq<byte>, rest: seq<byte>)
    requires IsCode(code) && Separable(pps) && pps[0] == 0x68
    ensures AfterPps(sets, pps + code + rest) == (sets.(pps := Some(pps)), rest)
  {
    hide UnitSize, Behind, NoCode, IsCode;
    UnitFoundIff(pps, code, rest);
    assert (pps + code + rest)[..|pps|] == pps && (pps + code + rest)[0] == pps[0];
  }

  lemma Prefixed(code: seq<byte>, s: seq<byte>)
    requires IsCode(code) && (s == [] || !Low(s[0]))
    ensures Unprefixed(code + s) == Some(s)
  {
    assert code + s == code + s && (code + s)[|code|..] == s;
    if code == SHORT_CODE {
      assert (code + s)[2] == 1;
    } else {
      assert START_CODE <= code + s;
    }
  }

  function Sets(sps: seq<byte>, pps: seq<byte>): Call {
    SpsPps(sps, |sps|, pps, |pps|)
  }

  /** What the callbacks get from a sequence header that is read as it was meant. */
  function SetsDelivered(p: VideoPacket, sps: seq<byte>, pps: seq<byte>, size: nat): Outcome {
    var data := START_CODE + sps + (START_CODE + pps);
    Outcome([Sets(sps, pps), Video(data, Info(p.timestamp, p.absolute, 1))], size)
  }

  /**
   The sequence header gives both parameter sets back if and only if their lengths are read as
   positive numbers and both fit the buffer.
   */
  lemma HeaderDeliveredIff(p: VideoPacket, sps: seq<byte>, pps: seq<byte>, size: nat)
    requires 4 <= |sps| < 0x1_0000 && 1 <= |pps| < 0x1_0000
    requires p.body == SequenceHeader(sps, pps)
    ensures Handled(false, p, size) == Some(SetsDelivered(p, sps, pps, size))
            <==> |sps| < 0x8000 && |pps| < 0x8000 && |sps| + |pps| + 8 <= size
  {
    HeaderFields(sps, pps);
    hide SequenceHeader, Parameters;
    var info := Info(p.timestamp, p.absolute, 1);
    if |sps| >= 0x8000 || |pps| >= 0x8000 {
      ParametersMisread(p.body, sps, pps, size, info);
    } else {
      ParametersRead(p.body, sps, pps, size, info);
    }
  }

  lemma ParametersRead(body: seq<byte>, sps: seq<byte>, pps: seq<byte>, size: nat, info: Info)
    requires 4 <= |sps| < 0x8000 && 1 <= |pps| < 0x8000 && |body| == 16 + |sps| + |pps|
    requires DecodeInt16(body[11..]) == |sps| && DecodeInt16(body[14 + |sps|..]) == |pps|
    requires body[13..13 + |sps|] == sps && body[16 + |sps|..16 + |sps| + |pps|] == pps
    ensures Parameters(body, size, info)
      == if |sps| + |pps| + 8 > size then None
         else Some(Outcome([Sets(sps, pps), Video(START_CODE + sps + (START_CODE + pps), info)], size))
  {
    hide DecodeInt16;
    assert body[13 + |sps| + 1..] == body[14 + |sps|..];
  }

  /** A length of 0x8000 or more is read as a negative one. */
  lemma ParametersMisread(body: seq<byte>, sps: seq<byte>, pps: seq<byte>, size: nat, info: Info)
    requires 4 <= |sps| < 0x1_0000 && 1 <= |pps| < 0x1_0000 && |body| == 16 + |sps| + |pps|
    requires |sps| >= 0x8000 || |pps| >= 0x8000
    requires DecodeInt16(body[11..]) == |sps| && DecodeInt16(body[14 + |sps|..]) == |pps|
    ensures var o := Parameters(body, size, info); o.Some? ==> o.value.calls[0] != Sets(sps, pps)
  {
    hide DecodeInt16;
    assert body[13 + |sps| + 1..] == body[14 + |sps|..];
  }

  lemma HeaderFields(sps: seq<byte>, pps: seq<byte>)
    requires 4 <= |sps| < 0x1_0000 && 1 <= |pps| < 0x1_0000
    ensures var body := SequenceHeader(sps, pps);
      && |body| == 16 + |sps| + |pps| && body[0] == 0x17 && body[1] == 0
      && DecodeInt16(body[11..]) == |sps| && DecodeInt16(body[14 + |sps|..]) == |pps|
      && body[13..13 + |sps|] == sps && body[16 + |sps|..16 + |sps| + |pps|] == pps
  {
    HeaderParts([0x17, 0, 0, 0, 0, 1, sps[1], sps[2], sps[3], 0xff, 0xe1], sps, pps);
    hide DecodeInt16, EncodeInt16;
  }

  /**
   The decoder configuration record (ISO/IEC 14496-15, section 5.2.4.1) behind the five bytes of a
   sequence header: version 1, profile, compatibility and level as in the set, unit lengths of four
   bytes, one set of either kind.
   */
  lemma ConfigurationRecord(sps: seq<byte>, pps: seq<byte>)
    requires 4 <= |sps| < 0x1_0000 && |pps| < 0x1_0000
    ensures var body := SequenceHeader(sps, pps);
      && |body| == 16 + |sps| + |pps| && body[..6] == [0x17, 0, 0, 0, 0, 1]
      && body[6..9] == sps[1..4] && body[9] % 4 + 1 == 4 && body[10] % 32 == 1 && body[13 + |sps|] == 1
  {
    hide EncodeInt16;
  }

  /** A frame's packet: key or inter frame of codec 7, a unit, no composition time, its length and itself. */
  lemma FrameRecord(frame: seq<byte>, key: bool)
    requires frame != []
    ensures var b := FrameBody(frame, key);
      && b[0] / 16 == (if frame[0] == 0x65 || key then 1 else 2) && b[0] % 16 == 7
      && b[1..5] == [1, 0, 0, 0] && b[9..] == frame
      && b[5..9] == [|frame| / 0x100_0000 % 0x100, |frame| / 0x1_0000 % 0x100, |frame| / 0x100 % 0x100, |frame| % 0x100]
  {}

  /** In raw mode any body is handed on as it is, as no key frame, and nothing else is. */
  lemma RawDelivered(p: VideoPacket, size: nat)
    ensures Handled(true, p, size) == Some(Outcome([Video(p.body, Info(p.timestamp, p.absolute, 0))], size))
  {}

  /** Other codecs, frame types and AVC packet types, and bodies too short for theirs, reach no callback. */
  lemma OthersIgnored(p: VideoPacket, size: nat)
    requires |p.body| >= 2
    requires p.body[0] % 16 != 7 || p.body[0] / 16 > 2 || p.body[1] > 1
             || (p.body[1] == 0 && (p.body[0] / 16 != 1 || |p.body| < 18)) || (p.body[1] == 1 && |p.body| < 9)
    ensures Handled(false, p, size) == Some(Outcome([], size))
  {}

  lemma HeaderParts(head: seq<byte>, sps: seq<byte>, pps: seq<byte>)
    requires |head| == 11 && |sps| < 0x1_0000 && |pps| < 0x1_0000
    ensures var body := head + EncodeInt16(|sps|) + sps + ([1] + EncodeInt16(|pps|) + pps);
      && |body| == 16 + |sps| + |pps| && body[0] == head[0] && body[1] == head[1]
      && DecodeInt16(body[11..]) == |sps| && DecodeInt16(body[14 + |sps|..]) == |pps|
      && body[13..13 + |sps|] == sps && body[16 + |sps|..16 + |sps| + |pps|] == pps
  {
    hide DecodeInt16, EncodeInt16;
    var tail := [1] + EncodeInt16(|pps|) + pps;
    Slices(head, EncodeInt16(|sps|), sps, tail);
    TailSlices(head + EncodeInt16(|sps|) + sps, EncodeInt16(|pps|), pps);
    DecodeEncodeInt16(|sps|, sps + tail);
    DecodeEncodeInt16(|pps|, pps);
  }

  lemma TailSlices(front: seq<byte>, size: seq<byte>, pps: seq<byte>)
    requires |size| == 2
    ensures var body, n := front + ([1] + size + pps), |front|;
      && body[n + 1..] == size + pps && body[n + 3..n + 3 + |pps|] == pps
  {}

  lemma Slices(a: seq<byte>, b: seq<byte>, c: seq<byte>, d: seq<byte>)
    ensures var s, i := a + b + c + d, |a| + |b|;
      && s[|a|..] == b + (c + d) && s[i..i + |c|] == c && s[i + |c|..] == d
  {}

  /** A frame comes back behind a start code, with its timestamp and the key flag it was sent with. */
  lemma FrameDelivered(p: VideoPacket, frame: seq<byte>, key: bool, size: nat)
    requires frame != [] && Fit([frame], size) && p.body == FrameBody(frame, key)
    ensures var k: byte := if frame[0] == KEY_SLICE || key then 1 else 2;
      Handled(false, p, size)
      == Some(Outcome([Video(START_CODE + frame, Info(p.timestamp, p.absolute, k))], Grown(size, |frame|)))
  {
    var k: byte := if frame[0] == KEY_SLICE || key then 1 else 2;
    assert Packed([frame]) == EncodeInt32(|frame|) + frame + [];
    hide EncodeInt32, Handled, Packed;
    assert FrameBody(frame, key) == [k * 16 + 7, 1] + [0, 0, 0] + Packed([frame]);
    BodyDeliveredIff(p, k, [0, 0, 0], [frame], size);
    var info := Info(p.timestamp, p.absolute, k);
    assert Frames([frame], info) == [Video(START_CODE + frame, info)];
  }

  /**
   What is sent comes back: parameter sets and a frame between start codes of either length reach
   the callbacks as they were, through the sequence header and the frame's packet.
   */
  lemma AccessUnitRoundTrip(sets: ParameterSets, first: seq<byte>, sps: seq<byte>, second: seq<byte>, pps: seq<byte>,
                            third: seq<byte>, frame: seq<byte>, key: bool, timestamp: uint32, absolute: bool, size: nat)
    requires IsCode(first) && IsCode(second) && IsCode(third)
    requires Separable(sps) && Separable(pps) && sps[0] == 0x67 && pps[0] == 0x68 && frame != []
    requires 4 <= |sps| < 0x8000 && |pps| < 0x8000 && |sps| + |pps| + 8 <= size && Fit([frame], size)
    ensures var s := Unprefixed(AnnexB(first, sps, second, pps, third, frame));
      s.Some? &&
      var (sets1, rest) := AfterSps(sets, s.value);
      var (sets2, unit) := AfterPps(sets1, rest);
      var k: byte := if frame[0] == KEY_SLICE || key then 1 else 2;
      && sets2 == ParameterSets(Some(sps), Some(pps)) && unit == frame
      && Handled(false, VideoPacket(0, true, SequenceHeader(sets2.sps.value, sets2.pps.value)), size)
         == Some(Outcome([Sets(sps, pps), Video(START_CODE + sps + (START_CODE + pps), Info(0, true, 1))], size))
      && Handled(false, VideoPacket(timestamp, absolute, FrameBody(unit, key)), size)
         == Some(Outcome([Video(START_CODE + frame, Info(timestamp, absolute, k))], Grown(size, |frame|)))
  {
    SetsAreSplit(sets, first, sps, second, pps, third, frame);
    HeaderDeliveredIff(VideoPacket(0, true, SequenceHeader(sps, pps)), sps, pps, size);
    FrameDelivered(VideoPacket(timestamp, absolute, FrameBody(frame, key)), frame, key, size);
    hide *;
  }
}
