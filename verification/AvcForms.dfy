/**
 Access units without parameter sets, parameter sets without data behind them, and what the receiver
 makes of headers and lengths that a packetiser need not have written (rtmp_client.c:540-662,
 rtmp_stream.c:966-1079).
 */
module AvcForms {
  import opened Wrappers
  import opened Bytes
  import opened AvcPacketiser
  import opened AvcReceiver

  // ----- packetiser -----

  /** Data behind a start code of either length, and nothing else, are taken. */
  lemma Unprefixes(data: seq<byte>)
    ensures Unprefixed([0, 0, 0, 1] + data) == Some(data) && Unprefixed([0, 0, 1] + data) == Some(data)
    ensures !([0, 0, 0, 1] <= data) && !([0, 0, 1] <= data) ==> Unprefixed(data) == None
  {
    assert ([0, 0, 1] + data)[2] == 1;
  }

  /** Data that do not start with a parameter set of the kind looked for leave the sets alone. */
  lemma NoSetInFront(sets: ParameterSets, s: seq<byte>)
    ensures s == [] || s[0] != 0x67 ==> AfterSps(sets, s) == (sets, s)
    ensures s == [] || s[0] != 0x68 ==> AfterPps(sets, s) == (sets, s)
  {
    hide UnitSize, Behind;
  }

  /** A set with no start code behind it is all of the data, its trailing bytes included. */
  lemma LoneSet(sets: ParameterSets, unit: seq<byte>)
    requires unit != [] && NoCode(unit, |unit|)
    ensures unit[0] == 0x67 ==> AfterSps(sets, unit) == (ParameterSets(Some(unit), None), [])
    ensures unit[0] == 0x68 ==> AfterPps(sets, unit) == (ParameterSets(sets.sps, Some(unit)), [])
  {
    assert FirstCode(unit, 0) == |unit|;
    assert unit[..|unit|] == unit;
    hide FirstCode, NoCode, Run;
  }

  // ----- receiver -----

  /** Which bodies are read as sequence header, and which as units. */
  lemma BodyKinds(p: VideoPacket, size: nat)
    requires |p.body| >= 2
    ensures p.body[0] == 0x17 && p.body[1] == 0 && |p.body| >= 18 ==>
      Handled(false, p, size) == Parameters(p.body, size, Info(p.timestamp, p.absolute, 1))
    ensures (p.body[0] == 0x07 || p.body[0] == 0x17 || p.body[0] == 0x27) && p.body[1] == 1 && |p.body| >= 9 ==>
      Handled(false, p, size)
      == Units(p.body, 5, |p.body| - 3, size, Info(p.timestamp, p.absolute, p.body[0] / 16))
  {
    hide Parameters, Units;
  }

  /** A length of zero, or of more than twenty megabytes, ends the units. */
  lemma LengthEndsUnits(body: seq<byte>, pos: nat, len: int, size: nat, info: Info)
    requires pos + 4 <= |body| && len > 4
    requires DecodeInt32(body[pos..]) == 0 || DecodeInt32(body[pos..]) > 20 * 1024 * 1024
    ensures Units(body, pos, len, size, info) == Some(Outcome([], size))
  {
    hide DecodeInt32;
  }

  /** A set that is there stands behind a start code; one that is not adds nothing. */
  function Coded(unit: seq<byte>): seq<byte> {
    if unit == [] then [] else [0, 0, 0, 1] + unit
  }

  /** Sets of any length below 32768, also empty ones, are taken from where their lengths say they are. */
  lemma SetsTaken(head: seq<byte>, sps: seq<byte>, count: byte, pps: seq<byte>, rest: seq<byte>, size: nat, info: Info)
    requires |head| == 11 && |sps| < 0x8000 && |pps| < 0x8000
    ensures var body := head + EncodeInt16(|sps|) + sps + ([count] + EncodeInt16(|pps|) + (pps + rest));
      |body| >= 18 ==>
        Parameters(body, size, info)
        == if |Coded(sps) + Coded(pps)| > size then None
           else Some(Outcome([SpsPps(sps, |sps|, pps, |pps|), Video(Coded(sps) + Coded(pps), info)], size))
  {
    var m, n := EncodeInt16(|sps|), EncodeInt16(|pps|);
    HeaderSlices(head, m, sps, [count], n, pps, rest);
    DecodeEncodeInt16(|sps|, sps + ([count] + n + (pps + rest)));
    DecodeEncodeInt16(|pps|, pps + rest);
    var body := head + m + sps + ([count] + n + (pps + rest));
    hide *;
    if |body| >= 18 {
      SetsAt(body, sps, pps, size, info);
    }
  }

  lemma HeaderSlices(head: seq<byte>, m: seq<byte>, sps: seq<byte>, c: seq<byte>, n: seq<byte>, pps: seq<byte>,
                     rest: seq<byte>)
    requires |head| == 11 && |m| == 2 && |c| == 1 && |n| == 2
    ensures var body := head + m + sps + (c + n + (pps + rest));
      && body[11..] == m + (sps + (c + n + (pps + rest))) && body[13..13 + |sps|] == sps
      && body[14 + |sps|..] == n + (pps + rest) && body[16 + |sps|..16 + |sps| + |pps|] == pps
  {
    var body := head + m + sps + (c + n + (pps + rest));
    assert body[14 + |sps|..] == n + (pps + rest);
    assert body[16 + |sps|..] == pps + rest;
  }

  lemma SetsAt(body: seq<byte>, sps: seq<byte>, pps: seq<byte>, size: nat, info: Info)
    requires |sps| < 0x8000 && |pps| < 0x8000 && 18 <= |body| && 16 + |sps| + |pps| <= |body|
    requires DecodeInt16(body[11..]) == |sps| && DecodeInt16(body[14 + |sps|..]) == |pps|
    requires body[13..13 + |sps|] == sps && body[16 + |sps|..16 + |sps| + |pps|] == pps
    ensures Parameters(body, size, info)
            == if |Coded(sps) + Coded(pps)| > size then None
               else Some(Outcome([SpsPps(sps, |sps|, pps, |pps|), Video(Coded(sps) + Coded(pps), info)], size))
  {
    hide DecodeInt16;
    assert body[13 + |sps| + 1..] == body[14 + |sps|..];
  }

  /** A length field of 0xFFF2 and above is negative: no set is taken, the second length is further in front. */
  lemma NegativeLength(body: seq<byte>, size: nat, info: Info)
    requires |body| >= 18 && DecodeInt16(body[11..]) >= 0xFFF2
    ensures var at := 14 + DecodeInt16(body[11..]) - 0x1_0000;
      var n := DecodeInt16(body[at..]);
      n == 0 ==> Parameters(body, size, info)
                 == Some(Outcome([SpsPps([], DecodeInt16(body[11..]) - 0x1_0000, [], 0), Video([], info)], size))
  {
    var m := Length(body[11..]);
    hide DecodeInt16;
    assert m == DecodeInt16(body[11..]) - 0x1_0000 && -14 <= m < 0;
    var at := 13 + m + 1;
    assert body[at..] == body[14 + m..];
    var none: seq<byte> := [];
    assert SetAt(body, 13, m) == none && WithCode(none) + WithCode(none) == none;
  }
}
