/**
 AVC video packets back into H.264 data: handleVideoPacket (rtmp_stream.c:966-1079).
 */
module AvcReceiver {
  import opened Sequences
  import opened Wrappers
  import opened Bytes
  import opened Memory
  import opened StartCodes

  const DEFAULT_BUF_SIZE := 2097152
  const MAX_UNIT := 20971520

  /** What goes with video data: the packet's timestamp, whether that is absolute, and the key flag. */
  datatype Info = Info(timestamp: uint32, absolute: bool, key: byte)

  /**
   The two callbacks: parameter sets with the lengths that were read for them, which can be negative,
   and data with a start code.
   */
  datatype Call =
    | SpsPps(sps: seq<byte>, spsLen: int, pps: seq<byte>, ppsLen: int)
    | Video(data: seq<byte>, info: Info)

  /** A video packet: its body, and the two fields that are passed on. */
  datatype VideoPacket = VideoPacket(timestamp: uint32, absolute: bool, body: seq<byte>)

  /** What one packet does: the callbacks, and the buffer's size afterwards. */
  datatype Outcome = Outcome(calls: seq<Call>, size: nat)
  {
    function Behind(first: Call): Outcome {
      this.(calls := [first] + calls)
    }
  }

  /** The buffer's size when a unit of `n` bytes is to be copied into it. */
  function Grown(size: nat, n: nat): nat {
    if n >= size then n + 64 else size
  }

  function WithCode(unit: seq<byte>): seq<byte> {
    if unit == [] then [] else START_CODE + unit
  }

  /**
   The loop over the units from `pos` on, with `len` as it is counted. None when a step would
   leave the packet's body or the buffer.
   */
  function Units(body: seq<byte>, pos: nat, len: int, size: nat, info: Info): Option<Outcome>
    requires pos <= |body|
    decreases len
  {
    if len <= 4 then Some(Outcome([], size))
    else if pos + 4 > |body| then None
    else
      var n := DecodeInt32(body[pos..]);
      var end := pos + 4 + n;
      if n > MAX_UNIT || n == 0 then Some(Outcome([], size))
      else if end > |body| || n + 4 > Grown(size, n) then None
      else
        var call := Video(START_CODE + body[pos + 4..end], info);
        if end >= |body| then Some(Outcome([call], Grown(size, n)))
        else
          match Units(body, end, len - 4 - n, Grown(size, n), info)
          case None => None
          case Some(o) => Some(o.Behind(call))
  }

  /** A length field read into a `short`. */
  function Length(field: seq<byte>): (n: int)
    requires |field| >= 2
    ensures -0x8000 <= n < 0x8000
  {
    var n := DecodeInt16(field);
    if n >= 0x8000 then n - 0x1_0000 else n
  }

  /** The set at `at`; nothing is taken, though the position moves, for a length that is not positive. */
  function SetAt(body: seq<byte>, at: nat, n: int): seq<byte>
    requires at + n <= |body|
  {
    if n > 0 then body[at..at + n] else []
  }

  /** The sequence header: a negative length leads back to bytes already passed. */
  function Parameters(body: seq<byte>, size: nat, info: Info): Option<Outcome>
    requires |body| >= 18
  {
    var m := Length(body[11..]);
    var at := 13 + m + 1;
    if at < 0 || at + 2 > |body| then None
    else
      var n := Length(body[at..]);
      if at + 2 + n > |body| then None
      else
        var sps, pps := SetAt(body, 13, m), SetAt(body, at + 2, n);
        var data := WithCode(sps) + WithCode(pps);
        if |data| > size then None else Some(Outcome([SpsPps(sps, m, pps, n), Video(data, info)], size))
  }

  /** handleVideoPacket; with `raw` set the body is passed on as it is. */
  function Handled(raw: bool, p: VideoPacket, size: nat): Option<Outcome> {
    var body := p.body;
    if raw then Some(Outcome([Video(body, Info(p.timestamp, p.absolute, 0))], size))
    else if |body| < 2 then None
    else
      var kind, key, avcType := body[0] % 16, body[0] / 16, body[1];
      var info := Info(p.timestamp, p.absolute, key);
      if kind == 7 && key == 1 && avcType == 0 then
        if |body| < 18 then Some(Outcome([], size)) else Parameters(body, size, info)
      else if kind == 7 && key <= 2 && avcType == 1 then
        // Five bytes are passed over, and only three of them counted.
        if |body| < 9 then Some(Outcome([], size)) else Units(body, 5, |body| - 3, size, info)
      else Some(Outcome([], size))
  }

  class VideoReceiver {
    const needRawVideo: bool
    var videoBuffer: array<byte>
    var calls: seq<Call>

    constructor (needRawVideo: bool)
      ensures videoBuffer.Length == 2097152 && fresh(videoBuffer)
      ensures calls == [] && this.needRawVideo == needRawVideo
    {
      this.needRawVideo := needRawVideo;
      videoBuffer, calls := new byte[DEFAULT_BUF_SIZE], [];
    }

    /** The buffer is replaced by a larger one when it is smaller than the unit. */
    method Grow(n: nat)
      modifies this`videoBuffer
      ensures videoBuffer.Length == Grown(old(videoBuffer.Length), n)
      ensures videoBuffer == old(videoBuffer) || fresh(videoBuffer)
    {
      if n >= videoBuffer.Length {
        var larger := new byte[n + 64];
        forall i | 0 <= i < videoBuffer.Length {
          larger[i] := videoBuffer[i];
        }
        videoBuffer := larger;
      }
    }

    /** One unit goes behind a start code and out to the callback. */
    method Deliver(unit: seq<byte>, info: Info)
      requires |unit| + 4 <= Grown(videoBuffer.Length, |unit|)
      modifies this, videoBuffer
      ensures var n := old(videoBuffer.Length);
        videoBuffer.Length == (if |unit| >= n then |unit| + 64 else n) == Grown(n, |unit|)
      ensures videoBuffer == old(videoBuffer) || fresh(videoBuffer)
      ensures calls == old(calls) + [Video([0, 0, 0, 1] + unit, info)]
    {
      Grow(|unit|);
      StoreTwo(videoBuffer, 0, START_CODE, unit);
      calls := calls + [Video(videoBuffer[0..4 + |unit|], info)];
    }

    method HandleUnits(body: seq<byte>, info: Info)
      requires |body| >= 9 && Units(body, 5, |body| - 3, videoBuffer.Length, info).Some?
      modifies this, videoBuffer
      ensures var o := old(Units(body, 5, |body| - 3, videoBuffer.Length, info)).value;
        calls == old(calls) + o.calls && videoBuffer.Length == o.size
      ensures videoBuffer == old(videoBuffer) || fresh(videoBuffer)
    {
      hide Units, Grown;
      var pos: nat, len: int := 5, |body| - 3;
      ghost var goal, done := Units(body, 5, |body| - 3, videoBuffer.Length, info).value, [];
      while len > 4
        invariant pos <= |body| && calls == old(calls) + done
        invariant videoBuffer == old(videoBuffer) || fresh(videoBuffer)
        invariant Units(body, pos, len, videoBuffer.Length, info).Some?
        invariant done + Units(body, pos, len, videoBuffer.Length, info).value.calls == goal.calls
        invariant Units(body, pos, len, videoBuffer.Length, info).value.size == goal.size
        decreases len
      {
        UnitsStep(body, pos, len, videoBuffer.Length, info);
        var n := DecodeInt32(body[pos..]);
        if n > MAX_UNIT || n == 0 {
          return;
        }
        ghost var call := Video(START_CODE + body[pos + 4..pos + 4 + n], info);
        Deliver(body[pos + 4..pos + 4 + n], info);
        Regroup(old(calls), done, [call]);
        pos, len := pos + 4 + n, len - 4 - n;
        if pos >= |body| {
          return;
        }
        ghost var later := Units(body, pos, len, videoBuffer.Length, info).value.calls;
        Regroup(done, [call], later);
        done := done + [call];
      }
      UnitsEnd(body, pos, len, videoBuffer.Length, info);
    }

    /** A unit that is there goes behind a start code of its own. */
    method Put(unit: seq<byte>, at: nat) returns (end: nat)
      requires at + |WithCode(unit)| <= videoBuffer.Length
      modifies videoBuffer
      ensures end == at + |WithCode(unit)| && videoBuffer[..end] == old(videoBuffer[..at]) + WithCode(unit)
    {
      end := at;
      if |unit| > 0 {
        StoreBehind(videoBuffer, at, START_CODE + unit);
        end := at + |START_CODE + unit|;
      }
    }

    method HandleParameters(body: seq<byte>, info: Info)
      requires |body| >= 18 && Parameters(body, videoBuffer.Length, info).Some?
      modifies this, videoBuffer
      ensures var o := old(Parameters(body, videoBuffer.Length, info)).value;
        calls == old(calls) + o.calls && videoBuffer.Length == o.size && videoBuffer == old(videoBuffer)
    {
      hide WithCode, Length, SetAt;
      var spsLen := Length(body[11..]);
      var sps := SetAt(body, 13, spsLen);
      var end := Put(sps, 0);
      assert videoBuffer[..end] == [] + WithCode(sps) == WithCode(sps);
      var at := 13 + spsLen + 1;
      var ppsLen := Length(body[at..]);
      var pps := SetAt(body, at + 2, ppsLen);
      end := Put(pps, end);
      calls := calls + [SpsPps(sps, spsLen, pps, ppsLen)];
      calls := calls + [Video(videoBuffer[..end], info)];
    }

    method HandleVideoPacket(p: VideoPacket)
      requires Handled(needRawVideo, p, videoBuffer.Length).Some?
      modifies this, videoBuffer
      ensures var o := old(Handled(needRawVideo, p, videoBuffer.Length)).value;
        calls == old(calls) + o.calls && videoBuffer.Length == o.size
      ensures videoBuffer == old(videoBuffer) || fresh(videoBuffer)
    {
      hide Units, Parameters;
      var body := p.body;
      if needRawVideo {
        calls := calls + [Video(body, Info(p.timestamp, p.absolute, 0))];
        return;
      }
      var kind, key, avcType := body[0] % 16, body[0] / 16, body[1];
      var info := Info(p.timestamp, p.absolute, key);
      if kind == 7 && key == 1 && avcType == 0 {
        if |body| < 18 {
          return;
        }
        HandleParameters(body, info);
      }
      if kind == 7 && key <= 2 && avcType == 1 {
        if |body| < 9 {
          return;
        }
        HandleUnits(body, info);
      }
    }
  }

  lemma UnitsStep(body: seq<byte>, pos: nat, len: int, size: nat, info: Info)
    requires pos <= |body| && len > 4 && Units(body, pos, len, size, info).Some?
    ensures pos + 4 <= |body|
    ensures var n, o := DecodeInt32(body[pos..]), Units(body, pos, len, size, info).value;
      var end := pos + 4 + n;
      if n > MAX_UNIT || n == 0 then o == Outcome([], size)
      else
        && end <= |body| && n + 4 <= Grown(size, n)
        && (var call := Video(START_CODE + body[pos + 4..end], info);
            if end >= |body| then o == Outcome([call], Grown(size, n))
            else
              var later := Units(body, end, len - 4 - n, Grown(size, n), info);
              later.Some? && o == later.value.Behind(call))
  {}

  lemma UnitsEnd(body: seq<byte>, pos: nat, len: int, size: nat, info: Info)
    requires pos <= |body| && len <= 4
    ensures Units(body, pos, len, size, info) == Some(Outcome([], size))
  {}
}
