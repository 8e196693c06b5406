/**
 The table of outstanding remote calls (librtmp/rtmp.c:2285-2317, 2381-2400, 2482-2491, 3422-3439).
 */
module CallTable {
  import opened Wrappers
  import opened Bytes
  import opened ChunkFormat
  import opened ChunkSender
  import Amf0

  datatype Call = Call(name: seq<byte>, num: int)

  const NO_CALL := Call([], 0)

  /** Where the first call with this id stands, or the number of calls. */
  function Find(calls: seq<Call>, txn: int): (i: nat)
    ensures i <= |calls|
    ensures i < |calls| ==> calls[i].num == txn
    ensures forall k | 0 <= k < i :: calls[k].num != txn
  {
    if calls == [] || calls[0].num == txn then 0 else 1 + Find(calls[1..], txn)
  }

  function FindName(calls: seq<Call>, name: seq<byte>): (i: nat)
    ensures i <= |calls|
    ensures i < |calls| ==> calls[i].name == name
    ensures forall k | 0 <= k < i :: calls[k].name != name
  {
    if calls == [] || calls[0].name == name then 0 else 1 + FindName(calls[1..], name)
  }

  lemma FindIs(calls: seq<Call>, txn: int, i: nat)
    requires i < |calls| && calls[i].num == txn && forall k | 0 <= k < i :: calls[k].num != txn
    ensures Find(calls, txn) == i
  {
    assert Find(calls, txn) >= i;
  }

  lemma FindNameIs(calls: seq<Call>, name: seq<byte>, i: nat)
    requires i < |calls| && calls[i].name == name && forall k | 0 <= k < i :: calls[k].name != name
    ensures FindName(calls, name) == i
  {
    assert FindName(calls, name) >= i;
  }

  function Without(calls: seq<Call>, i: nat): (rest: seq<Call>)
    ensures |rest| == if i < |calls| then |calls| - 1 else |calls|
  {
    if i < |calls| then calls[..i] + calls[i + 1..] else calls
  }

  class MethodCalls {
    var vals: array<Call>
    var num: nat

    /** The block always has room for the entry being used, in steps of sixteen. */
    ghost predicate Valid()
      reads this
    {
      vals.Length >= (num + 15) / 16 * 16
    }

    ghost function Contents(): (s: seq<Call>)
      requires Valid()
      reads this, vals
      ensures |s| == num
    {
      vals[..num]
    }

    constructor ()
      ensures Valid() && Contents() == [] && fresh(vals)
    {
      vals := new Call[0];
      num := 0;
    }

    /** AV_queue: the block is reallocated whenever the count is a multiple of sixteen. */
    method Queue(name: seq<byte>, txn: int)
      requires Valid()
      modifies this, vals
      ensures Valid() && Contents() == old(Contents()) + [Call(name, txn)]
      ensures vals == old(vals) || fresh(vals)
    {
      ghost var calls := Contents();
      if num % 16 == 0 {
        var bigger := new Call[num + 16](_ => NO_CALL);
        forall i | 0 <= i < num {
          bigger[i] := vals[i];
        }
        vals := bigger;
      }
      assert vals[..num] == calls;
      vals[num] := Call(name, txn);
      num := num + 1;
      assert vals[..num] == calls + [vals[num - 1]];
    }

    /** The entries behind `i` move down by one, the last of them is left where it was. */
    method MoveDown(i: nat, last: nat)
      requires i <= last < vals.Length
      modifies vals
      ensures vals[..i] == old(vals[..i]) && vals[i..last] == old(vals[i + 1..last + 1])
    {
      var j := i;
      while j < last
        invariant i <= j <= last
        invariant forall k | 0 <= k < vals.Length && (k < i || k >= j) :: vals[k] == old(vals[k])
        invariant forall k | i <= k < j :: vals[k] == old(vals[k + 1])
      {
        vals[j] := vals[j + 1];
        j := j + 1;
      }
    }

    /** AV_erase. */
    method Erase(i: nat)
      requires Valid() && i < num
      modifies this`num, vals
      ensures Valid() && num == old(num) - 1 && Contents() == Without(old(Contents()), i)
    {
      ghost var calls := Contents();
      num := num - 1;
      assert vals[..i] == calls[..i] && vals[i + 1..num + 1] == calls[i + 1..];
      MoveDown(i, num);
      assert vals[..num] == vals[..i] + vals[i..num];
      vals[num] := NO_CALL;
    }

    /** A _result message: at most one call, the one with this id, leaves the table. */
    method TakeResult(txn: int) returns (invoked: Option<seq<byte>>)
      requires Valid()
      modifies this`num, vals
      ensures Valid()
      ensures var calls := old(Contents());
        var i := Find(calls, txn);
        && Contents() == Without(calls, i)
        && invoked == (if i < |calls| then Some(calls[i].name) else None)
    {
      invoked := None;
      var i := 0;
      ghost var calls := Contents();
      while i < num
        invariant i <= num && num == old(num) && Valid() && Contents() == calls
        invariant forall k | 0 <= k < i :: calls[k].num != txn
      {
        if vals[i].num == txn {
          assert vals[i] == calls[i];
          FindIs(calls, txn, i);
          invoked := Some(vals[i].name);
          Erase(i);
          return;
        }
        i := i + 1;
      }
    }

    /** _onbwdone, onStatus and playlist_ready: the first call of a certain name is dropped. */
    method DropByName(name: seq<byte>)
      requires Valid()
      modifies this`num, vals
      ensures Valid() && Contents() == Without(old(Contents()), FindName(old(Contents()), name))
    {
      var i := 0;
      ghost var calls := Contents();
      while i < num
        invariant i <= num && num == old(num) && Valid() && Contents() == calls
        invariant forall k | 0 <= k < i :: calls[k].name != name
      {
        if vals[i].name == name {
          assert vals[i] == calls[i];
          FindNameIs(calls, name, i);
          Erase(i);
          return;
        }
        i := i + 1;
      }
    }
  }

  // ----- runs -----

  // "set_playlist"
  const SET_PLAYLIST: seq<byte> := [0x73, 0x65, 0x74, 0x5F, 0x70, 0x6C, 0x61, 0x79, 0x6C, 0x69, 0x73, 0x74]

  /** What changes the table or the id counter. */
  datatype Event =
    // An invoke under the next id, kept in the table.
    | Queued(name: seq<byte>)
    // An invoke under the next id that is not kept, or whose sending fails.
    | Unqueued
    // set_playlist is kept under id 0 and takes no id from the counter.
    | Playlist
    // A _result message; its id can be anything.
    | Result(txn: int)
    // A notification that drops the first call of a name.
    | Drop(name: seq<byte>)
    // RTMP_Close empties the table and starts the ids anew.
    | Close

  /** The table and the id counter, and the calls kept and those that have left since the connection began. */
  datatype State = State(calls: seq<Call>, numInvokes: nat, queued: seq<Call>, left: seq<Call>)

  const START := State([], 0, [], [])

  function Step(s: State, e: Event): State {
    match e
    case Queued(name) => Keep(s.(numInvokes := s.numInvokes + 1), Call(name, s.numInvokes + 1))
    case Unqueued => s.(numInvokes := s.numInvokes + 1)
    case Playlist => Keep(s, Call(SET_PLAYLIST, 0))
    case Result(txn) => Leave(s, Find(s.calls, txn))
    case Drop(name) => Leave(s, FindName(s.calls, name))
    case Close => START
  }

  function Keep(s: State, c: Call): State {
    s.(calls := s.calls + [c], queued := s.queued + [c])
  }

  function Leave(s: State, i: nat): State {
    if i < |s.calls| then s.(calls := Without(s.calls, i), left := s.left + [s.calls[i]]) else s
  }

  function Run(s: State, es: seq<Event>): State
    decreases |es|
  {
    if es == [] then s else Run(Step(s, es[0]), es[1..])
  }

  /** `part` is `all` with some entries left out: the order is that of `all`. */
  predicate PartOf(part: seq<Call>, all: seq<Call>) {
    part == []
    || (all != [] && ((part[0] == all[0] && PartOf(part[1..], all[1..])) || PartOf(part, all[1..])))
  }

  /** Ids other than 0 are handed out once, in increasing order. */
  ghost predicate Numbered(queued: seq<Call>, n: nat) {
    && (forall i | 0 <= i < |queued| :: 0 <= queued[i].num <= n)
    && (forall i, j | 0 <= i < j < |queued| && queued[i].num != 0 && queued[j].num != 0
          :: queued[i].num < queued[j].num)
  }

  /** Every call kept is still in the table or has left it, as often as it was kept. */
  ghost predicate Conserved(s: State) {
    multiset(s.calls) + multiset(s.left) == multiset(s.queued)
  }

  ghost predicate Inv(s: State) {
    Numbered(s.queued, s.numInvokes) && Conserved(s) && PartOf(s.calls, s.queued)
  }

  lemma {:induction false} PartGrows(part: seq<Call>, all: seq<Call>, c: Call)
    requires PartOf(part, all)
    ensures PartOf(part + [c], all + [c])
    decreases |all|
  {
    if all == [] {
      assert part + [c] == [c] == all + [c] && [c][1..] == [];
    } else {
      assert (all + [c])[1..] == all[1..] + [c];
      if part == [] || !(part[0] == all[0] && PartOf(part[1..], all[1..])) {
        PartGrows(part, all[1..], c);
      } else {
        assert (part + [c])[1..] == part[1..] + [c];
        PartGrows(part[1..], all[1..], c);
      }
    }
  }

  lemma {:induction false} PartOfRest(part: seq<Call>, all: seq<Call>)
    requires PartOf(part, all) && part != []
    ensures all != [] && PartOf(part[1..], all[1..])
    decreases |all|
  {
    if !(part[0] == all[0] && PartOf(part[1..], all[1..])) {
      PartOfRest(part, all[1..]);
    }
  }

  lemma {:induction false} PartWithout(part: seq<Call>, all: seq<Call>, i: nat)
    requires PartOf(part, all) && i < |part|
    ensures PartOf(Without(part, i), all)
    decreases |all|
  {
    if !(part[0] == all[0] && PartOf(part[1..], all[1..])) {
      PartWithout(part, all[1..], i);
    } else if i == 0 {
      assert Without(part, 0) == part[1..];
    } else {
      PartWithout(part[1..], all[1..], i - 1);
      assert Without(part, i)[1..] == Without(part[1..], i - 1) && Without(part, i)[0] == part[0];
    }
  }

  lemma KeepKeepsInv(s: State, c: Call, n: nat)
    requires Inv(s) && s.numInvokes <= n && 0 <= c.num <= n
    requires c.num == 0 || (n == s.numInvokes + 1 && c.num == n)
    ensures Inv(Keep(s.(numInvokes := n), c))
  {
    PartGrows(s.calls, s.queued, c);
  }

  /** How many invokes were made since the connection was last closed. */
  function Invokes(es: seq<Event>): nat {
    if es == [] then 0
    else
      var before, last := Invokes(es[..|es| - 1]), es[|es| - 1];
      if last.Close? then 0 else if last.Queued? || last.Unqueued? then before + 1 else before
  }

  /** The n-th invoke since then has the id n, kept or not; set_playlist has none of them. */
  lemma {:induction false} IdsCount(es: seq<Event>)
    ensures Run(START, es).numInvokes == Invokes(es)
    decreases |es|
  {
    if es != [] {
      var before, last := es[..|es| - 1], es[|es| - 1];
      assert es == before + [last];
      RunSnoc(START, before, last);
      IdsCount(before);
    }
  }

  /** What each event does to the table. */
  lemma EventsDo(es: seq<Event>, name: seq<byte>, txn: int)
    ensures var calls := Run(START, es).calls;
      && Run(START, es + [Queued(name)]).calls == calls + [Call(name, Invokes(es) + 1)]
      && Run(START, es + [Unqueued]).calls == calls
      && Run(START, es + [Playlist]).calls == calls + [Call(SET_PLAYLIST, 0)]
      && Run(START, es + [Result(txn)]).calls == Without(calls, Find(calls, txn))
      && Run(START, es + [Drop(name)]).calls == Without(calls, FindName(calls, name))
      && Run(START, es + [Close]).calls == []
  {
    IdsCount(es);
    RunSnoc(START, es, Queued(name));
    RunSnoc(START, es, Unqueued);
    RunSnoc(START, es, Playlist);
    RunSnoc(START, es, Result(txn));
    RunSnoc(START, es, Drop(name));
    RunSnoc(START, es, Close);
    hide Run, Invokes, Find, FindName;
  }

  lemma PlaylistName()
    ensures Text(SET_PLAYLIST) == "set_playlist"
  {}

  /** One entry moves from the table to the departed. */
  lemma LeaveKeepsInv(s: State, i: nat)
    requires Inv(s)
    ensures Inv(Leave(s, i))
  {
    if i < |s.calls| {
      PartWithout(s.calls, s.queued, i);
      assert s.calls == s.calls[..i] + [s.calls[i]] + s.calls[i + 1..];
    }
  }

  lemma StepKeepsInv(s: State, e: Event)
    requires Inv(s)
    ensures Inv(Step(s, e))
  {
    match e
    case Queued(name) => KeepKeepsInv(s, Call(name, s.numInvokes + 1), s.numInvokes + 1);
    case Unqueued =>
    case Playlist => KeepKeepsInv(s, Call(SET_PLAYLIST, 0), s.numInvokes);
    case Result(txn) => LeaveKeepsInv(s, Find(s.calls, txn));
    case Drop(name) => LeaveKeepsInv(s, FindName(s.calls, name));
    case Close =>
  }

  /** The calls kept are conserved over any run, whatever results arrive: unknown, repeated, reordered, never kept. */
  lemma {:induction false} EveryRunKeepsInv(s: State, es: seq<Event>)
    requires Inv(s)
    ensures Inv(Run(s, es))
    decreases |es|
  {
    if es != [] {
      StepKeepsInv(s, es[0]);
      EveryRunKeepsInv(Step(s, es[0]), es[1..]);
    }
  }

  /** An id other than 0 is the id of one entry. */
  lemma {:induction false} KeptOnce(queued: seq<Call>, n: nat, c: Call)
    requires Numbered(queued, n) && c in queued && c.num != 0
    ensures multiset(queued)[c] == 1 && forall d | d in queued && d.num == c.num :: d == c
    decreases |queued|
  {
    assert queued == [queued[0]] + queued[1..];
    if queued[0].num == c.num {
      assert c !in queued[1..];
    } else {
      KeptOnce(queued[1..], n, c);
    }
  }

  /** A call kept under an id other than 0 is in the table exactly when it has not left. */
  lemma InTableIff(s: State, c: Call)
    requires Inv(s) && c in s.queued && c.num != 0
    ensures c in s.calls <==> c !in s.left
  {
    KeptOnce(s.queued, s.numInvokes, c);
    assert multiset(s.calls)[c] + multiset(s.left)[c] == 1;
  }

  /**
   After any run, a result with an id other than 0 removes a call if and only if a call was kept
   under that id and has not left; it is that call, and the same result once more removes nothing.
   */
  lemma ResultAnswersItsCall(es: seq<Event>, txn: int)
    requires txn != 0
    ensures var s := Run(START, es);
      var i := Find(s.calls, txn);
      var s' := Step(s, Result(txn));
      && (i < |s.calls| <==> exists c :: c in s.queued && c.num == txn && c !in s.left)
      && (i < |s.calls| ==>
            && s.calls[i] in s.queued && s'.calls == Without(s.calls, i) && s'.left == s.left + [s.calls[i]]
            && forall c | c in s.queued && c.num == txn :: c == s.calls[i])
      && (i == |s.calls| ==> s' == s)
      && Step(s', Result(txn)) == s'
  {
    var s := Run(START, es);
    EveryRunKeepsInv(START, es);
    FoundIff(s, txn);
    var s' := Step(s, Result(txn));
    StepKeepsInv(s, Result(txn));
    FoundIff(s', txn);
    var i := Find(s.calls, txn);
    if i < |s.calls| {
      KeptOnce(s.queued, s.numInvokes, s.calls[i]);
    }
  }

  /** The id of an invoke that was not kept is unknown: its result changes nothing. */
  lemma UnqueuedResultIgnored(es: seq<Event>)
    ensures var s := Run(START, es + [Unqueued]);
      s.numInvokes > 0 && Step(s, Result(s.numInvokes)) == s
  {
    RunSnoc(START, es, Unqueued);
    EveryRunKeepsInv(START, es);
    var s := Run(START, es);
    forall c | c in s.calls
      ensures c.num <= s.numInvokes
    {
      assert c in multiset(s.calls) + multiset(s.left);
      assert c in s.queued;
    }
    assert forall i | 0 <= i < |s.calls| :: s.calls[i] in s.calls && s.calls[i].num <= s.numInvokes;
  }

  lemma {:induction false} RunSnoc(s: State, es: seq<Event>, e: Event)
    ensures Run(s, es + [e]) == Step(Run(s, es), e)
    decreases |es|
  {
    if es == [] {
      assert [] + [e] == [e] && [e][1..] == [];
    } else {
      assert (es + [e])[0] == es[0] && (es + [e])[1..] == es[1..] + [e];
      RunSnoc(Step(s, es[0]), es[1..], e);
    }
  }

  lemma FoundIff(s: State, txn: int)
    requires Inv(s) && txn != 0
    ensures Find(s.calls, txn) < |s.calls| <==> exists c :: c in s.queued && c.num == txn && c !in s.left
    ensures Find(s.calls, txn) < |s.calls| ==> s.calls[Find(s.calls, txn)] in s.queued
  {
    var i := Find(s.calls, txn);
    if i < |s.calls| {
      var c := s.calls[i];
      assert c in multiset(s.calls) + multiset(s.left);
      InTableIff(s, c);
    }
    forall c | c in s.queued && c.num == txn && c !in s.left
      ensures i < |s.calls|
    {
      InTableIff(s, c);
    }
  }

  // ----- queueing what was sent -----

  /** The method name of an invoke body: a string marker, the length, the name. */
  function InvokedName(body: seq<byte>): seq<byte>
    requires |body| >= 3 && |body| >= 3 + DecodeInt16(body[1..])
  {
    body[3..3 + DecodeInt16(body[1..])]
  }

  /** The eight bytes of the transaction id, behind the name and its number marker. */
  function TransactionId(body: seq<byte>): seq<byte>
    requires |body| >= 3 && |body| >= 12 + DecodeInt16(body[1..])
  {
    var at := 4 + DecodeInt16(body[1..]);
    body[at..at + 8]
  }

  predicate IsInvoke(body: seq<byte>) {
    |body| >= 3 && |body| >= 12 + DecodeInt16(body[1..])
  }

  /** What an invoke starts with: its name as a string, its id as a number, then the arguments. */
  function InvokeBody(name: seq<byte>, id: seq<byte>, rest: seq<byte>): seq<byte> {
    [2, |name| / 0x100 % 0x100, |name| % 0x100] + name + [0] + id + rest
  }

  lemma InvokeIsAmf(name: seq<byte>, id: Amf0.Double, rest: seq<byte>)
    requires |name| < 0x1_0000
    ensures InvokeBody(name, id, rest)
            == Amf0.FullValue(Amf0.Str(name)) + Amf0.FullValue(Amf0.Number(id)) + rest
  {}

  /** Name and id are found where they were written. */
  lemma InvokeFields(name: seq<byte>, id: seq<byte>, rest: seq<byte>)
    requires |name| < 0x1_0000 && |id| == 8
    ensures var body := InvokeBody(name, id, rest);
      && IsInvoke(body) && DecodeInt16(body[1..]) == |name|
      && InvokedName(body) == name && TransactionId(body) == id
  {
    var body := InvokeBody(name, id, rest);
    assert DecodeInt16(body[1..]) == |name|;
    hide DecodeInt16;
    assert body[3..3 + |name|] == name && body[4 + |name|..12 + |name|] == id;
  }

  /** A body that ends within the id is none. */
  lemma CutInvoke(name: seq<byte>, id: seq<byte>)
    requires |name| < 0x1_0000 && |id| < 8
    ensures !IsInvoke(InvokeBody(name, id, []))
  {
    var body := InvokeBody(name, id, []);
    assert DecodeInt16(body[1..]) == |name|;
    hide DecodeInt16;
  }

  /** Name and id are kept if the body fits one chunk, or they end before the first header written over it. */
  lemma StaysIff(body: seq<byte>, chunkSize: int, cLen: nat)
    requires IsInvoke(body)
    ensures var end := 12 + DecodeInt16(body[1..]);
      end <= Untouched(|body|, chunkSize, cLen) <==> |body| <= chunkSize || end <= chunkSize - cLen
  {
    hide DecodeInt16;
  }

  lemma SamePrefix(body: seq<byte>, now: seq<byte>, n: int)
    requires |now| == |body| && IsInvoke(body) && 12 + DecodeInt16(body[1..]) <= n <= |body|
    requires forall j | 0 <= j < n :: now[j] == body[j]
    ensures IsInvoke(now) && InvokedName(now) == InvokedName(body) && TransactionId(now) == TransactionId(body)
  {
    assert DecodeInt16(now[1..]) == DecodeInt16(body[1..]);
  }

  /**
   RTMP_SendPacket for an invoke with `queue` set: name and id are read from the body after the send
   loop has written continuation headers into it. They are those of the call as long as both
   lie before the first overwritten byte. `asInt` is how the machine converts the id.
   */
  method SendInvoke(sender: Sender, packet: PacketHeader, mem: array<byte>, calls: MethodCalls, asInt: seq<byte> -> int)
    returns (ok: bool)
    requires sender.outChunkSize > 0 && packet.channel <= 65599 && packet.headerType <= 3 && packet.packetType == 0x14
    requires MAX_HEADER_SIZE + packet.bodySize <= mem.Length
    requires calls.Valid() && IsInvoke(BodyOf(packet, mem))
    requires 12 + DecodeInt16(BodyOf(packet, mem)[1..])
             <= Untouched(packet.bodySize, sender.outChunkSize, 1 + ChannelBytes(packet.channel))
    modifies sender`wire, sender`channelsOut, mem, calls, calls.vals
    ensures ok && calls.Valid()
    ensures var body := old(BodyOf(packet, mem));
      && sender.wire == old(sender.wire) + WireBytes(old(sender.State()), WithBody(packet, body))
      && calls.Contents() == old(calls.Contents()) + [Call(InvokedName(body), asInt(TransactionId(body)))]
      && forall name, id, rest | |name| < 0x1_0000 && |id| == 8 && body == InvokeBody(name, id, rest) ::
           calls.Contents() == old(calls.Contents()) + [Call(name, asInt(id))]
  {
    ghost var body := BodyOf(packet, mem);
    ok := sender.SendPacket(packet, mem);
    var now := mem[MAX_HEADER_SIZE..MAX_HEADER_SIZE + packet.bodySize];
    SamePrefix(body, now, Untouched(packet.bodySize, sender.outChunkSize, 1 + ChannelBytes(packet.channel)));
    calls.Queue(InvokedName(now), asInt(TransactionId(now)));
    forall name, id, rest | |name| < 0x1_0000 && |id| == 8 && body == InvokeBody(name, id, rest)
      ensures InvokedName(body) == name && TransactionId(body) == id
    {
      InvokeFields(name, id, rest);
    }
  }
}
