/**
 Chunks of different channels may arrive interleaved in any order (librtmp/rtmp.c:2973-3087):
 each channel's messages are rebuilt as if its chunks had arrived alone.
 */
module ChunkInterleaving {
  import opened Wrappers
  import opened Bytes
  import opened ChunkFormat
  import opened ChunkReader
  import opened ChunkStream

  datatype Fed = Fed(state: ReaderState, deliveries: seq<Delivery>)

  function Finished(p: InPacket): seq<Delivery> {
    if p.IsReady() then [DeliveryOf(p)] else []
  }

  /** Reads chunk after chunk; every string of `cs` must be exactly one chunk. */
  function Feed(r: ReaderState, carry: InPacket, cs: seq<seq<byte>>): Option<Fed>
    decreases |cs|
  {
    if cs == [] then Some(Fed(r, []))
    else
      var c :- ReadChunk(r, carry, cs[0]);
      if c.rest != [] then None
      else
        var f :- Feed(c.state, c.packet.(body := None), cs[1..]);
        Some(Fed(f.state, Finished(c.packet) + f.deliveries))
  }

  /** Reads a byte stream to its end. */
  function ReadStream(r: ReaderState, carry: InPacket, input: seq<byte>): Option<Fed>
    decreases |input|
  {
    if input == [] then Some(Fed(r, []))
    else
      var c :- ReadChunk(r, carry, input);
      var f :- ReadStream(c.state, c.packet.(body := None), c.rest);
      Some(Fed(f.state, Finished(c.packet) + f.deliveries))
  }

  function Flatten(cs: seq<seq<byte>>): seq<byte> {
    if cs == [] then [] else cs[0] + Flatten(cs[1..])
  }

  predicate OnChannel(c: seq<byte>, channel: nat) {
    ParseBasic(c).Some? && ParseBasic(c).value.channel == channel
  }

  /** The chunks of one channel, in order. */
  function Only(cs: seq<seq<byte>>, channel: nat): seq<seq<byte>> {
    if cs == [] then []
    else (if OnChannel(cs[0], channel) then [cs[0]] else []) + Only(cs[1..], channel)
  }

  function DeliveredOn(ds: seq<Delivery>, channel: nat): seq<Delivery> {
    if ds == [] then []
    else (if ds[0].channel == channel then [ds[0]] else []) + DeliveredOn(ds[1..], channel)
  }

  /** The reader as far as one channel is concerned. */
  function Project(r: ReaderState, channel: nat): ReaderState {
    ReaderState(r.chunkSize,
      if channel in r.stored then map[channel := r.stored[channel]] else map[],
      if channel in r.clock then map[channel := r.clock[channel]] else map[])
  }

  /** Stored packets know their own channel; only the reader itself stores packets. */
  predicate Filed(r: ReaderState) {
    forall ch | ch in r.stored :: r.stored[ch].channel == ch
  }

  /** The first chunk of a channel that holds nothing yet carries a LARGE header. */
  predicate StartsLarge(r: ReaderState, cs: seq<seq<byte>>) {
    cs == []
    || (ParseBasic(cs[0]).Some?
        && (ParseBasic(cs[0]).value.headerType == LARGE || ParseBasic(cs[0]).value.channel in r.stored))
  }

  // ----- one chunk -----

  /** A LARGE header overwrites every field of the packet it starts from. */
  lemma LargeForgets(start1: InPacket, start2: InPacket, h: seq<byte>)
    requires start1.channel == start2.channel && start1.headerType == start2.headerType
    requires start1.hasAbsTimestamp == start2.hasAbsTimestamp
    ensures ParseFields(LARGE, start1, h) == ParseFields(LARGE, start2, h)
  {}

  /** A chunk's packet comes from its own channel's storage alone. */
  lemma HeaderIsLocal(r1: ReaderState, r2: ReaderState, carry1: InPacket, carry2: InPacket, c: seq<byte>, ch: nat)
    requires OnChannel(c, ch) && Project(r1, ch) == Project(r2, ch) && StartsLarge(r1, [c])
    ensures ParseHeader(r1, carry1, c) == ParseHeader(r2, carry2, c)
  {
    hide ParseFields, ParseBasic, Opened;
    var b := ParseBasic(c).value;
    assert ch in r1.stored <==> ch in Project(r1, ch).stored;
    assert ch in r2.stored <==> ch in Project(r2, ch).stored;
    if b.headerType == LARGE {
      LargeForgets(StartPacket(r1, carry1, b), StartPacket(r2, carry2, b), c[b.length..]);
    } else {
      assert Project(r1, ch).stored[ch] == Project(r2, ch).stored[ch];
    }
  }

  lemma HeaderKeepsChannel(r: ReaderState, carry: InPacket, c: seq<byte>)
    requires Filed(r)
    ensures ParseHeader(r, carry, c).Some? ==> OnChannel(c, ParseHeader(r, carry, c).value.packet.channel)
  {}

  /** Keeping a packet touches no channel but its own. */
  lemma KeepIsLocal(r: ReaderState, p: InPacket, ch: nat)
    requires Filed(r)
    ensures var (r', q) := Keep(r, p);
      && Filed(r') && p.channel in r'.stored && r'.chunkSize == r.chunkSize && q.channel == p.channel
      && (ch != p.channel ==> Project(r', ch) == Project(r, ch))
      && (ch == p.channel ==> Keep(Project(r, ch), p) == (Project(r', ch), q))
  {
    if ch == p.channel {
      assert Project(r, ch).Clock(ch) == r.Clock(ch);
      var (r', q) := Keep(r, p);
      assert Keep(Project(r, ch), p).0.stored == Project(r', ch).stored;
      assert Keep(Project(r, ch), p).0.clock == Project(r', ch).clock;
    }
  }

  lemma PayloadIsLocal(r: ReaderState, p: InPacket, input: seq<byte>, ch: nat)
    requires Filed(r)
    ensures var all := ReadPayload(r, p, input);
      && (all.Some? ==>
            && Filed(all.value.state) && all.value.packet.channel == p.channel
            && p.channel in all.value.state.stored)
      && (all.Some? && ch != p.channel ==> Project(all.value.state, ch) == Project(r, ch))
      && (ch == p.channel ==>
            ReadPayload(Project(r, ch), p, input)
            == (if all.None? then None else Some(all.value.(state := Project(all.value.state, ch)))))
  {
    var n := PieceLength(r.chunkSize, p.bodySize, p.bytesRead);
    if 0 <= n <= |input| {
      KeepIsLocal(r, Take(p, input[..n]), ch);
    }
  }

  /** One chunk read with the whole state or with its channel's part of it. */
  lemma ChunkIsLocal(r: ReaderState, carry: InPacket, carry': InPacket, c: seq<byte>, ch: nat)
    requires Filed(r) && OnChannel(c, ch) && StartsLarge(r, [c])
    ensures var all, solo := ReadChunk(r, carry, c), ReadChunk(Project(r, ch), carry', c);
      && solo == (if all.None? then None else Some(all.value.(state := Project(all.value.state, ch))))
      && (all.Some? ==>
            && Filed(all.value.state) && ch in all.value.state.stored && all.value.packet.channel == ch)
  {
    HeaderIsLocal(r, Project(r, ch), carry, carry', c, ch);
    HeaderKeepsChannel(r, carry, c);
    var h := ParseHeader(r, carry, c);
    if h.Some? {
      PayloadIsLocal(r, h.value.packet, c[h.value.length..], ch);
    }
  }

  lemma OthersUntouched(r: ReaderState, carry: InPacket, c: seq<byte>, ch: nat)
    requires Filed(r) && ReadChunk(r, carry, c).Some? && !OnChannel(c, ch)
    ensures Project(ReadChunk(r, carry, c).value.state, ch) == Project(r, ch)
    ensures ch in ReadChunk(r, carry, c).value.state.stored <==> ch in r.stored
  {
    HeaderKeepsChannel(r, carry, c);
    var h := ParseHeader(r, carry, c).value;
    PayloadIsLocal(r, h.packet, c[h.length..], ch);
  }

  // ----- any interleaving -----

  /** A stored channel needs nothing from the caller's packet. */
  lemma {:induction false} CarryIrrelevant(r: ReaderState, carry1: InPacket, carry2: InPacket,
                                           cs: seq<seq<byte>>, ch: nat)
    requires Filed(r) && StartsLarge(r, cs) && (forall i | 0 <= i < |cs| :: OnChannel(cs[i], ch))
    ensures Feed(r, carry1, cs) == Feed(r, carry2, cs)
    decreases |cs|
  {
    if cs != [] {
      assert StartsLarge(r, [cs[0]]);
      HeaderIsLocal(r, r, carry1, carry2, cs[0], ch);
    }
  }

  lemma {:induction false} OnlyIsOnChannel(cs: seq<seq<byte>>, ch: nat)
    ensures forall i | 0 <= i < |Only(cs, ch)| :: OnChannel(Only(cs, ch)[i], ch)
    decreases |cs|
  {
    if cs != [] {
      OnlyIsOnChannel(cs[1..], ch);
    }
  }

  /** The channel's chunks, read alone from the channel's own part of the state. */
  function Alone(r: ReaderState, cs: seq<seq<byte>>, ch: nat): Option<Fed> {
    Feed(Project(r, ch), ZERO_PACKET, Only(cs, ch))
  }

  predicate ReadableOn(r: ReaderState, cs: seq<seq<byte>>, ch: nat) {
    StartsLarge(Project(r, ch), Only(cs, ch)) && Alone(r, cs, ch).Some?
  }

  /** Every string starts a chunk of some channel, and each channel's chunks can be read alone. */
  ghost predicate Readable(r: ReaderState, cs: seq<seq<byte>>) {
    && (forall i | 0 <= i < |cs| :: ParseBasic(cs[i]).Some?)
    && (forall ch: nat :: ReadableOn(r, cs, ch))
  }

  lemma FeedFirst(r: ReaderState, carry: InPacket, cs: seq<seq<byte>>)
    requires cs != [] && Feed(r, carry, cs).Some?
    ensures var c := ReadChunk(r, carry, cs[0]);
      && c.Some? && c.value.rest == []
      && var f := Feed(c.value.state, c.value.packet.(body := None), cs[1..]);
      && f.Some?
      && Feed(r, carry, cs).value == Fed(f.value.state, Finished(c.value.packet) + f.value.deliveries)
  {}

  /** The first chunk is read from the whole state as from its own channel's part, and that channel goes on alone. */
  lemma FirstOnOwnChannel(r: ReaderState, carry: InPacket, cs: seq<seq<byte>>, own: nat)
    requires Filed(r) && cs != [] && OnChannel(cs[0], own) && ReadableOn(r, cs, own)
    ensures var c := ReadChunk(r, carry, cs[0]);
      && c.Some? && c.value.rest == [] && Filed(c.value.state) && c.value.packet.channel == own
      && ReadableOn(c.value.state, cs[1..], own)
      && Alone(r, cs, own).value == Fed(Alone(c.value.state, cs[1..], own).value.state,
           Finished(c.value.packet) + Alone(c.value.state, cs[1..], own).value.deliveries)
  {
    var solo := Only(cs, own);
    assert solo[0] == cs[0] && solo[1..] == Only(cs[1..], own);
    FeedFirst(Project(r, own), ZERO_PACKET, solo);
    ChunkIsLocal(r, carry, ZERO_PACKET, cs[0], own);
    GoesOnAlone(ReadChunk(r, carry, cs[0]).value, cs[1..], own);
  }

  lemma GoesOnAlone(c: Chunk, cs: seq<seq<byte>>, own: nat)
    requires Filed(c.state) && own in c.state.stored
    ensures StartsLarge(Project(c.state, own), Only(cs, own))
    ensures Feed(Project(c.state, own), c.packet.(body := None), Only(cs, own)) == Alone(c.state, cs, own)
  {
    OnlyIsOnChannel(cs, own);
    CarryIrrelevant(Project(c.state, own), c.packet.(body := None), ZERO_PACKET, Only(cs, own), own);
  }

  /** Every other channel has not noticed it. */
  lemma FirstOnOtherChannel(r: ReaderState, carry: InPacket, cs: seq<seq<byte>>, ch: nat)
    requires Filed(r) && cs != [] && ReadChunk(r, carry, cs[0]).Some? && !OnChannel(cs[0], ch)
    ensures var r' := ReadChunk(r, carry, cs[0]).value.state;
      && Alone(r', cs[1..], ch) == Alone(r, cs, ch)
      && (ReadableOn(r', cs[1..], ch) <==> ReadableOn(r, cs, ch))
  {
    OthersUntouched(r, carry, cs[0], ch);
    assert [] + Only(cs[1..], ch) == Only(cs[1..], ch);
  }

  lemma DeliveredOnFirst(p: InPacket, ds: seq<Delivery>, ch: nat)
    ensures DeliveredOn(Finished(p) + ds, ch) == (if ch == p.channel then Finished(p) else []) + DeliveredOn(ds, ch)
  {
    if p.IsReady() {
      assert (Finished(p) + ds)[1..] == ds;
    } else {
      assert Finished(p) + ds == ds;
    }
  }

  /**
   Whatever the interleaving, the reader delivers on every channel what it would have delivered
   had that channel's chunks arrived alone, and ends with the same state for the channel.
   */
  lemma {:induction false} InterleavingIndependence(r: ReaderState, carry: InPacket, cs: seq<seq<byte>>, ch: nat)
    requires Filed(r) && Readable(r, cs)
    ensures ReadableOn(r, cs, ch)
    ensures var all := Feed(r, carry, cs);
      && all.Some?
      && DeliveredOn(all.value.deliveries, ch) == Alone(r, cs, ch).value.deliveries
      && Project(all.value.state, ch) == Alone(r, cs, ch).value.state
    decreases |cs|
  {
    if cs != [] {
      var own := ParseBasic(cs[0]).value.channel;
      FirstOnOwnChannel(r, carry, cs, own);
      var c := ReadChunk(r, carry, cs[0]).value;
      forall other: nat ensures ReadableOn(c.state, cs[1..], other) {
        if other != own {
          FirstOnOtherChannel(r, carry, cs, other);
        }
      }
      if ch != own {
        FirstOnOtherChannel(r, carry, cs, ch);
      }
      InterleavingIndependence(c.state, c.packet.(body := None), cs[1..], ch);
      DeliveredOnFirst(c.packet, Feed(c.state, c.packet.(body := None), cs[1..]).value.deliveries, ch);
    }
  }

  // ----- the same chunks as one byte stream -----

  lemma SliceThenMore(c: seq<byte>, more: seq<byte>, i: nat)
    requires i <= |c|
    ensures (c + more)[i..] == c[i..] + more && (c + more)[..i] == c[..i]
  {}

  lemma BasicThenMore(c: seq<byte>, more: seq<byte>)
    requires ParseBasic(c).Some?
    ensures ParseBasic(c + more) == ParseBasic(c)
  {}

  lemma HeaderThenMore(r: ReaderState, carry: InPacket, c: seq<byte>, more: seq<byte>)
    requires ParseHeader(r, carry, c).Some?
    ensures ParseHeader(r, carry, c + more) == ParseHeader(r, carry, c)
  {
    hide ParseFields, ParseBasic, Opened, StartPacket;
    var b := ParseBasic(c).value;
    BasicThenMore(c, more);
    SliceThenMore(c, more, b.length);
    FieldsThenMore(b.headerType, StartPacket(r, carry, b), c[b.length..], more);
  }

  lemma ChunkThenMore(r: ReaderState, carry: InPacket, c: seq<byte>, more: seq<byte>)
    requires ReadChunk(r, carry, c).Some?
    ensures var x := ReadChunk(r, carry, c).value;
      ReadChunk(r, carry, c + more) == Some(x.(rest := x.rest + more))
  {
    hide ParseHeader, Keep, Take;
    var h := ParseHeader(r, carry, c).value;
    HeaderThenMore(r, carry, c, more);
    SliceThenMore(c, more, h.length);
    SliceThenMore(c[h.length..], more, PieceLength(r.chunkSize, h.packet.bodySize, h.packet.bytesRead));
  }

  lemma FieldsThenMore(headerType: nat, start: InPacket, h: seq<byte>, more: seq<byte>)
    requires headerType <= 3 && ParseFields(headerType, start, h).Some?
    ensures ParseFields(headerType, start, h + more) == ParseFields(headerType, start, h)
  {
    var n := PacketSize(headerType) - 1;
    if n >= 3 {
      assert forall i | 0 <= i < |h| :: (h + more)[i] == h[i];
    }
  }

  /** Reading chunk strings one by one is reading their concatenation. */
  lemma {:induction false} FeedIsStream(r: ReaderState, carry: InPacket, cs: seq<seq<byte>>)
    requires Feed(r, carry, cs).Some?
    ensures ReadStream(r, carry, Flatten(cs)) == Feed(r, carry, cs)
    decreases |cs|
  {
    if cs != [] {
      var c := ReadChunk(r, carry, cs[0]).value;
      ChunkThenMore(r, carry, cs[0], Flatten(cs[1..]));
      assert [] + Flatten(cs[1..]) == Flatten(cs[1..]);
      FeedIsStream(c.state, c.packet.(body := None), cs[1..]);
    }
  }

  /** Read as one byte stream, any interleaving delivers on each channel what the channel's own chunks say. */
  lemma AnyInterleaving(r: ReaderState, carry: InPacket, cs: seq<seq<byte>>, ch: nat)
    requires Filed(r) && Readable(r, cs)
    ensures ReadableOn(r, cs, ch) && ReadStream(Project(r, ch), ZERO_PACKET, Flatten(Only(cs, ch))).Some?
    ensures var all := ReadStream(r, carry, Flatten(cs));
      && all.Some?
      && DeliveredOn(all.value.deliveries, ch)
         == ReadStream(Project(r, ch), ZERO_PACKET, Flatten(Only(cs, ch))).value.deliveries
  {
    InterleavingIndependence(r, carry, cs, ch);
    FeedIsStream(r, carry, cs);
    FeedIsStream(Project(r, ch), ZERO_PACKET, Only(cs, ch));
  }
}
