/**
 The sender thread's inner loop with producers running beside it (rtmp_client.c:287-346): one
 step per program point, so that producers may push between any two of them.
 */
module SenderLoop {
  import opened Wrappers
  import opened Bytes
  import opened PacketTypes

  const INTER_FRAME: byte := 0x27
  const BACKLOG := 75

  datatype Packet = Packet(packetType: byte, body: seq<byte>)

  /** Where the sender thread is, the packet it got from the front of the queue, and the queue's size at the test. */
  datatype Point =
    | Looping
    | Holding(p: Packet)
    | Dropping(p: Packet, size: nat)
    | Kept(p: Packet, size: nat)
    | AfterMeta(p: Packet, size: nat)
    | AfterSps(p: Packet, size: nat)
    | Delivered(p: Packet, size: nat)
    | Broken

  /** What became of a packet, with the queue's size when it was tested. */
  datatype Outcome = Sent(packet: Packet, size: nat) | Dropped(packet: Packet, size: nat)

  /**
   What was sent or tried. NoMeta and NoSps: its turn came, but there was nothing stored to send;
   the thread then counts it as sent.
   */
  datatype Attempt = Meta | NoMeta | Sps | NoSps | Data(packet: Packet)

  datatype SendResult = Success | TimedOut | Failed

  datatype State = State(
    queue: seq<Packet>,
    // Whether there is metadata, and whether both parameter sets are stored.
    hasMeta: bool,
    hasSets: bool,
    hasSendMeta: bool,
    hasSendSps: bool,
    at: Point,
    // History.
    pushed: seq<Packet>,
    handled: seq<Outcome>,
    delivered: seq<Packet>,
    // What went before on other sockets since the last reconnect, and on the socket in use.
    earlier: seq<Attempt>,
    pass: seq<Attempt>)

  datatype Event =
    | Push(packet: Packet)
    | StoreMeta(stored: bool)
    | StoreSets(stored: bool)
    | Front
    | TestDrop
    | SendMeta(ok: bool)
    | SendSps(ok: bool)
    | SendData(result: SendResult)
    | Pop
    | Leave
    | Reconnect

  const START := State([], false, false, false, false, Looping, [], [], [], [], [])

  predicate Droppable(p: Packet, size: nat) {
    size > BACKLOG && p.packetType == VIDEO && p.body != [] && p.body[0] == INTER_FRAME
  }

  /** One step; None when the event cannot happen at this point. */
  function Step(s: State, e: Event): Option<State> {
    match e
    case Push(p) => Some(s.(queue := s.queue + [p], pushed := s.pushed + [p]))
    case StoreMeta(stored) => Some(s.(hasMeta := stored))
    case StoreSets(stored) => Some(s.(hasSets := stored))
    case Front => FrontStep(s)
    case TestDrop => DropStep(s)
    case SendMeta(ok) => MetaStep(s, ok)
    case SendSps(ok) => SpsStep(s, ok)
    case SendData(result) => DataStep(s, result)
    case Pop => PopStep(s)
    case Leave => if s.at.Looping? then Some(s.(at := Broken)) else None
    case Reconnect =>
      if !s.at.Broken? then None
      else Some(s.(at := Looping, hasSendMeta := false, hasSendSps := false, earlier := [], pass := []))
  }

  function FrontStep(s: State): (r: Option<State>)
    ensures r.Some? ==> r.value.earlier == s.earlier && r.value.pass == s.pass
  {
    if !s.at.Looping? then None
    else if s.queue == [] then Some(s)
    else Some(s.(at := Holding(s.queue[0])))
  }

  function DropStep(s: State): (r: Option<State>)
    ensures r.Some? ==> r.value.earlier == s.earlier && r.value.pass == s.pass
  {
    if !s.at.Holding? then None
    else if Droppable(s.at.p, |s.queue|) then Some(s.(at := Dropping(s.at.p, |s.queue|)))
    else Some(s.(at := Kept(s.at.p, |s.queue|)))
  }

  function MetaStep(s: State, ok: bool): (r: Option<State>)
    ensures r.Some? ==> r.value.earlier == s.earlier
  {
    if !s.at.Kept? then None
    else if s.hasSendMeta then Some(s.(at := AfterMeta(s.at.p, s.at.size)))
    else if !s.hasMeta then Some(s.(at := AfterMeta(s.at.p, s.at.size), hasSendMeta := true, pass := s.pass + [NoMeta]))
    else if ok then Some(s.(at := AfterMeta(s.at.p, s.at.size), hasSendMeta := true, pass := s.pass + [Meta]))
    else Some(s.(at := Broken, pass := s.pass + [Meta]))
  }

  function SpsStep(s: State, ok: bool): (r: Option<State>)
    ensures r.Some? ==> r.value.earlier == s.earlier
  {
    if !s.at.AfterMeta? then None
    else if s.at.p.packetType != VIDEO || s.hasSendSps then Some(s.(at := AfterSps(s.at.p, s.at.size)))
    else if !s.hasSets then Some(s.(at := AfterSps(s.at.p, s.at.size), hasSendSps := true, pass := s.pass + [NoSps]))
    else if ok then Some(s.(at := AfterSps(s.at.p, s.at.size), hasSendSps := true, pass := s.pass + [Sps]))
    else Some(s.(at := Broken, pass := s.pass + [Sps]))
  }

  function DataStep(s: State, result: SendResult): Option<State> {
    if !s.at.AfterSps? then None
    else
      match result
      case Success =>
        Some(s.(at := Delivered(s.at.p, s.at.size), delivered := s.delivered + [s.at.p],
                pass := s.pass + [Data(s.at.p)]))
      // A new socket; the flags stay.
      case TimedOut => Some(s.(at := Looping, earlier := s.earlier + s.pass, pass := []))
      case Failed => Some(s.(at := Broken))
  }

  function PopStep(s: State): (r: Option<State>)
    ensures r.Some? ==> r.value.earlier == s.earlier && r.value.pass == s.pass
  {
    if s.at.Delivered? then
      Some(s.(at := Looping, queue := Rest(s.queue), handled := s.handled + [Sent(s.at.p, s.at.size)]))
    else if s.at.Dropping? then
      Some(s.(at := Looping, queue := Rest(s.queue), handled := s.handled + [Dropped(s.at.p, s.at.size)]))
    else None
  }

  function Rest(q: seq<Packet>): seq<Packet> {
    if q == [] then [] else q[1..]
  }

  function Run(s: State, es: seq<Event>): Option<State>
    decreases |es|
  {
    if es == [] then Some(s)
    else
      var s' :- Step(s, es[0]);
      Run(s', es[1..])
  }

  // ----- what every step keeps -----

  function PacketsOf(os: seq<Outcome>): seq<Packet> {
    seq(|os|, i requires 0 <= i < |os| => os[i].packet)
  }

  function SentOf(os: seq<Outcome>): seq<Packet> {
    if os == [] then []
    else SentOf(os[..|os| - 1]) + (if os[|os| - 1].Sent? then [os[|os| - 1].packet] else [])
  }

  predicate Holds(at: Point) {
    !at.Looping? && !at.Broken?
  }

  /** Nothing is lost, duplicated or reordered: what was handled and what is queued are what was pushed. */
  ghost predicate Conserved(s: State) {
    PacketsOf(s.handled) + s.queue == s.pushed
  }

  /** Every successful send is that of a packet handled as sent, or of the one about to be popped. */
  ghost predicate SentOnce(s: State) {
    s.delivered == SentOf(s.handled) + (if s.at.Delivered? then [s.at.p] else [])
  }

  /** The packet in hand is the one a pop would remove. */
  ghost predicate FrontInHand(s: State) {
    Holds(s.at) ==> s.queue != [] && s.queue[0] == s.at.p
  }

  predicate Tested(at: Point) {
    Holds(at) && !at.Holding?
  }

  /** Packets are dropped exactly when they were inter frames and the queue longer than the backlog. */
  ghost predicate DropsJustified(s: State) {
    && (forall o | o in s.handled :: o.Dropped? <==> Droppable(o.packet, o.size))
    && (Tested(s.at) ==> (s.at.Dropping? <==> Droppable(s.at.p, s.at.size)) && s.at.size <= |s.queue|)
  }

  /** How often the turn of the metadata came, and that of the parameter sets. */
  function MetaTurns(log: seq<Attempt>): nat {
    multiset(log)[Meta] + multiset(log)[NoMeta]
  }

  function SpsTurns(log: seq<Attempt>): nat {
    multiset(log)[Sps] + multiset(log)[NoSps]
  }

  /** Behind `log`, a packet of this type may go out. */
  ghost predicate Announced(log: seq<Attempt>, packetType: byte) {
    MetaTurns(log) == 1 && (packetType == VIDEO ==> SpsTurns(log) == 1)
  }

  /** Each packet went out behind one turn of the metadata, each video also behind one of the sets. */
  ghost predicate PassInOrder(earlier: seq<Attempt>, pass: seq<Attempt>) {
    forall i | 0 <= i < |pass| && pass[i].Data? :: Announced(earlier + pass[..i], pass[i].packet.packetType)
  }

  /** The flags tell whether the turns came since the last reconnect; no turn comes twice. */
  ghost predicate FlagsTold(s: State) {
    var log := s.earlier + s.pass;
    && MetaTurns(log) <= 1 && SpsTurns(log) <= 1
    && (s.hasSendMeta ==> MetaTurns(log) == 1) && (s.hasSendSps ==> SpsTurns(log) == 1)
    && (!s.at.Broken? ==> (MetaTurns(log) == 1 ==> s.hasSendMeta) && (SpsTurns(log) == 1 ==> s.hasSendSps))
    && (s.at.AfterMeta? || s.at.AfterSps? ==> s.hasSendMeta)
    && (s.at.AfterSps? && s.at.p.packetType == VIDEO ==> s.hasSendSps)
  }

  ghost predicate QueueKept(s: State) {
    Conserved(s) && SentOnce(s) && FrontInHand(s) && DropsJustified(s)
  }

  ghost predicate LogKept(s: State) {
    FlagsTold(s) && PassInOrder(s.earlier, s.pass)
  }

  ghost predicate Inv(s: State) {
    QueueKept(s) && LogKept(s)
  }

  lemma HandleOne(os: seq<Outcome>, o: Outcome)
    ensures PacketsOf(os + [o]) == PacketsOf(os) + [o.packet]
    ensures SentOf(os + [o]) == SentOf(os) + (if o.Sent? then [o.packet] else [])
  {
    assert (os + [o])[..|os|] == os;
  }

  lemma PopConserves(s: State, o: Outcome)
    requires Conserved(s) && FrontInHand(s) && Holds(s.at) && o.packet == s.at.p
    ensures PacketsOf(s.handled + [o]) + Rest(s.queue) == s.pushed
  {
    HandleOne(s.handled, o);
    assert s.queue == [s.queue[0]] + Rest(s.queue);
  }

  lemma PassGrows(earlier: seq<Attempt>, pass: seq<Attempt>, a: Attempt)
    requires PassInOrder(earlier, pass)
    requires a.Data? ==> Announced(earlier + pass, a.packet.packetType)
    ensures PassInOrder(earlier, pass + [a])
  {
    var more := pass + [a];
    forall i | 0 <= i < |more| && more[i].Data?
      ensures Announced(earlier + more[..i], more[i].packet.packetType)
    {
      assert more[..i] == pass[..i];
      assert pass[..|pass|] == pass;
    }
  }

  lemma TurnsGrow(log: seq<Attempt>, a: Attempt)
    ensures MetaTurns(log + [a]) == MetaTurns(log) + if a.Meta? || a.NoMeta? then 1 else 0
    ensures SpsTurns(log + [a]) == SpsTurns(log) + if a.Sps? || a.NoSps? then 1 else 0
  {}

  lemma PushKeepsInv(s: State, p: Packet)
    requires Inv(s)
    ensures Inv(s.(queue := s.queue + [p], pushed := s.pushed + [p]))
  {
    hide PassInOrder, SentOf, PacketsOf, MetaTurns, SpsTurns;
    assert PacketsOf(s.handled) + (s.queue + [p]) == s.pushed + [p];
  }

  /** The log with one attempt more. */
  lemma LogGrows(earlier: seq<Attempt>, pass: seq<Attempt>, a: Attempt)
    requires PassInOrder(earlier, pass)
    requires a.Data? ==> Announced(earlier + pass, a.packet.packetType)
    ensures PassInOrder(earlier, pass + [a])
    ensures var log, more := earlier + pass, earlier + (pass + [a]);
      && MetaTurns(more) == MetaTurns(log) + (if a.Meta? || a.NoMeta? then 1 else 0)
      && SpsTurns(more) == SpsTurns(log) + (if a.Sps? || a.NoSps? then 1 else 0)
  {
    PassGrows(earlier, pass, a);
    TurnsGrow(earlier + pass, a);
    assert earlier + (pass + [a]) == earlier + pass + [a];
  }

  lemma MetaKeepsLog(s: State, ok: bool)
    requires LogKept(s) && MetaStep(s, ok).Some?
    ensures LogKept(MetaStep(s, ok).value)
  {
    hide PassInOrder, Announced, MetaTurns, SpsTurns;
    if !s.hasSendMeta {
      LogGrows(s.earlier, s.pass, if s.hasMeta then Meta else NoMeta);
    }
  }

  lemma SpsKeepsLog(s: State, ok: bool)
    requires LogKept(s) && SpsStep(s, ok).Some?
    ensures LogKept(SpsStep(s, ok).value)
  {
    hide PassInOrder, Announced, MetaTurns, SpsTurns;
    if s.at.p.packetType == VIDEO && !s.hasSendSps {
      LogGrows(s.earlier, s.pass, if s.hasSets then Sps else NoSps);
    }
  }

  lemma DataKeepsLog(s: State, result: SendResult)
    requires LogKept(s) && DataStep(s, result).Some?
    ensures LogKept(DataStep(s, result).value)
  {
    hide MetaTurns, SpsTurns;
    if result.Success? {
      hide PassInOrder;
      LogGrows(s.earlier, s.pass, Data(s.at.p));
    } else if result.TimedOut? {
      assert s.earlier + s.pass + [] == s.earlier + s.pass;
    }
  }

  /** Otherwise the sends only move the thread on. */
  lemma MetaKeepsQueue(s: State, ok: bool)
    requires QueueKept(s) && MetaStep(s, ok).Some?
    ensures QueueKept(MetaStep(s, ok).value)
  {
    hide SentOf, PacketsOf;
  }

  lemma SpsKeepsQueue(s: State, ok: bool)
    requires QueueKept(s) && SpsStep(s, ok).Some?
    ensures QueueKept(SpsStep(s, ok).value)
  {
    hide SentOf, PacketsOf;
  }

  lemma DataKeepsQueue(s: State, result: SendResult)
    requires QueueKept(s) && DataStep(s, result).Some?
    ensures QueueKept(DataStep(s, result).value)
  {
    hide SentOf, PacketsOf;
  }

  /** What producers store shows only at the next turn. */
  lemma StoreKeepsInv(s: State, meta: bool, sets: bool)
    requires Inv(s)
    ensures Inv(s.(hasMeta := meta, hasSets := sets))
  {
    hide PassInOrder, SentOf, PacketsOf, MetaTurns, SpsTurns;
  }

  lemma PopKeepsInv(s: State)
    requires Inv(s) && PopStep(s).Some?
    ensures Inv(PopStep(s).value)
  {
    hide PassInOrder, PacketsOf, SentOf, MetaTurns, SpsTurns;
    var o := if s.at.Delivered? then Sent(s.at.p, s.at.size) else Dropped(s.at.p, s.at.size);
    HandleOne(s.handled, o);
    PopConserves(s, o);
  }

  lemma ReconnectKeepsInv(s: State)
    requires Inv(s) && s.at.Broken?
    ensures Inv(s.(at := Looping, hasSendMeta := false, hasSendSps := false, earlier := [], pass := []))
  {
    hide PacketsOf, SentOf;
    var none: seq<Attempt> := [];
    assert none + none == none && MetaTurns(none) == SpsTurns(none) == 0;
  }

  lemma FrontKeepsInv(s: State)
    requires Inv(s) && FrontStep(s).Some?
    ensures Inv(FrontStep(s).value)
  {
    hide PassInOrder, PacketsOf, SentOf, MetaTurns, SpsTurns;
  }

  lemma DropKeepsInv(s: State)
    requires Inv(s) && DropStep(s).Some?
    ensures Inv(DropStep(s).value)
  {
    hide PassInOrder, PacketsOf, SentOf, MetaTurns, SpsTurns;
  }

  lemma LeaveKeepsInv(s: State)
    requires Inv(s) && s.at.Looping?
    ensures Inv(s.(at := Broken))
  {
    hide PassInOrder, PacketsOf, SentOf, MetaTurns, SpsTurns;
  }

  lemma StepKeepsInv(s: State, e: Event)
    requires Inv(s) && Step(s, e).Some?
    ensures Inv(Step(s, e).value)
  {
    hide Conserved, SentOnce, FrontInHand, DropsJustified, FlagsTold, PassInOrder;
    hide FrontStep, DropStep, MetaStep, SpsStep, DataStep, PopStep;
    match e
    case Push(p) => PushKeepsInv(s, p);
    case StoreMeta(stored) => StoreKeepsInv(s, stored, s.hasSets);
    case StoreSets(stored) => StoreKeepsInv(s, s.hasMeta, stored);
    case Front => FrontKeepsInv(s);
    case TestDrop => DropKeepsInv(s);
    case SendMeta(ok) =>
      MetaKeepsLog(s, ok);
      MetaKeepsQueue(s, ok);
    case SendSps(ok) =>
      SpsKeepsLog(s, ok);
      SpsKeepsQueue(s, ok);
    case SendData(result) =>
      DataKeepsLog(s, result);
      DataKeepsQueue(s, result);
    case Pop => PopKeepsInv(s);
    case Leave => LeaveKeepsInv(s);
    case Reconnect => ReconnectKeepsInv(s);
  }

  /** Over every run of the sender thread and any producers. */
  lemma {:induction false} EveryRunKeepsInv(s: State, es: seq<Event>)
    requires Inv(s) && Run(s, es).Some?
    ensures Inv(Run(s, es).value)
    decreases |es|
  {
    if es != [] {
      StepKeepsInv(s, es[0]);
      EveryRunKeepsInv(Step(s, es[0]).value, es[1..]);
    }
  }

  /**
   Over every run from the start: nothing is lost, repeated or reordered, packets are dropped exactly
   when they were inter frames and more than 75 packets were queued at the test, and since the last
   reconnect the turn of the metadata came exactly once before every packet, that of the parameter
   sets exactly once before every video, on whatever socket.
   */
  lemma RunsFromStart(es: seq<Event>)
    requires Run(START, es).Some?
    ensures var s := Run(START, es).value;
      && PacketsOf(s.handled) + s.queue == s.pushed
      && s.delivered == SentOf(s.handled) + (if s.at.Delivered? then [s.at.p] else [])
      && (forall o | o in s.handled ::
            o.Dropped? <==>
              o.size > 75 && o.packet.packetType == 9 && o.packet.body != [] && o.packet.body[0] == 0x27)
      && forall i | 0 <= i < |s.pass| && s.pass[i].Data? ::
           && MetaTurns(s.earlier + s.pass[..i]) == 1
           && (s.pass[i].packet.packetType == VIDEO ==> SpsTurns(s.earlier + s.pass[..i]) == 1)
  {
    EveryRunKeepsInv(START, es);
  }

  // ----- what the thread does -----

  /** Which step can come next is decided by where the thread is; producers can always store and push. */
  lemma PossibleIff(s: State, e: Event)
    ensures Step(s, e).Some? <==>
      match e
      case Push(_) => true
      case StoreMeta(_) => true
      case StoreSets(_) => true
      case Front => s.at.Looping?
      case TestDrop => s.at.Holding?
      case SendMeta(_) => s.at.Kept?
      case SendSps(_) => s.at.AfterMeta?
      case SendData(_) => s.at.AfterSps?
      case Pop => s.at.Delivered? || s.at.Dropping?
      case Leave => s.at.Looping?
      case Reconnect => s.at.Broken?
  {}

  /** The front packet is dropped if and only if it is an inter frame and more than 75 packets are queued. */
  lemma TestDropIff(s: State)
    requires s.at.Holding?
    ensures var p := s.at.p;
      Step(s, TestDrop).value.at.Dropping?
      <==> |s.queue| > 75 && p.packetType == 9 && p.body != [] && p.body[0] == 0x27
  {}

  /** An inter frame at the front of a long queue is taken off and goes nowhere. */
  lemma DroppedPass(s: State)
    requires s.at.Looping? && |s.queue| > 75
    requires s.queue[0].packetType == 9 && s.queue[0].body != [] && s.queue[0].body[0] == 0x27
    ensures Run(s, [Front, TestDrop, Pop])
            == Some(s.(queue := s.queue[1..], handled := s.handled + [Dropped(s.queue[0], |s.queue|)]))
  {
    var s1 := Step(s, Front).value;
    var s2 := Step(s1, TestDrop).value;
    assert Run(s2, [Pop]) == Step(s2, Pop);
    assert Run(s1, [TestDrop, Pop]) == Run(s2, [Pop]);
    assert Run(s, [Front, TestDrop, Pop]) == Run(s1, [TestDrop, Pop]);
  }

  /** What goes out before a packet when all sends succeed. */
  function Turns(s: State, p: Packet): seq<Attempt> {
    (if s.hasSendMeta then [] else if s.hasMeta then [Meta] else [NoMeta])
    + (if p.packetType != 9 || s.hasSendSps then [] else if s.hasSets then [Sps] else [NoSps])
  }

  lemma Unroll(s: State, e: Event, es: seq<Event>)
    ensures Run(s, [e] + es) == if Step(s, e).None? then None else Run(Step(s, e).value, es)
  {
    assert ([e] + es)[1..] == es;
    hide Step;
  }

  /** The two turns in front of a packet that is kept. */
  lemma TurnsTaken(s: State)
    requires s.at.Kept?
    ensures var p := s.at.p;
      var s' := Step(s, SendMeta(true)).value;
      Step(s, SendMeta(true)).Some? &&
      Step(s', SendSps(true))
      == Some(s.(at := AfterSps(p, s.at.size), hasSendMeta := true, hasSendSps := s.hasSendSps || p.packetType == 9,
                 pass := s.pass + Turns(s, p)))
  {
    var p := s.at.p;
    var meta := if s.hasSendMeta then [] else if s.hasMeta then [Meta] else [NoMeta];
    var sets := if p.packetType != 9 || s.hasSendSps then [] else if s.hasSets then [Sps] else [NoSps];
    var s1 := Step(s, SendMeta(true)).value;
    assert s1.pass == s.pass + meta;
    assert Step(s1, SendSps(true)).value.pass == s1.pass + sets;
    assert s.pass + meta + sets == s.pass + (meta + sets);
  }

  /** Any other packet is announced, sent and taken off. */
  lemma SentPass(s: State)
    requires s.at.Looping? && s.queue != [] && !Droppable(s.queue[0], |s.queue|)
    ensures var p := s.queue[0];
      Run(s, [Front] + ([TestDrop] + ([SendMeta(true)] + ([SendSps(true)] + ([SendData(Success)] + [Pop])))))
      == Some(s.(queue := s.queue[1..], handled := s.handled + [Sent(p, |s.queue|)], delivered := s.delivered + [p],
                 hasSendMeta := true, hasSendSps := s.hasSendSps || p.packetType == 9,
                 pass := s.pass + Turns(s, p) + [Data(p)]))
  {
    var p := s.queue[0];
    var s1 := Step(s, Front).value;
    var s2 := Step(s1, TestDrop).value;
    assert s2 == s.(at := Kept(p, |s.queue|));
    TurnsTaken(s2);
    var s3 := Step(s2, SendMeta(true)).value;
    var s4 := Step(s3, SendSps(true)).value;
    var s5 := Step(s4, SendData(Success)).value;
    assert Run(Step(s5, Pop).value, []) == Some(Step(s5, Pop).value);
    hide Run, MetaStep, SpsStep, Turns;
    Unroll(s5, Pop, []);
    Unroll(s4, SendData(Success), [Pop]);
    Unroll(s3, SendSps(true), [SendData(Success)] + [Pop]);
    Unroll(s2, SendMeta(true), [SendSps(true)] + ([SendData(Success)] + [Pop]));
    Unroll(s1, TestDrop, [SendMeta(true)] + ([SendSps(true)] + ([SendData(Success)] + [Pop])));
    Unroll(s, Front, [TestDrop] + ([SendMeta(true)] + ([SendSps(true)] + ([SendData(Success)] + [Pop]))));
    assert [Pop] + [] == [Pop];
  }

  /** What is stored counts from the next turn on; leaving the loop and connecting again forgets both turns. */
  lemma StoredAndReset(s: State, stored: bool, p: Packet)
    ensures Step(s, StoreMeta(stored)).value.hasMeta == stored && Step(s, StoreSets(stored)).value.hasSets == stored
    ensures Step(s, StoreMeta(stored)).value.hasSets == s.hasSets
    ensures Step(s, StoreSets(stored)).value.hasMeta == s.hasMeta
    ensures Step(s, Push(p)).value.queue == s.queue + [p]
    ensures s.at.Looping? ==>
      Run(s, [Leave, Reconnect]) == Some(s.(hasSendMeta := false, hasSendSps := false, earlier := [], pass := []))
    ensures s.at.Looping? && s.queue == [] ==> Step(s, Front) == Some(s)
  {
    if s.at.Looping? {
      var s1 := Step(s, Leave).value;
      assert Run(s1, [Reconnect]) == Step(s1, Reconnect);
      assert Run(s, [Leave, Reconnect]) == Run(s1, [Reconnect]);
    }
  }

  /** A failed send leaves the queue as it is; only a timeout lets the thread try again on the same flags. */
  lemma FailedSends(s: State)
    ensures s.at.Kept? && !s.hasSendMeta && s.hasMeta ==>
      Step(s, SendMeta(false)) == Some(s.(at := Broken, pass := s.pass + [Meta]))
    ensures s.at.AfterMeta? && s.at.p.packetType == 9 && !s.hasSendSps && s.hasSets ==>
      Step(s, SendSps(false)) == Some(s.(at := Broken, pass := s.pass + [Sps]))
    ensures s.at.AfterSps? ==>
      && Step(s, SendData(Failed)) == Some(s.(at := Broken))
      && Step(s, SendData(TimedOut)) == Some(s.(at := Looping, earlier := s.earlier + s.pass, pass := []))
  {}

  // ----- when something goes out without what belongs before it -----

  /** The step passes over the metadata, or the parameter sets, because there is nothing stored. */
  predicate PassesOver(s: State, e: Event, what: Attempt) {
    || (what == NoMeta && e.SendMeta? && s.at.Kept? && !s.hasSendMeta && !s.hasMeta)
    || (what == NoSps && e.SendSps? && s.at.AfterMeta? && s.at.p.packetType == VIDEO && !s.hasSendSps && !s.hasSets)
  }

  /** Some step since the last reconnect passed over `what`; `before` says so for the steps before `es`. */
  predicate PassedOver(s: State, es: seq<Event>, what: Attempt, before: bool)
    decreases |es|
  {
    if es == [] || Step(s, es[0]).None? then before
    else PassedOver(Step(s, es[0]).value, es[1..], what, !es[0].Reconnect? && (before || PassesOver(s, es[0], what)))
  }

  predicate TimesOut(e: Event) {
    e.SendData? && e.result.TimedOut?
  }

  /** Since the last reconnect a send timed out after the flag, for the sets or the metadata, was set. */
  predicate LeftBehind(s: State, es: seq<Event>, sets: bool, before: bool)
    decreases |es|
  {
    if es == [] || Step(s, es[0]).None? then before
    else
      var flag := if sets then s.hasSendSps else s.hasSendMeta;
      LeftBehind(Step(s, es[0]).value, es[1..], sets, !es[0].Reconnect? && (before || (TimesOut(es[0]) && flag)))
  }

  lemma LoggedStep(s: State, e: Event, what: Attempt)
    requires Step(s, e).Some? && (what == NoMeta || what == NoSps)
    ensures var t := Step(s, e).value;
      what in t.earlier + t.pass <==> !e.Reconnect? && (what in s.earlier + s.pass || PassesOver(s, e, what))
  {
    hide FrontStep, DropStep, MetaStep, SpsStep, DataStep, PopStep;
    match e
    case SendMeta(ok) => MetaLogged(s, ok, what);
    case SendSps(ok) => SpsLogged(s, ok, what);
    case SendData(result) => DataLogged(s, result, what);
    case _ =>
  }

  lemma DataLogged(s: State, result: SendResult, what: Attempt)
    requires DataStep(s, result).Some? && !what.Data?
    ensures var t := DataStep(s, result).value; what in t.earlier + t.pass <==> what in s.earlier + s.pass
  {}

  lemma MetaLogged(s: State, ok: bool, what: Attempt)
    requires MetaStep(s, ok).Some? && (what == NoMeta || what == NoSps)
    ensures what in s.earlier + MetaStep(s, ok).value.pass
            <==> what in s.earlier + s.pass || PassesOver(s, SendMeta(ok), what)
  {}

  lemma SpsLogged(s: State, ok: bool, what: Attempt)
    requires SpsStep(s, ok).Some? && (what == NoMeta || what == NoSps)
    ensures what in s.earlier + SpsStep(s, ok).value.pass
            <==> what in s.earlier + s.pass || PassesOver(s, SendSps(ok), what)
  {}

  lemma {:induction false} LoggedIff(s: State, es: seq<Event>, what: Attempt)
    requires Run(s, es).Some? && (what == NoMeta || what == NoSps)
    ensures var t := Run(s, es).value;
      what in t.earlier + t.pass <==> PassedOver(s, es, what, what in s.earlier + s.pass)
    decreases |es|
  {
    hide Step, PassesOver;
    if es != [] {
      LoggedStep(s, es[0], what);
      LoggedIff(Step(s, es[0]).value, es[1..], what);
    }
  }

  function TurnCount(log: seq<Attempt>, sets: bool): nat {
    if sets then SpsTurns(log) else MetaTurns(log)
  }

  lemma LeftStep(s: State, e: Event, sets: bool)
    requires Inv(s) && Step(s, e).Some?
    ensures TurnCount(Step(s, e).value.earlier, sets) > 0
            <==> !e.Reconnect? && (TurnCount(s.earlier, sets) > 0
                                   || (TimesOut(e) && if sets then s.hasSendSps else s.hasSendMeta))
  {
    hide QueueKept, PassInOrder, FrontStep, DropStep, MetaStep, SpsStep, PopStep;
  }

  lemma {:induction false} LeftIff(s: State, es: seq<Event>, sets: bool)
    requires Inv(s) && Run(s, es).Some?
    ensures TurnCount(Run(s, es).value.earlier, sets) > 0 <==> LeftBehind(s, es, sets, TurnCount(s.earlier, sets) > 0)
    decreases |es|
  {
    hide Step, Inv, TurnCount;
    if es != [] {
      LeftStep(s, es[0], sets);
      StepKeepsInv(s, es[0]);
      LeftIff(Step(s, es[0]).value, es[1..], sets);
    }
  }

  /** Where one turn came, and no second one comes later, it was taken before, or passed over, or sent here. */
  lemma OneTurn(earlier: seq<Attempt>, pass: seq<Attempt>, i: nat, sets: bool)
    requires i <= |pass| && TurnCount(earlier + pass[..i], sets) == 1 && TurnCount(earlier + pass, sets) <= 1
    ensures var sent, none := if sets then Sps else Meta, if sets then NoSps else NoMeta;
      sent !in pass[..i] <==> TurnCount(earlier, sets) > 0 || none in earlier + pass
  {
    assert pass == pass[..i] + pass[i..];
    assert earlier + pass == earlier + pass[..i] + pass[i..];
    var sent, none := if sets then Sps else Meta, if sets then NoSps else NoMeta;
    assert sent in pass[..i] <==> multiset(pass[..i])[sent] > 0;
    assert none in earlier + pass <==> multiset(earlier + pass)[none] > 0;
  }

  /**
   A packet goes out on a socket that has not had the metadata if and only if, since the last
   reconnect, a send timed out, or the metadata's turn came while there was none. A video goes out on
   a socket that has not had the parameter sets if and only if a send timed out after their turn, or
   their turn came while they were not both stored. What is stored later does not help.
   */
  lemma GoesOutBareIff(es: seq<Event>, i: nat)
    requires Run(START, es).Some?
    requires i < |Run(START, es).value.pass| && Run(START, es).value.pass[i].Data?
    ensures var pass := Run(START, es).value.pass;
      && (Meta !in pass[..i] <==> LeftBehind(START, es, false, false) || PassedOver(START, es, NoMeta, false))
      && (pass[i].packet.packetType == VIDEO ==>
            (Sps !in pass[..i] <==> LeftBehind(START, es, true, false) || PassedOver(START, es, NoSps, false)))
  {
    var s := Run(START, es).value;
    EveryRunKeepsInv(START, es);
    LoggedIff(START, es, NoMeta);
    LoggedIff(START, es, NoSps);
    LeftIff(START, es, false);
    LeftIff(START, es, true);
    hide Run, PassedOver, LeftBehind, Conserved, SentOnce, FrontInHand, DropsJustified;
    assert Announced(s.earlier + s.pass[..i], s.pass[i].packet.packetType);
    hide MetaTurns, SpsTurns, PassInOrder;
    OneTurn(s.earlier, s.pass, i, false);
    if s.pass[i].packet.packetType == VIDEO {
      OneTurn(s.earlier, s.pass, i, true);
    }
  }
}
