/** The whole command pipeline as one transition system: command threads, heartbeat, publisher,
    channel, bridge and clock, interleaved one atomic step at a time. */
module Pipeline {
  import opened Types
  import opened Brain
  import opened BrainThreads
  import opened Publisher
  import opened Bridge
  import opened Link

  /** The heartbeat thread: outside the lock, copying the state's fields under it, or holding a copy. */
  datatype Heartbeat = Waiting | Copying(fields: nat, copy: RobotState) | Ready(snapshot: RobotState)

  /** The bridge's control loop: at its head, inside a batch, or after a clean exit. */
  datatype Phase = Top | InBatch(rest: seq<Packet>) | Down

  datatype Packet = Packet(index: nat, frame: Joy)

  /** One published frame: the state it was made from and the number of the install behind it. */
  datatype Sent = Sent(version: nat, state: RobotState, noise: real)

  /** version numbers the install being copied; wire holds the packets under way, queue those that
      reached the reader, where depthOne keeps only the newest; sent and log are histories; untaken
      counts the arrivals since the reader last took samples. */
  datatype Sys = Sys(
    brain: BrainSys,
    heartbeat: Heartbeat,
    version: nat,
    pub: PubState,
    depthOne: bool,
    wire: seq<Packet>,
    queue: seq<Packet>,
    phase: Phase,
    bridge: BridgeState,
    running: bool,
    now: int,
    sent: seq<Sent>,
    log: seq<Event>,
    untaken: nat)

  datatype Move =
    | ThreadStep(thread: nat, action: Action)
    | LockState
    | CopyField
    | UnlockState
    | PublishFrame(noise: real)
    | Deliver
    | Lose(position: nat)
    | Tick(ns: nat)
    | TakeSamples
    | NextSample
    | CheckClock
    | Signal
    | Exit

  const FIELDS := 6
  const BLANK := RobotState(0, "", 0.0, 0.0, 0.0, "")

  function Boot0(threads: nat, depthOne: bool): Sys {
    Sys(Start(threads), Waiting, 0, FRESH, depthOne, [], [], Top, Booted(0), true, 0, [], [], 0)
  }

  function WithField(copy: RobotState, source: RobotState, k: nat): RobotState {
    match k
    case 0 => copy.(mode := source.mode)
    case 1 => copy.(modeName := source.modeName)
    case 2 => copy.(x := source.x)
    case 3 => copy.(y := source.y)
    case 4 => copy.(yaw := source.yaw)
    case _ => copy.(speed := source.speed)
  }

  /** One atomic step; a step that is not possible in s (a thread waiting for the lock, say) is a
      stutter. */
  function Apply(s: Sys, m: Move): Sys {
    match m
    case ThreadStep(t, a) =>
      if a.Command? && s.heartbeat.Copying? then s else s.(brain := Step(s.brain, t, a))
    case LockState =>
      if s.heartbeat.Waiting? && s.brain.installed != []
      then s.(heartbeat := Copying(0, BLANK), version := |s.brain.installed| - 1) else s
    case CopyField =>
      if s.heartbeat.Copying? && s.heartbeat.fields < FIELDS
      then s.(heartbeat := Copying(s.heartbeat.fields + 1,
                                   WithField(s.heartbeat.copy, s.brain.current, s.heartbeat.fields)))
      else s
    case UnlockState =>
      if s.heartbeat.Copying? && s.heartbeat.fields == FIELDS
      then s.(heartbeat := Ready(s.heartbeat.copy)) else s
    case PublishFrame(noise) =>
      if s.heartbeat.Ready? then
        var (pub, frame) := Publish(s.pub, s.heartbeat.snapshot, noise);
        var packet := Packet(|s.sent|, frame);
        s.(heartbeat := Waiting,
           pub := pub,
           wire := s.wire + [packet],
           sent := s.sent + [Sent(s.version, s.heartbeat.snapshot, noise)])
      else s
    case Deliver =>
      if s.wire != [] then
        s.(wire := s.wire[1..],
           queue := (if s.depthOne then [] else s.queue) + [s.wire[0]],
           untaken := s.untaken + 1)
      else s
    case Lose(i) =>
      if i < |s.wire| then s.(wire := s.wire[..i] + s.wire[i + 1..]) else s
    case Tick(ns) => s.(now := s.now + ns)
    case TakeSamples =>
      if s.phase.Top? && s.running then s.(phase := InBatch(s.queue), queue := [], untaken := 0) else s
    case NextSample =>
      if s.phase.InBatch? && s.phase.rest != [] then
        var p := s.phase.rest[0];
        s.(bridge := OnSample(s.bridge, p.frame, s.now),
           log := s.log + [Got(p.index)],
           phase := InBatch(s.phase.rest[1..]))
      else s
    case CheckClock =>
      if s.phase == InBatch([]) then
        var b := OnCheck(s.bridge, s.now);
        s.(bridge := b, log := if b == s.bridge then s.log else s.log + [Fired], phase := Top)
      else s
    case Signal => s.(running := false)
    case Exit => if s.phase.Top? && !s.running then s.(phase := Down) else s
  }

  function Exec(s: Sys, moves: seq<Move>): Sys {
    if moves == [] then s else Apply(Exec(s, moves[..|moves| - 1]), Last(moves))
  }

  /** Everything sent to the robot so far. */
  function Trace(s: Sys): seq<Call> {
    s.bridge.trace + if s.phase.Down? then GOODBYE else []
  }

  function Modes(sent: seq<Sent>): (modes: seq<int>)
    ensures |modes| == |sent|
    ensures forall i :: 0 <= i < |sent| ==> modes[i] == sent[i].state.mode
  {
    seq(|sent|, i requires 0 <= i < |sent| => sent[i].state.mode)
  }

  /** What frame i looks like on the wire. */
  function WireFrame(sent: seq<Sent>, i: nat): Joy
    requires i < |sent|
  {
    Frame(sent[i].state, Pressed(Modes(sent), i), sent[i].noise)
  }

  /** Published and not yet seen or lost, oldest first. */
  function InFlight(s: Sys): seq<Packet> {
    (if s.phase.InBatch? then s.phase.rest else []) + s.queue + s.wire
  }

  /** The frames the bridge saw, in order. */
  function Gots(log: seq<Event>): seq<nat> {
    if log == [] then []
    else
      match Last(log)
      case Got(i) => Gots(log[..|log| - 1]) + [i]
      case Fired => Gots(log[..|log| - 1])
  }

  // Invariants, one per part.

  ghost predicate Agrees(copy: RobotState, source: RobotState, fields: nat) {
    && (fields > 0 ==> copy.mode == source.mode)
    && (fields > 1 ==> copy.modeName == source.modeName)
    && (fields > 2 ==> copy.x == source.x)
    && (fields > 3 ==> copy.y == source.y)
    && (fields > 4 ==> copy.yaw == source.yaw)
    && (fields > 5 ==> copy.speed == source.speed)
  }

  ghost predicate HeartbeatInv(s: Sys) {
    && StateInv(s.brain)
    && match s.heartbeat
       case Waiting => true
       case Copying(k, copy) =>
         k <= FIELDS && s.version == |s.brain.installed| - 1 && Agrees(copy, s.brain.current, k)
       case Ready(snapshot) =>
         s.version < |s.brain.installed| && snapshot == s.brain.installed[s.version]
  }

  /** Every frame was made from one whole installed state, and never from an older one than before. */
  ghost predicate SentInv(s: Sys) {
    && (forall i :: 0 <= i < |s.sent| ==>
          s.sent[i].version < |s.brain.installed| && s.sent[i].state == s.brain.installed[s.sent[i].version])
    && (forall i, j :: 0 <= i < j < |s.sent| ==> s.sent[i].version <= s.sent[j].version)
    && (!s.heartbeat.Waiting? ==> forall i :: 0 <= i < |s.sent| ==> s.sent[i].version <= s.version)
  }

  /** Packets are exactly wire frames, in order, and newer than everything seen. */
  ghost predicate FlightInv(flight: seq<Packet>, sent: seq<Sent>, newestSeen: int) {
    && (forall p :: 0 <= p < |flight| ==>
          && newestSeen < flight[p].index < |sent|
          && flight[p].frame == WireFrame(sent, flight[p].index))
    && (forall p, q :: 0 <= p < q < |flight| ==> flight[p].index < flight[q].index)
  }

  /** The publisher's fields follow from what it published, and the channel only loses. */
  ghost predicate ChannelInv(s: Sys) {
    && s.pub == After(Modes(s.sent))
    && Ordered(s.log, |s.sent|)
    && FlightInv(InFlight(s), s.sent, LastGot(s.log))
  }

  /** Command c is what frame i on the wire makes the bridge send. */
  ghost predicate CausedBy(c: Call, sent: seq<Sent>, i: nat)
    requires i < |sent|
  {
    match c
    case SetVelocity(v, _) => v == Clamped(WireFrame(sent, i))
    case SetMode(m, _) => Pressed(Modes(sent), i) && m == sent[i].state.mode
  }

  /** Frames are seen in publishing order. */
  ghost predicate GotsInv(gots: seq<nat>, published: nat) {
    && (forall k :: 0 <= k < |gots| ==> gots[k] < published)
    && (forall j, k :: 0 <= j < k < |gots| ==> gots[j] < gots[k])
  }

  ghost predicate BridgeSideInv(s: Sys) {
    && BridgeInv(s.bridge)
    && SamplesInOrder(s.bridge.trace, s.bridge.seen)
    && s.bridge.seen == |Gots(s.log)|
    && (s.bridge.fired <==> s.log != [] && Last(s.log).Fired?)
    && s.bridge.mode == ModeOf(Modes(s.sent), s.log)
    && GotsInv(Gots(s.log), |s.sent|)
    && (forall c :: c in s.bridge.trace && c.cause.Sample? ==>
          CausedBy(c, s.sent, Gots(s.log)[c.cause.k]))
  }

  ghost predicate Inv(s: Sys) {
    HeartbeatInv(s) && SentInv(s) && ChannelInv(s) && BridgeSideInv(s)
  }

  // Each step keeps each part.

  lemma KeepsHeartbeat(s: Sys, m: Move)
    requires HeartbeatInv(s)
    ensures HeartbeatInv(Apply(s, m))
    ensures s.brain.installed <= Apply(s, m).brain.installed
  {
    hide Step, Publish, OnSample, OnCheck, Sound, WithField;
    if m.CopyField? {
      CopyKeepsHeartbeat(s);
    } else if m.ThreadStep? {
      StepKeepsState(s.brain, m.thread, m.action);
      if m.action.Advance? {
        AdvanceKeepsInstalled(s.brain, m.thread);
      }
    }
  }

  lemma CopyKeepsHeartbeat(s: Sys)
    requires HeartbeatInv(s)
    ensures HeartbeatInv(Apply(s, CopyField))
    ensures s.brain.installed <= Apply(s, CopyField).brain.installed
  {
    hide StateInv;
  }

  lemma AdvanceKeepsInstalled(b: BrainSys, t: nat)
    ensures var b' := Step(b, t, Advance); b'.installed == b.installed && b'.current == b.current
  {}

  lemma PublishKeepsSent(s: Sys, noise: real)
    requires HeartbeatInv(s) && SentInv(s) && s.heartbeat.Ready?
    ensures SentInv(Apply(s, PublishFrame(noise)))
  {
    hide StateInv, Publish;
  }

  lemma KeepsSent(s: Sys, m: Move)
    requires HeartbeatInv(s) && SentInv(s)
    ensures SentInv(Apply(s, m))
  {
    hide StateInv, Publish, Step, OnSample, OnCheck, WithField;
    KeepsHeartbeat(s, m);
    if m.PublishFrame? && s.heartbeat.Ready? {
      PublishKeepsSent(s, m.noise);
    }
  }

  lemma SentGrows(sent: seq<Sent>, x: Sent)
    ensures Modes(sent + [x])[..|sent|] == Modes(sent)
    ensures forall i: nat :: i < |sent| ==> WireFrame(sent + [x], i) == WireFrame(sent, i)
    ensures forall i: nat :: i < |sent| ==> Pressed(Modes(sent + [x]), i) == Pressed(Modes(sent), i)
  {
    var modes := Modes(sent + [x]);
    assert modes[..|sent|] == Modes(sent);
    forall i: nat | i < |sent|
      ensures Pressed(modes, i) == Pressed(Modes(sent), i)
    {
      PressedPrefix(modes, |sent|, i);
    }
  }

  lemma FlightGrows(flight: seq<Packet>, sent: seq<Sent>, newestSeen: int, x: Sent, packet: Packet)
    requires FlightInv(flight, sent, newestSeen) && newestSeen < |sent|
    requires packet == Packet(|sent|, WireFrame(sent + [x], |sent|))
    ensures FlightInv(flight + [packet], sent + [x], newestSeen)
  {
    SentGrows(sent, x);
  }

  /** Dropping packets keeps the others in order. */
  lemma FlightDrop(before: seq<Packet>, lost: seq<Packet>, after: seq<Packet>, sent: seq<Sent>, newestSeen: int)
    requires FlightInv(before + lost + after, sent, newestSeen)
    ensures FlightInv(before + after, sent, newestSeen)
  {
    hide WireFrame;
    var flight, kept := before + lost + after, before + after;
    assert forall p :: 0 <= p < |kept| ==> kept[p] == flight[if p < |before| then p else p + |lost|];
  }

  /** The new packet is the wire frame of the new entry. */
  lemma NewPacket(s: Sys, noise: real)
    requires ChannelInv(s) && s.heartbeat.Ready?
    ensures var s' := Apply(s, PublishFrame(noise));
            var x := Sent(s.version, s.heartbeat.snapshot, noise);
            && s'.sent == s.sent + [x]
            && s'.pub == After(Modes(s'.sent))
            && Last(s'.wire) == Packet(|s.sent|, WireFrame(s'.sent, |s.sent|))
  {
    var s' := Apply(s, PublishFrame(noise));
    SentGrows(s.sent, Last(s'.sent));
    FrameClosedForm(Modes(s'.sent), |s.sent|, s.heartbeat.snapshot, noise);
  }

  lemma PublishKeepsChannel(s: Sys, noise: real)
    requires ChannelInv(s) && s.heartbeat.Ready?
    ensures ChannelInv(Apply(s, PublishFrame(noise)))
  {
    hide FlightInv, After, Publish, WireFrame;
    var s' := Apply(s, PublishFrame(noise));
    NewPacket(s, noise);
    LastGotIsNewest(s.log, |s.sent|);
    FlightGrows(InFlight(s), s.sent, LastGot(s.log), Last(s'.sent), Last(s'.wire));
    assert InFlight(s') == InFlight(s) + [Last(s'.wire)];
  }

  lemma SampleKeepsChannel(s: Sys)
    requires ChannelInv(s) && s.phase.InBatch? && s.phase.rest != []
    ensures ChannelInv(Apply(s, NextSample))
  {
    hide After, WireFrame, OnSample;
    var flight := InFlight(s);
    assert flight[0] == s.phase.rest[0];
    assert InFlight(Apply(s, NextSample)) == flight[1..];
    LastGotIsNewest(s.log, |s.sent|);
  }

  lemma LossSplits(ahead: seq<Packet>, wire: seq<Packet>, i: nat)
    requires i < |wire|
    ensures ahead + wire == (ahead + wire[..i]) + [wire[i]] + wire[i + 1..]
    ensures ahead + (wire[..i] + wire[i + 1..]) == (ahead + wire[..i]) + wire[i + 1..]
  {
    assert wire == wire[..i] + [wire[i]] + wire[i + 1..];
  }

  lemma LoseKeepsChannel(s: Sys, i: nat)
    requires ChannelInv(s) && i < |s.wire|
    ensures ChannelInv(Apply(s, Lose(i)))
  {
    hide FlightInv, Ordered, After, LastGot;
    var ahead := (if s.phase.InBatch? then s.phase.rest else []) + s.queue;
    var before, lost, after := ahead + s.wire[..i], [s.wire[i]], s.wire[i + 1..];
    LossSplits(ahead, s.wire, i);
    FlightDrop(before, lost, after, s.sent, LastGot(s.log));
  }

  /** A packet that arrives replaces those in a one-slot reader. */
  lemma DeliverKeepsChannel(s: Sys)
    requires ChannelInv(s) && s.wire != []
    ensures ChannelInv(Apply(s, Deliver))
  {
    hide FlightInv, Ordered, After, LastGot;
    var s' := Apply(s, Deliver);
    var rest := if s.phase.InBatch? then s.phase.rest else [];
    assert s.wire == [s.wire[0]] + s'.wire;
    if s.depthOne {
      FlightDrop(rest, s.queue, s.wire, s.sent, LastGot(s.log));
      assert InFlight(s') == rest + s.wire;
    } else {
      assert InFlight(s') == InFlight(s);
    }
  }

  lemma FiringKeepsOrder(log: seq<Event>, n: nat)
    requires Ordered(log, n)
    ensures Ordered(log + [Fired], n) && LastGot(log + [Fired]) == LastGot(log)
  {
    assert (log + [Fired])[..|log|] == log;
  }

  lemma KeepsChannel(s: Sys, m: Move)
    requires ChannelInv(s)
    ensures ChannelInv(Apply(s, m))
  {
    hide FlightInv, Ordered, After;
    var s' := Apply(s, m);
    match m {
      case PublishFrame(noise) =>
        if s.heartbeat.Ready? {
          PublishKeepsChannel(s, noise);
        }
      case NextSample =>
        if s.phase.InBatch? && s.phase.rest != [] {
          SampleKeepsChannel(s);
        }
      case Lose(i) =>
        if i < |s.wire| {
          LoseKeepsChannel(s, i);
        }
      case Deliver =>
        if s.wire != [] {
          DeliverKeepsChannel(s);
        }
      case CheckClock =>
        if s'.log != s.log {
          FiringKeepsOrder(s.log, |s.sent|);
        }
        assert InFlight(s') == InFlight(s);
      case _ =>
        assert InFlight(s') == InFlight(s);
    }
  }

  /** The button of a wire frame is a request for exactly its own mode, and only while pressed. */
  lemma WireRequest(sent: seq<Sent>, i: nat, current: int)
    requires i < |sent|
    ensures RequestedMode(WireFrame(sent, i).buttons, current) ==
            if Pressed(Modes(sent), i) then sent[i].state.mode else current
  {}

  lemma GotsAppend(log: seq<Event>, e: Event)
    ensures Gots(log + [e]) == if e.Got? then Gots(log) + [e.frame] else Gots(log)
  {
    assert (log + [e])[..|log|] == log;
  }

  lemma {:induction false} GotsSeen(log: seq<Event>, n: nat)
    requires Ordered(log, n)
    ensures forall k :: 0 <= k < |Gots(log)| ==> Gots(log)[k] <= LastGot(log)
    ensures Gots(log) != [] ==> Last(Gots(log)) == LastGot(log)
  {
    if log != [] {
      GotsSeen(log[..|log| - 1], n);
      LastGotIsNewest(log, n);
      LastGotIsSeen(log[..|log| - 1]);
    }
  }

  /** The next sample of a batch is the wire frame of its number, and newer than all seen. */
  lemma NextPacket(s: Sys)
    requires ChannelInv(s) && s.phase.InBatch? && s.phase.rest != []
    ensures var p := s.phase.rest[0];
            LastGot(s.log) < p.index < |s.sent| && p.frame == WireFrame(s.sent, p.index)
  {
    hide After, Ordered, WireFrame, LastGot, Modes;
    assert InFlight(s)[0] == s.phase.rest[0];
  }

  /** What a sample adds was caused by its frame. */
  lemma NewCause(s: Sys, c: Call)
    requires ChannelInv(s)
    requires s.phase.InBatch? && s.phase.rest != []
    requires c in Apply(s, NextSample).bridge.trace && c !in s.bridge.trace
    ensures s.phase.rest[0].index < |s.sent|
    ensures c.cause == Sample(s.bridge.seen) && CausedBy(c, s.sent, s.phase.rest[0].index)
  {
    hide ChannelInv, OnSample;
    var p := s.phase.rest[0];
    NextPacket(s);
    SampleAdds(s.bridge, p.frame, s.now, c);
    WireRequest(s.sent, p.index, s.bridge.mode);
  }

  lemma SampleKeepsGots(s: Sys)
    requires ChannelInv(s) && BridgeSideInv(s)
    requires s.phase.InBatch? && s.phase.rest != []
    ensures var s' := Apply(s, NextSample);
            GotsInv(Gots(s'.log), |s.sent|) && |Gots(s'.log)| == |Gots(s.log)| + 1
  {
    hide BridgeInv, SamplesInOrder, CausedBy, ModeOf, WireFrame, After, OnSample, FlightInv, Gots, LastGot;
    var p := s.phase.rest[0];
    NextPacket(s);
    GotsAppend(s.log, Got(p.index));
    GotsSeen(s.log, |s.sent|);
  }

  lemma SampleKeepsMode(s: Sys)
    requires ChannelInv(s) && BridgeSideInv(s)
    requires s.phase.InBatch? && s.phase.rest != []
    ensures var s' := Apply(s, NextSample); s'.bridge.mode == ModeOf(Modes(s.sent), s'.log)
  {
    hide ChannelInv, WireFrame, RequestedMode, Pressed, BridgeInv, Gots, CausedBy;
    var p := s.phase.rest[0];
    NextPacket(s);
    WireRequest(s.sent, p.index, s.bridge.mode);
    assert (s.log + [Got(p.index)])[..|s.log|] == s.log;
  }

  lemma SampleKeepsBridgeSide(s: Sys)
    requires ChannelInv(s) && BridgeSideInv(s)
    requires s.phase.InBatch? && s.phase.rest != []
    ensures BridgeSideInv(Apply(s, NextSample))
  {
    hide BridgeInv, CausedBy, ModeOf, ChannelInv, Gots;
    var s' := Apply(s, NextSample);
    SampleKeeps(s.bridge, s.phase.rest[0].frame, s.now);
    SampleKeepsOrder(s.bridge, s.phase.rest[0].frame, s.now);
    SampleKeepsGots(s);
    SampleKeepsMode(s);
    GotsAppend(s.log, Got(s.phase.rest[0].index));
    forall c | c in s'.bridge.trace && c.cause.Sample?
      ensures CausedBy(c, s.sent, Gots(s'.log)[c.cause.k])
    {
      if c !in s.bridge.trace {
        NewCause(s, c);
      }
    }
  }

  lemma CheckKeepsBridgeSide(s: Sys)
    requires BridgeSideInv(s) && s.phase == InBatch([])
    ensures BridgeSideInv(Apply(s, CheckClock))
  {
    var s' := Apply(s, CheckClock);
    hide BridgeInv, SamplesInOrder, CausedBy, Gots;
    CheckKeeps(s.bridge, s.now);
    CheckKeepsOrder(s.bridge, s.now);
    if s'.log != s.log {
      GotsAppend(s.log, Fired);
      assert Last(s'.log) == Fired;
    }
  }

  lemma PublishKeepsBridgeSide(s: Sys, noise: real)
    requires ChannelInv(s) && BridgeSideInv(s) && s.heartbeat.Ready?
    ensures BridgeSideInv(Apply(s, PublishFrame(noise)))
  {
    var s' := Apply(s, PublishFrame(noise));
    var n := |s.sent|;
    SentGrows(s.sent, Last(s'.sent));
    ModeOfPrefix(Modes(s'.sent), n, s.log);
    forall c | c in s.bridge.trace && c.cause.Sample?
      ensures CausedBy(c, s'.sent, Gots(s.log)[c.cause.k])
    {
      assert CausedBy(c, s.sent, Gots(s.log)[c.cause.k]);
    }
  }

  lemma KeepsBridgeSide(s: Sys, m: Move)
    requires ChannelInv(s) && BridgeSideInv(s)
    ensures BridgeSideInv(Apply(s, m))
  {
    hide ChannelInv, BridgeInv, ModeOf, GotsInv, Gots, SamplesInOrder;
    match m {
      case PublishFrame(noise) =>
        if s.heartbeat.Ready? {
          PublishKeepsBridgeSide(s, noise);
        }
      case NextSample =>
        if s.phase.InBatch? && s.phase.rest != [] {
          SampleKeepsBridgeSide(s);
        }
      case CheckClock =>
        if s.phase == InBatch([]) {
          CheckKeepsBridgeSide(s);
        }
      case _ =>
    }
  }

  lemma BootBridgeSide(s: Sys)
    requires s.bridge == Booted(0) && s.log == [] && s.sent == []
    ensures BridgeSideInv(s)
  {
    hide BridgeInv;
    BootHolds(0);
    assert s.bridge.trace == [SetMode(MODE_STAND, Boot)];
  }

  lemma BootInv(threads: nat, depthOne: bool)
    ensures Inv(Boot0(threads, depthOne))
  {
    hide BridgeSideInv;
    StartHolds(threads);
    BootBridgeSide(Boot0(threads, depthOne));
  }

  lemma Keeps(s: Sys, m: Move)
    requires Inv(s)
    ensures Inv(Apply(s, m))
  {
    KeepsHeartbeat(s, m);
    KeepsSent(s, m);
    KeepsChannel(s, m);
    KeepsBridgeSide(s, m);
  }

  /** Every run of the whole pipeline keeps every part of the invariant. */
  lemma {:induction false} Always(threads: nat, depthOne: bool, moves: seq<Move>)
    ensures Inv(Exec(Boot0(threads, depthOne), moves))
  {
    if moves == [] {
      BootInv(threads, depthOne);
    } else {
      Always(threads, depthOne, moves[..|moves| - 1]);
      Keeps(Exec(Boot0(threads, depthOne), moves[..|moves| - 1]), Last(moves));
    }
  }
}
