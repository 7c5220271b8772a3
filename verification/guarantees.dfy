/** What the pipeline guarantees over whole runs. */
module Guarantees {
  import opened Types
  import opened Numeric
  import opened Brain
  import opened Publisher
  import opened Bridge
  import opened Link
  import opened Pipeline

  /** The velocity the robot should get for a brain state. */
  function Intended(s: RobotState): Velocity {
    if s.mode == 4 then Velocity(-Round2(s.x), -Round2(s.y), -Round2(s.yaw)) else Velocity(0.0, 0.0, 0.0)
  }

  /** Rounding, clipping, negating and clamping again amount to negating and rounding. */
  lemma WireVelocity(sent: seq<Sent>, i: nat)
    requires i < |sent| && Sound(sent[i].state)
    ensures Clamped(WireFrame(sent, i)) == Intended(sent[i].state)
    ensures sent[i].state.mode == MODE_MOVE ==>
              var s, v := sent[i].state, Clamped(WireFrame(sent, i));
              Distance(-s.x, v.vx) <= 0.005 && Distance(-s.y, v.vy) <= 0.005 && Distance(-s.yaw, v.wz) <= 0.005
  {
    var s := sent[i].state;
    TransportIsExact(s.x, 50);
    TransportIsExact(s.y, 40);
    TransportIsExact(s.yaw, 80);
  }

  /** The state behind frame i is one that was installed, whole. */
  ghost predicate FromInstalled(s: Sys, i: nat) {
    && i < |s.sent|
    && s.sent[i].version < |s.brain.installed|
    && s.sent[i].state == s.brain.installed[s.sent[i].version]
    && Sound(s.sent[i].state)
  }

  lemma SentFromInstalled(s: Sys, i: nat)
    requires Inv(s) && i < |s.sent|
    ensures FromInstalled(s, i)
  {}

  /** Command j of the trace, if a sample caused it, together with the frame behind it. */
  ghost predicate TraceableTo(s: Sys, j: nat, i: nat)
    requires j < |s.bridge.trace| && s.bridge.trace[j].cause.Sample?
  {
    s.bridge.trace[j].cause.k < |Gots(s.log)| && i == Gots(s.log)[s.bridge.trace[j].cause.k]
  }

  /** Provenance of the whole trace: every sample-driven command goes back to one frame that was made
      from one installed state. A velocity is that state's intended velocity, so zero unless its mode
      is MOVE; a mode command is that state's mode, taken while its button was still pressed. */
  lemma Provenance(threads: nat, depthOne: bool, moves: seq<Move>, j: nat)
    requires var s := Exec(Boot0(threads, depthOne), moves);
             j < |s.bridge.trace| && s.bridge.trace[j].cause.Sample?
    ensures var s := Exec(Boot0(threads, depthOne), moves);
            exists i: nat :: TraceableTo(s, j, i) && FromInstalled(s, i)
              && match s.bridge.trace[j]
                 case SetVelocity(v, _) => v == Intended(s.sent[i].state)
                 case SetMode(m, _) => m == s.sent[i].state.mode && Pressed(Modes(s.sent), i)
  {
    var s := Exec(Boot0(threads, depthOne), moves);
    Always(threads, depthOne, moves);
    var c := s.bridge.trace[j];
    assert c in s.bridge.trace;
    var i := Gots(s.log)[c.cause.k];
    assert CausedBy(c, s.sent, i);
    SentFromInstalled(s, i);
    WireVelocity(s.sent, i);
    assert TraceableTo(s, j, i);
  }

  lemma LastVelocityInMove(s: Sys)
    requires Inv(s) && s.bridge.mode == MODE_MOVE
    ensures Gots(s.log) != []
    ensures Last(Gots(s.log)) < |s.sent|
    ensures CommandedVelocity(s.bridge.trace) == Some(Clamped(WireFrame(s.sent, Last(Gots(s.log)))))
  {
    hide HeartbeatInv, SentInv, AllDisciplined, FiringsSeparated, Frozen, ModeOf, After, Ordered, WireFrame;
    var c := Last(s.bridge.trace);
    assert c in s.bridge.trace;
    assert CausedBy(c, s.sent, Gots(s.log)[c.cause.k]);
  }

  /** End-to-end safety, at every point of every interleaving: the robot's mode is always commanded
      and known, and while it is MOVE its velocity is the intended one of the state behind the very
      last sample delivered. So it is zero unless that state's mode is MOVE. After a clean exit the
      robot sleeps and is still. */
  lemma MotionSafety(threads: nat, depthOne: bool, moves: seq<Move>)
    ensures var s := Exec(Boot0(threads, depthOne), moves);
            && (exists m :: KnownMode(m) && CommandedMode(Trace(s)) == Some(m))
            && (CommandedMode(Trace(s)) == Some(4) ==>
                  && Gots(s.log) != []
                  && FromInstalled(s, Last(Gots(s.log)))
                  && CommandedVelocity(Trace(s)) == Some(Intended(s.sent[Last(Gots(s.log))].state)))
            && (s.phase.Down? ==>
                  && !s.running
                  && Trace(s) == s.bridge.trace
                                 + [SetVelocity(Velocity(0.0, 0.0, 0.0), Shutdown), SetMode(0, Shutdown)]
                  && CommandedMode(Trace(s)) == Some(0)
                  && CommandedVelocity(Trace(s)) == Some(Velocity(0.0, 0.0, 0.0)))
  {
    var s := Exec(Boot0(threads, depthOne), moves);
    Always(threads, depthOne, moves);
    DownAfterSignal(threads, depthOne, moves);
    hide Apply, Exec, Inv, CommandedMode, CommandedVelocity, Gots, Intended, FromInstalled;
    if s.phase.Down? {
      AfterGoodbye(s.bridge.trace);
      assert KnownMode(0);
    } else {
      assert Trace(s) == s.bridge.trace;
      SafeWhileUp(s);
    }
  }

  lemma AfterGoodbye(trace: seq<Call>)
    ensures trace + GOODBYE == trace + [SetVelocity(Velocity(0.0, 0.0, 0.0), Shutdown), SetMode(0, Shutdown)]
    ensures CommandedMode(trace + GOODBYE) == Some(0)
    ensures CommandedVelocity(trace + GOODBYE) == Some(Velocity(0.0, 0.0, 0.0))
  {
    AppendCall(trace, GOODBYE[0]);
    AppendCall(trace + [GOODBYE[0]], GOODBYE[1]);
    assert trace + GOODBYE == trace + [GOODBYE[0]] + [GOODBYE[1]];
  }

  lemma SafeWhileUp(s: Sys)
    requires Inv(s)
    ensures KnownMode(s.bridge.mode) && CommandedMode(s.bridge.trace) == Some(s.bridge.mode)
    ensures s.bridge.mode == 4 ==>
              && Gots(s.log) != []
              && FromInstalled(s, Last(Gots(s.log)))
              && CommandedVelocity(s.bridge.trace) == Some(Intended(s.sent[Last(Gots(s.log))].state))
  {
    hide HeartbeatInv, SentInv, ChannelInv, AllDisciplined, FiringsSeparated, ModeOf, CausedBy, Gots, Intended;
    if s.bridge.mode == 4 {
      LastVelocityInMove(s);
      SentFromInstalled(s, Last(Gots(s.log)));
      WireVelocity(s.sent, Last(Gots(s.log)));
    }
  }

  // The commanded velocity, in every mode.

  /** The newest event that set the velocity: a firing, or a sample after which the robot was in MOVE. */
  function DrivenBy(modes: seq<int>, log: seq<Event>): Option<Event> {
    if log == [] then None
    else if Last(log).Fired? || ModeOf(modes, log) == MODE_MOVE then Some(Last(log))
    else DrivenBy(modes, log[..|log| - 1])
  }

  /** The velocity that event set. */
  function VelocityBy(sent: seq<Sent>, e: Option<Event>): Option<Velocity> {
    match e
    case None => None
    case Some(Fired) => Some(Velocity(0.0, 0.0, 0.0))
    case Some(Got(i)) => if i < |sent| then Some(Intended(sent[i].state)) else None
  }

  lemma {:induction false} DrivenByPrefix(modes: seq<int>, n: nat, log: seq<Event>)
    requires n <= |modes|
    requires forall p :: 0 <= p < |log| && log[p].Got? ==> log[p].frame < n
    ensures DrivenBy(modes[..n], log) == DrivenBy(modes, log)
    ensures match DrivenBy(modes, log) case Some(Got(i)) => i < n case _ => true
  {
    if log != [] {
      ModeOfPrefix(modes, n, log);
      DrivenByPrefix(modes, n, log[..|log| - 1]);
    }
  }

  lemma SampleVelocity(s: Sys)
    requires Inv(s) && s.phase.InBatch? && s.phase.rest != []
    requires CommandedVelocity(s.bridge.trace) == VelocityBy(s.sent, DrivenBy(Modes(s.sent), s.log))
    ensures var s' := Apply(s, NextSample);
            CommandedVelocity(s'.bridge.trace) == VelocityBy(s'.sent, DrivenBy(Modes(s'.sent), s'.log))
  {
    hide SentInv, HeartbeatInv, BridgeInv, Ordered, ModeOf, CommandedVelocity, Clamped, Intended;
    var s', p := Apply(s, NextSample), s.phase.rest[0];
    Keeps(s, NextSample);
    NextPacket(s);
    SentFromInstalled(s, p.index);
    WireVelocity(s.sent, p.index);
    VelocityAfterSample(s.bridge, p.frame, s.now);
    assert s'.log[..|s.log|] == s.log;
  }

  lemma PublishVelocity(s: Sys, noise: real)
    requires Inv(s) && s.heartbeat.Ready?
    ensures var s' := Apply(s, PublishFrame(noise));
            VelocityBy(s'.sent, DrivenBy(Modes(s'.sent), s.log)) == VelocityBy(s.sent, DrivenBy(Modes(s.sent), s.log))
  {
    hide SentInv, HeartbeatInv, BridgeSideInv, Intended;
    var s' := Apply(s, PublishFrame(noise));
    SentGrows(s.sent, Last(s'.sent));
    DrivenByPrefix(Modes(s'.sent), |s.sent|, s.log);
  }

  lemma StepVelocity(s: Sys, m: Move)
    requires Inv(s)
    requires CommandedVelocity(s.bridge.trace) == VelocityBy(s.sent, DrivenBy(Modes(s.sent), s.log))
    ensures var s' := Apply(s, m);
            CommandedVelocity(s'.bridge.trace) == VelocityBy(s'.sent, DrivenBy(Modes(s'.sent), s'.log))
  {
    hide Inv, CommandedVelocity, DrivenBy, OnSample, OnCheck, WithField;
    if m.PublishFrame? && s.heartbeat.Ready? {
      PublishVelocity(s, m.noise);
    } else if m.NextSample? && s.phase.InBatch? && s.phase.rest != [] {
      SampleVelocity(s);
    } else if m.CheckClock? && s.phase == InBatch([]) {
      VelocityAfterCheck(s.bridge, s.now);
      FiredDrives(Modes(s.sent), s.log);
    }
  }

  lemma FiredDrives(modes: seq<int>, log: seq<Event>)
    ensures DrivenBy(modes, log + [Fired]) == Some(Fired)
  {
    assert Last(log + [Fired]) == Fired;
  }

  /** The commanded velocity at every point of every run up to the exit, whatever the mode: none yet,
      zero if the watchdog set it last, otherwise the intended velocity of the state behind the newest
      sample that left the robot in MOVE. */
  lemma {:induction false} VelocityLaw(threads: nat, depthOne: bool, moves: seq<Move>)
    ensures var s := Exec(Boot0(threads, depthOne), moves);
            CommandedVelocity(s.bridge.trace) == VelocityBy(s.sent, DrivenBy(Modes(s.sent), s.log))
  {
    if moves != [] {
      VelocityLaw(threads, depthOne, moves[..|moves| - 1]);
      Always(threads, depthOne, moves[..|moves| - 1]);
      StepVelocity(Exec(Boot0(threads, depthOne), moves[..|moves| - 1]), Last(moves));
    } else {
      assert CommandedVelocity(Booted(0).trace) == CommandedVelocity([]);
    }
  }

  /** Exactly when the robot is commanded to be still, in MOVE or outside it. */
  lemma StillExactly(threads: nat, depthOne: bool, moves: seq<Move>)
    ensures var s := Exec(Boot0(threads, depthOne), moves);
            CommandedVelocity(s.bridge.trace) == Some(Velocity(0.0, 0.0, 0.0)) <==>
            match DrivenBy(Modes(s.sent), s.log)
            case None => false
            case Some(Fired) => true
            case Some(Got(i)) =>
              && i < |s.sent|
              && var state := s.sent[i].state;
              state.mode != 4 || Round2(state.x) == Round2(state.y) == Round2(state.yaw) == 0.0
  {
    hide HeartbeatInv, SentInv, BridgeSideInv, DrivenBy, CommandedVelocity, Round2;
    var s := Exec(Boot0(threads, depthOne), moves);
    VelocityLaw(threads, depthOne, moves);
    Always(threads, depthOne, moves);
    DrivenByPrefix(Modes(s.sent), |s.sent|, s.log);
    assert Modes(s.sent)[..|s.sent|] == Modes(s.sent);
  }

  // The end of the bridge.

  lemma {:induction false} DownAfterSignal(threads: nat, depthOne: bool, moves: seq<Move>)
    ensures var s := Exec(Boot0(threads, depthOne), moves); s.phase.Down? ==> !s.running
  {
    if moves != [] {
      hide Publish, OnSample, OnCheck, WithField;
      DownAfterSignal(threads, depthOne, moves[..|moves| - 1]);
    }
  }

  /** After a signal the bridge finishes the turn it is in, and takes and sends nothing more but the
      shutdown commands; once down it stays down. */
  lemma {:induction false} SignalEndsIt(s: Sys, more: seq<Move>)
    requires !s.running && !s.phase.InBatch?
    ensures var s' := Exec(s, more);
            && !s'.running && !s'.phase.InBatch? && s'.bridge == s.bridge && s'.log == s.log
            && (s.phase.Down? ==> s'.phase.Down? && Trace(s') == Trace(s))
  {
    if more != [] {
      hide Publish, OnSample, OnCheck, WithField;
      SignalEndsIt(s, more[..|more| - 1]);
    }
  }

  lemma OrderedProvenance(s: Sys, j1: nat, j2: nat, i1: nat, i2: nat)
    requires BridgeSideInv(s) && j1 <= j2 < |s.bridge.trace|
    requires s.bridge.trace[j1].cause.Sample? && s.bridge.trace[j2].cause.Sample?
    requires TraceableTo(s, j1, i1) && TraceableTo(s, j2, i2)
    ensures i1 <= i2 < |s.sent|
  {
    hide BridgeInv, ModeOf, CausedBy;
    var k1, k2 := s.bridge.trace[j1].cause.k, s.bridge.trace[j2].cause.k;
    assert k1 <= k2;
  }

  /** No going back: published versions never decrease, and neither do the versions behind
      successive sample-driven commands. */
  lemma NoGoingBack(threads: nat, depthOne: bool, moves: seq<Move>, j1: nat, j2: nat, i1: nat, i2: nat)
    requires var s := Exec(Boot0(threads, depthOne), moves);
             && j1 <= j2 < |s.bridge.trace|
             && s.bridge.trace[j1].cause.Sample? && s.bridge.trace[j2].cause.Sample?
             && TraceableTo(s, j1, i1) && TraceableTo(s, j2, i2)
    ensures var s := Exec(Boot0(threads, depthOne), moves);
            i1 <= i2 < |s.sent| && s.sent[i1].version <= s.sent[i2].version
  {
    hide HeartbeatInv, ChannelInv, BridgeSideInv, Apply, Exec;
    Always(threads, depthOne, moves);
    OrderedProvenance(Exec(Boot0(threads, depthOne), moves), j1, j2, i1, i2);
  }

  lemma ChangeSeen(s: Sys, a: nat, cut: nat)
    requires Inv(s)
    requires RunFrom(Modes(s.sent), a) && KnownMode(s.sent[a].state.mode)
    requires cut <= |s.log| && forall p :: cut <= p < |s.log| ==> s.log[p].Got? && s.log[p].frame >= a
    ensures s.bridge.mode == if SomeBefore(s.log[cut..], a + 10)
                             then s.sent[a].state.mode
                             else ModeOf(Modes(s.sent), s.log[..cut])
  {
    hide HeartbeatInv, SentInv, FlightInv, After, BridgeInv, Gots, GotsInv, SamplesInOrder, CausedBy;
    var before, after := s.log[..cut], s.log[cut..];
    assert s.log == before + after;
    assert forall p :: 0 <= p < |after| ==> after[p] == s.log[cut + p];
    LossTolerance(Modes(s.sent), a, before, after);
  }

  /** Loss tolerance, exactly. The newest published mode m has a button and began with frame a; of its
      frames the bridge saw those in the log from position cut on, with no firing there. The bridge is
      in m iff one of the first ten was among them, or it was in m already; otherwise the change is
      lost until the published mode changes again. */
  lemma ChangeGetsThrough(threads: nat, depthOne: bool, moves: seq<Move>, a: nat, cut: nat)
    requires var s := Exec(Boot0(threads, depthOne), moves);
             && RunFrom(Modes(s.sent), a) && KnownMode(s.sent[a].state.mode)
             && cut <= |s.log|
             && forall p :: cut <= p < |s.log| ==> s.log[p].Got? && s.log[p].frame >= a
    ensures var s := Exec(Boot0(threads, depthOne), moves);
            s.bridge.mode == if SomeBefore(s.log[cut..], a + 10)
                             then s.sent[a].state.mode
                             else ModeOf(Modes(s.sent), s.log[..cut])
  {
    hide *;
    Always(threads, depthOne, moves);
    ChangeSeen(Exec(Boot0(threads, depthOne), moves), a, cut);
  }

  /** No snapshot is dropped: whatever happens, the next frame published carries the one in hand, and
      until then it stays in hand. */
  lemma {:induction false} SnapshotIsPublished(s: Sys, more: seq<Move>)
    requires s.heartbeat.Ready?
    ensures var s' := Exec(s, more);
            && s.sent <= s'.sent
            && (|s'.sent| == |s.sent| ==> s'.heartbeat == s.heartbeat)
            && (|s'.sent| > |s.sent| ==> s'.sent[|s.sent|].state == s.heartbeat.snapshot)
  {
    if more != [] {
      hide Publish, OnSample, OnCheck, WithField;
      SnapshotIsPublished(s, more[..|more| - 1]);
    }
  }

  // Lossless runs.

  ghost predicate NoLosses(moves: seq<Move>) {
    forall p :: 0 <= p < |moves| ==> !moves[p].Lose?
  }

  ghost predicate NoFirings(log: seq<Event>) {
    forall p :: 0 <= p < |log| ==> log[p].Got?
  }

  /** Packets numbered consecutively from n. */
  ghost predicate Consecutive(flight: seq<Packet>, n: nat) {
    forall p :: 0 <= p < |flight| ==> flight[p].index == n + p
  }

  ghost predicate QueueInv(s: Sys) {
    && Lossless(s.log)
    && |s.log| + |InFlight(s)| == |s.sent|
    && Consecutive(InFlight(s), |s.log|)
  }

  lemma QueueKeepsSample(s: Sys)
    requires QueueInv(s) && s.phase.InBatch? && s.phase.rest != []
    ensures QueueInv(Apply(s, NextSample))
  {
    assert InFlight(s)[0] == s.phase.rest[0];
    assert InFlight(Apply(s, NextSample)) == InFlight(s)[1..];
  }

  lemma QueueKeepsPublish(s: Sys, noise: real)
    requires QueueInv(s) && !s.depthOne && s.heartbeat.Ready?
    ensures QueueInv(Apply(s, PublishFrame(noise)))
  {
    var s' := Apply(s, PublishFrame(noise));
    assert InFlight(s') == InFlight(s) + [Last(s'.wire)];
  }

  lemma FiringShows(log: seq<Event>)
    ensures !NoFirings(log + [Fired])
  {
    assert (log + [Fired])[|log|] == Fired;
  }

  lemma QueueKeeps(s: Sys, m: Move)
    requires QueueInv(s) && !s.depthOne && !m.Lose?
    requires NoFirings(Apply(s, m).log)
    ensures QueueInv(Apply(s, m))
  {
    var s' := Apply(s, m);
    if m.PublishFrame? && s.heartbeat.Ready? {
      QueueKeepsPublish(s, m.noise);
    } else if m.NextSample? && s.phase.InBatch? && s.phase.rest != [] {
      QueueKeepsSample(s);
    } else {
      assert InFlight(s') == InFlight(s);
      FiringShows(s.log);
      assert s'.log == s.log || s'.log == s.log + [Fired];
    }
  }

  lemma LogOnlyGrows(s: Sys, m: Move)
    ensures s.log <= Apply(s, m).log && Apply(s, m).depthOne == s.depthOne
  {}

  lemma {:induction false} QueueAlways(s: Sys, moves: seq<Move>)
    requires QueueInv(s) && !s.depthOne && NoLosses(moves)
    requires NoFirings(Exec(s, moves).log)
    ensures QueueInv(Exec(s, moves)) && !Exec(s, moves).depthOne
  {
    if moves != [] {
      hide Apply;
      var init := moves[..|moves| - 1];
      var s1 := Exec(s, init);
      LogOnlyGrows(s1, Last(moves));
      assert forall p :: 0 <= p < |s1.log| ==> s1.log[p] == Exec(s, moves).log[p];
      QueueAlways(s, init);
      QueueKeeps(s1, Last(moves));
    }
  }

  /** Lossless refinement: with a queue, no loss and no firing, the bridge's mode is the last mode
      with a button among the frames delivered so far (all of them once nothing is in flight). */
  lemma LosslessAgreement(threads: nat, moves: seq<Move>)
    requires NoLosses(moves) && NoFirings(Exec(Boot0(threads, false), moves).log)
    ensures var s := Exec(Boot0(threads, false), moves);
            && |s.log| + |InFlight(s)| == |s.sent|
            && s.bridge.mode == LastKnown(Modes(s.sent)[..|s.log|])
            && (InFlight(s) == [] ==> s.bridge.mode == LastKnown(Modes(s.sent)))
  {
    hide HeartbeatInv, SentInv, ChannelInv;
    var s := Exec(Boot0(threads, false), moves);
    Always(threads, false, moves);
    QueueAlways(Boot0(threads, false), moves);
    LosslessRefinement(Modes(s.sent), s.log);
    assert Modes(s.sent)[..|s.sent|] == Modes(s.sent);
  }

  /** So once everything arrived the two ends agree: the newest published mode began with frame a, and
      the bridge is in it, or, if it has no button, in the last mode before it that has one. */
  lemma EndsAgree(threads: nat, moves: seq<Move>, a: nat)
    requires NoLosses(moves) && NoFirings(Exec(Boot0(threads, false), moves).log)
    requires var s := Exec(Boot0(threads, false), moves); InFlight(s) == [] && RunFrom(Modes(s.sent), a)
    ensures var s := Exec(Boot0(threads, false), moves);
            s.bridge.mode == if KnownMode(s.sent[a].state.mode) then s.sent[a].state.mode
                             else LastKnown(Modes(s.sent[..a]))
  {
    hide InFlight;
    var s := Exec(Boot0(threads, false), moves);
    LosslessAgreement(threads, moves);
    LastKnownInRun(Modes(s.sent), a);
    assert Modes(s.sent)[..a] == Modes(s.sent[..a]);
  }

  // The freeze is latched.

  /** No frame in flight shows a pressed button. */
  ghost predicate FlightQuiet(s: Sys) {
    forall x :: x in InFlight(s) ==> x.index < |s.sent| && !Pressed(Modes(s.sent), x.index)
  }

  /** From s0 on, only the watchdog was heard from. */
  ghost predicate OnlyFreezes(s0: Sys, s: Sys) {
    && Frozen(s.bridge)
    && s0.bridge.trace <= s.bridge.trace
    && forall j :: |s0.bridge.trace| <= j < |s.bridge.trace| ==> s.bridge.trace[j].cause.Watchdog?
  }

  lemma FlightSource(s: Sys, m: Move, x: Packet)
    requires x in InFlight(Apply(s, m))
    ensures x in InFlight(s) || (m.PublishFrame? && s.heartbeat.Ready? && x.index == |s.sent|)
  {}

  /** Publishing the same mode again with the hold count used up presses nothing. */
  lemma RepeatIsUnpressed(s: Sys, noise: real)
    requires Inv(s) && s.pub.holdTicks == 0
    requires s.heartbeat.Ready? && s.heartbeat.snapshot.mode == s.pub.lastMode
    ensures var s' := Apply(s, PublishFrame(noise));
            s'.pub == s.pub && |s'.sent| == |s.sent| + 1 && !Pressed(Modes(s'.sent), |s.sent|)
  {
    hide HeartbeatInv, SentInv, BridgeSideInv, FlightInv, Ordered, RunIndex;
    var s' := Apply(s, PublishFrame(noise));
    var n, modes := |s.sent|, Modes(s'.sent);
    SentGrows(s.sent, Last(s'.sent));
    assert !ClickBit(modes, n);
    if KnownMode(modes[n]) {
      ClickClosedForm(modes, n, ButtonOf(modes[n]));
    }
  }

  lemma KeepsQuiet(s: Sys, m: Move)
    requires Inv(s) && FlightQuiet(s) && s.pub.holdTicks == 0
    requires m.PublishFrame? && s.heartbeat.Ready? ==> s.heartbeat.snapshot.mode == s.pub.lastMode
    ensures FlightQuiet(Apply(s, m)) && Apply(s, m).pub == s.pub
  {
    hide Inv, Pressed, InFlight;
    var s' := Apply(s, m);
    if m.PublishFrame? && s.heartbeat.Ready? {
      RepeatIsUnpressed(s, m.noise);
      SentGrows(s.sent, Last(s'.sent));
    } else {
      assert s'.sent == s.sent;
    }
    forall x | x in InFlight(s')
      ensures x.index < |s'.sent| && !Pressed(Modes(s'.sent), x.index)
    {
      FlightSource(s, m, x);
    }
  }

  lemma UnpressedSampleIsIgnored(s: Sys)
    requires Inv(s) && FlightQuiet(s) && Frozen(s.bridge)
    requires s.phase.InBatch? && s.phase.rest != []
    ensures var b := Apply(s, NextSample).bridge; Frozen(b) && b.trace == s.bridge.trace
  {
    hide HeartbeatInv, SentInv, BridgeSideInv, FlightInv, Ordered, Pressed, WireFrame, RequestedMode;
    var p := s.phase.rest[0];
    assert InFlight(s)[0] == p;
    NextPacket(s);
    WireRequest(s.sent, p.index, s.bridge.mode);
    assert s.bridge.trace + [] + [] == s.bridge.trace;
  }

  lemma KeepsFreezes(s0: Sys, s: Sys, m: Move)
    requires Inv(s) && FlightQuiet(s) && OnlyFreezes(s0, s)
    ensures OnlyFreezes(s0, Apply(s, m))
  {
    hide FlightQuiet, HeartbeatInv, SentInv, ChannelInv, BridgeInv, Frozen, ModeOf, SamplesInOrder, CausedBy, GotsInv;
    if m.NextSample? && s.phase.InBatch? && s.phase.rest != [] {
      UnpressedSampleIsIgnored(s);
    } else if m.CheckClock? && s.phase == InBatch([]) {
      CheckKeeps(s.bridge, s.now);
    }
  }

  lemma SentOnlyGrows(s: Sys, m: Move)
    ensures s.sent <= Apply(s, m).sent
  {}

  ghost predicate Latched(s0: Sys, s: Sys) {
    Inv(s) && FlightQuiet(s) && OnlyFreezes(s0, s) && s.pub == s0.pub
  }

  /** Frames from n on were all published in one mode. */
  ghost predicate SameModeFrom(sent: seq<Sent>, n: nat, mode: int) {
    forall i :: n <= i < |sent| ==> sent[i].state.mode == mode
  }

  lemma KeepsLatched(s0: Sys, s: Sys, m: Move)
    requires Latched(s0, s) && s0.pub.holdTicks == 0 && |s0.sent| <= |s.sent|
    requires SameModeFrom(Apply(s, m).sent, |s0.sent|, s0.pub.lastMode)
    ensures Latched(s0, Apply(s, m))
  {
    if m.PublishFrame? && s.heartbeat.Ready? {
      assert Apply(s, m).sent[|s.sent|].state == s.heartbeat.snapshot;
    }
    Keeps(s, m);
    KeepsQuiet(s, m);
    KeepsFreezes(s0, s, m);
  }

  lemma {:induction false} LatchAlways(s0: Sys, moves: seq<Move>)
    requires Latched(s0, s0) && s0.pub.holdTicks == 0
    requires SameModeFrom(Exec(s0, moves).sent, |s0.sent|, s0.pub.lastMode)
    ensures Latched(s0, Exec(s0, moves)) && |s0.sent| <= |Exec(s0, moves).sent|
  {
    if moves != [] {
      var s := Exec(s0, moves[..|moves| - 1]);
      SentOnlyGrows(s, Last(moves));
      PrefixSameMode(s.sent, Exec(s0, moves).sent, |s0.sent|, s0.pub.lastMode);
      LatchAlways(s0, moves[..|moves| - 1]);
      KeepsLatched(s0, s, Last(moves));
    }
  }

  lemma PrefixSameMode(shorter: seq<Sent>, longer: seq<Sent>, n: nat, mode: int)
    requires shorter <= longer && SameModeFrom(longer, n, mode)
    ensures SameModeFrom(shorter, n, mode)
  {
    assert forall i :: 0 <= i < |shorter| ==> shorter[i] == longer[i];
  }

  /** The freeze is latched end to end. Once the watchdog has fired, the publisher's hold count is
      used up and no pressed frame is in flight, any further run that publishes the same mode
      throughout (MOVE included) leaves the robot standing still; all it is ever sent are the
      watchdog's own freezes. */
  lemma {:induction false} FreezeIsLatched(threads: nat, depthOne: bool, first: seq<Move>, more: seq<Move>)
    requires var s := Exec(Boot0(threads, depthOne), first);
             && s.bridge.fired && s.pub.holdTicks == 0 && FlightQuiet(s)
             && SameModeFrom(Exec(s, more).sent, |s.sent|, s.pub.lastMode)
    ensures var s := Exec(Boot0(threads, depthOne), first);
            var s' := Exec(s, more);
            && Frozen(s'.bridge)
            && s.bridge.trace <= s'.bridge.trace
            && forall j :: |s.bridge.trace| <= j < |s'.bridge.trace| ==> s'.bridge.trace[j].cause.Watchdog?
  {
    Always(threads, depthOne, first);
    LatchAlways(Exec(Boot0(threads, depthOne), first), more);
  }

  // The watchdog's deadline and the bridge program, in runs of the pipeline.

  /** When the watchdog last looked at the clock, counting from boot. */
  function LastCheck(s0: Sys, moves: seq<Move>): int {
    if moves == [] then s0.now
    else
      var init := moves[..|moves| - 1];
      if Last(moves).CheckClock? && Exec(s0, init).phase == InBatch([]) then Exec(s0, init).now
      else LastCheck(s0, init)
  }

  /** At no point of the run is the last look at the clock more than d ago. */
  ghost predicate ChecksWithin(s0: Sys, moves: seq<Move>, d: int) {
    forall n :: 0 <= n <= |moves| ==> Exec(s0, moves[..n]).now - LastCheck(s0, moves[..n]) <= d
  }

  /** What the flag says about the time since the last sample. */
  ghost predicate WatchInv(s: Sys, check: int) {
    && s.bridge.lastMsg <= s.now && check <= s.now
    && if s.bridge.fired then s.now - s.bridge.lastMsg > 500_000_000 else check - s.bridge.lastMsg <= 500_000_000
  }

  lemma WatchKeeps(s: Sys, m: Move, check: int)
    requires WatchInv(s, check)
    ensures WatchInv(Apply(s, m), if m.CheckClock? && s.phase == InBatch([]) then s.now else check)
  {
    hide Publish, WithField, RequestedMode, Clamped, Freeze;
  }

  lemma {:induction false} WatchAlways(threads: nat, depthOne: bool, moves: seq<Move>)
    ensures WatchInv(Exec(Boot0(threads, depthOne), moves), LastCheck(Boot0(threads, depthOne), moves))
  {
    hide Apply;
    if moves != [] {
      var init := moves[..|moves| - 1];
      WatchAlways(threads, depthOne, init);
      WatchKeeps(Exec(Boot0(threads, depthOne), init), Last(moves), LastCheck(Boot0(threads, depthOne), init));
    }
  }

  /** The deadline in every run, for every interleaving: while the watchdog looks at the clock at least
      every d, a robot that got no sample for more than 500 ms + d stands still; and it was not
      stopped unless it got none for more than 500 ms. */
  lemma {:induction false} DeadlineInPipeline(threads: nat, depthOne: bool, moves: seq<Move>, d: int)
    requires ChecksWithin(Boot0(threads, depthOne), moves, d)
    ensures var s := Exec(Boot0(threads, depthOne), moves);
            var silence := s.now - s.bridge.lastMsg;
            && (silence > 500_000_000 + d ==> s.bridge.fired)
            && (s.bridge.fired ==> silence > 500_000_000 && Frozen(s.bridge))
  {
    hide HeartbeatInv, SentInv, ChannelInv, Frozen;
    Always(threads, depthOne, moves);
    WatchAlways(threads, depthOne, moves);
    assert moves[..|moves|] == moves;
  }

  function Arrivals(turns: seq<Turn>): seq<Arrival> {
    if turns == [] then [] else Arrivals(turns[..|turns| - 1]) + Last(turns).batch
  }

  function Times(batch: seq<Arrival>): seq<int> {
    seq(|batch|, i requires 0 <= i < |batch| => batch[i].now)
  }

  /** Every reading of the clock, in program order. */
  function Readings(turns: seq<Turn>): seq<int> {
    if turns == [] then [] else Readings(turns[..|turns| - 1]) + Times(Last(turns).batch) + [Last(turns).check]
  }

  /** The samples handled are, in order, the wire frames that the log says were seen. */
  ghost predicate Carried(arrivals: seq<Arrival>, sent: seq<Sent>, gots: seq<nat>) {
    && |arrivals| == |gots|
    && forall k :: 0 <= k < |gots| ==>
         arrivals[k].valid && gots[k] < |sent| && arrivals[k].frame == WireFrame(sent, gots[k])
  }

  ghost predicate Clocked(readings: seq<int>, now: int) {
    && (forall i, j :: 0 <= i < j < |readings| ==> readings[i] <= readings[j])
    && (readings != [] ==> Last(readings) <= now)
  }

  lemma CarriedGrows(arrivals: seq<Arrival>, sent: seq<Sent>, gots: seq<nat>, x: Sent)
    requires Carried(arrivals, sent, gots)
    ensures Carried(arrivals, sent + [x], gots)
  {
    SentGrows(sent, x);
  }

  lemma BatchMore(b: BridgeState, batch: seq<Arrival>, a: Arrival)
    ensures OnBatch(b, batch + [a]) == OnArrival(OnBatch(b, batch), a)
  {
    assert (batch + [a])[..|batch|] == batch;
  }

  lemma TurnsMore(b: BridgeState, turns: seq<Turn>, t: Turn)
    ensures OnTurns(b, turns + [t]) == OnTurn(OnTurns(b, turns), t)
    ensures Arrivals(turns + [t]) == Arrivals(turns) + t.batch
    ensures Readings(turns + [t]) == Readings(turns) + Times(t.batch) + [t.check]
  {
    assert (turns + [t])[..|turns|] == turns;
  }

  /** The bridge of state s has worked off these turns of the control loop and part of a batch. */
  ghost predicate WorkedOff(s: Sys, turns: seq<Turn>, batch: seq<Arrival>) {
    && s.bridge == OnBatch(OnTurns(Booted(0), turns), batch)
    && (!s.phase.InBatch? ==> batch == [])
    && Carried(Arrivals(turns) + batch, s.sent, Gots(s.log))
    && Clocked(Readings(turns) + Times(batch), s.now)
  }

  lemma CarriedMore(arrivals: seq<Arrival>, sent: seq<Sent>, gots: seq<nat>, a: Arrival, i: nat)
    requires Carried(arrivals, sent, gots)
    requires a.valid && i < |sent| && a.frame == WireFrame(sent, i)
    ensures Carried(arrivals + [a], sent, gots + [i])
  {
    hide WireFrame;
  }

  lemma SampleWorkedOff(s: Sys, turns: seq<Turn>, batch: seq<Arrival>)
    requires Inv(s) && WorkedOff(s, turns, batch) && s.phase.InBatch? && s.phase.rest != []
    ensures WorkedOff(Apply(s, NextSample), turns, batch + [Arrival(true, s.phase.rest[0].frame, s.now)])
  {
    hide HeartbeatInv, SentInv, BridgeSideInv, ChannelInv, Carried, OnSample, OnTurns, OnBatch, WireFrame, Gots;
    hide Arrivals, Readings;
    var p := s.phase.rest[0];
    var a := Arrival(true, p.frame, s.now);
    NextPacket(s);
    CarriedMore(Arrivals(turns) + batch, s.sent, Gots(s.log), a, p.index);
    BatchMore(OnTurns(Booted(0), turns), batch, a);
    GotsAppend(s.log, Got(p.index));
    assert Arrivals(turns) + (batch + [a]) == Arrivals(turns) + batch + [a];
    assert Readings(turns) + Times(batch + [a]) == Readings(turns) + Times(batch) + [s.now];
  }

  lemma CheckWorkedOff(s: Sys, turns: seq<Turn>, batch: seq<Arrival>)
    requires WorkedOff(s, turns, batch) && s.phase == InBatch([])
    ensures WorkedOff(Apply(s, CheckClock), turns + [Turn(batch, s.now)], [])
  {
    hide OnCheck, OnTurns, WireFrame, Gots, Carried, Arrivals, Readings;
    var t := Turn(batch, s.now);
    TurnsMore(Booted(0), turns, t);
    GotsAppend(s.log, Fired);
    assert Arrivals(turns + [t]) + [] == Arrivals(turns) + batch;
    assert Readings(turns + [t]) + Times([]) == Readings(turns) + Times(batch) + [s.now];
  }

  lemma OtherWorkedOff(s: Sys, m: Move, turns: seq<Turn>, batch: seq<Arrival>)
    requires WorkedOff(s, turns, batch)
    requires !(m.NextSample? && s.phase.InBatch? && s.phase.rest != [])
    requires !(m.CheckClock? && s.phase == InBatch([]))
    ensures WorkedOff(Apply(s, m), turns, batch)
  {
    hide OnBatch, OnTurns, Carried, Arrivals, Readings, Times, Gots, Publish, WithField;
    if m.PublishFrame? && s.heartbeat.Ready? {
      CarriedGrows(Arrivals(turns) + batch, s.sent, Gots(s.log), Last(Apply(s, m).sent));
    } else {
      assert Apply(s, m).sent == s.sent && Apply(s, m).log == s.log && Apply(s, m).bridge == s.bridge;
    }
  }

  /** The pipeline's bridge is the bridge program: in every run it has worked off some turns of the
      control loop and part of a batch. The samples in them are the wire frames the log says were
      seen, in order, and the clock readings never go back. */
  lemma {:induction false} BridgeRunsItsLoop(threads: nat, depthOne: bool, moves: seq<Move>)
    returns (turns: seq<Turn>, batch: seq<Arrival>)
    ensures WorkedOff(Exec(Boot0(threads, depthOne), moves), turns, batch)
  {
    hide WorkedOff, Inv, Apply;
    if moves == [] {
      turns, batch := [], [];
      NothingWorkedOff(threads, depthOne);
    } else {
      var s, m := Exec(Boot0(threads, depthOne), moves[..|moves| - 1]), Last(moves);
      Always(threads, depthOne, moves[..|moves| - 1]);
      turns, batch := BridgeRunsItsLoop(threads, depthOne, moves[..|moves| - 1]);
      if m.NextSample? && s.phase.InBatch? && s.phase.rest != [] {
        SampleWorkedOff(s, turns, batch);
        batch := batch + [Arrival(true, s.phase.rest[0].frame, s.now)];
      } else if m.CheckClock? && s.phase == InBatch([]) {
        CheckWorkedOff(s, turns, batch);
        turns, batch := turns + [Turn(batch, s.now)], [];
      } else {
        OtherWorkedOff(s, m, turns, batch);
      }
    }
  }

  lemma NothingWorkedOff(threads: nat, depthOne: bool)
    ensures WorkedOff(Boot0(threads, depthOne), [], [])
  {}
}
