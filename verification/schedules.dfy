/** Building runs of the pipeline step by step, for results that say what can happen. */
module Schedules {
  import opened Types
  import opened Brain
  import opened BrainThreads
  import opened Publisher
  import opened Bridge
  import opened Link
  import opened Pipeline
  import opened Guarantees

  /** The frames that arrived since samples were last taken and, with onWire, those under way. */
  function Backlog(s: Sys, onWire: bool): nat {
    s.untaken + if onWire then |s.wire| else 0
  }

  /** At no point of the run have more than g frames arrived since samples were last taken; with
      onWire they count as soon as they are published. */
  ghost predicate TakesWithin(s: Sys, moves: seq<Move>, g: nat, onWire: bool) {
    forall n :: 0 <= n <= |moves| ==> Backlog(Exec(s, moves[..n]), onWire) <= g
  }

  /** Counting from publication is the stricter bound. */
  lemma ArrivalsWithin(s: Sys, moves: seq<Move>, g: nat, onWire: bool)
    requires TakesWithin(s, moves, g, onWire)
    ensures TakesWithin(s, moves, g, false)
  {
    forall n | 0 <= n <= |moves|
      ensures Backlog(Exec(s, moves[..n]), false) <= g
    {
      assert Backlog(Exec(s, moves[..n]), onWire) <= g;
    }
  }

  /** One more step of a schedule. */
  lemma Extended(s0: Sys, moves: seq<Move>, m: Move, g: nat) returns (longer: seq<Move>)
    requires NoLosses(moves) && TakesWithin(s0, moves, g, true)
    requires !m.Lose? && Backlog(Apply(Exec(s0, moves), m), true) <= g
    ensures longer == moves + [m] && NoLosses(longer) && TakesWithin(s0, longer, g, true)
    ensures Exec(s0, longer) == Apply(Exec(s0, moves), m)
  {
    hide Apply;
    longer := moves + [m];
    assert longer[..|longer| - 1] == moves;
    forall n | 0 <= n <= |longer|
      ensures Backlog(Exec(s0, longer[..n]), true) <= g
    {
      if n < |longer| {
        assert longer[..n] == moves[..n];
      } else {
        assert longer[..n] == longer;
      }
    }
  }

  lemma NowWithin(s0: Sys, moves: seq<Move>, g: nat)
    requires TakesWithin(s0, moves, g, true)
    ensures Backlog(Exec(s0, moves), true) <= g
  {
    assert moves[..|moves|] == moves;
  }

  lemma AgreesStep(copy: RobotState, source: RobotState, k: nat)
    requires k < FIELDS
    ensures Agrees(copy, source, 0)
    ensures Agrees(copy, source, k) ==> Agrees(WithField(copy, source, k), source, k + 1)
  {}

  /** The heartbeat takes the lock and copies the first k fields. */
  lemma {:induction false} CopyFields(s0: Sys, moves: seq<Move>, g: nat, k: nat)
    returns (longer: seq<Move>, copy: RobotState)
    requires NoLosses(moves) && TakesWithin(s0, moves, g, true) && k <= FIELDS
    requires Exec(s0, moves).heartbeat.Waiting? && Exec(s0, moves).brain.installed != []
    ensures NoLosses(longer) && TakesWithin(s0, longer, g, true)
    ensures var s := Exec(s0, moves);
            && Exec(s0, longer) == s.(heartbeat := Copying(k, copy), version := |s.brain.installed| - 1)
            && Agrees(copy, s.brain.current, k)
  {
    hide Exec, NoLosses, TakesWithin, WithField, Agrees;
    NowWithin(s0, moves, g);
    AgreesStep(BLANK, Exec(s0, moves).brain.current, 0);
    if k == 0 {
      longer := Extended(s0, moves, LockState, g);
      copy := BLANK;
    } else {
      longer, copy := CopyFields(s0, moves, g, k - 1);
      longer := Extended(s0, longer, CopyField, g);
      AgreesStep(copy, Exec(s0, moves).brain.current, k - 1);
      copy := WithField(copy, Exec(s0, moves).brain.current, k - 1);
    }
  }

  /** One heartbeat whose frame arrives at once, while the bridge is busy elsewhere. */
  lemma OneFrame(s0: Sys, moves: seq<Move>, g: nat) returns (longer: seq<Move>)
    requires NoLosses(moves) && TakesWithin(s0, moves, g, true)
    requires var s := Exec(s0, moves);
             s.heartbeat.Waiting? && s.brain.installed != [] && s.depthOne && s.wire == [] && s.untaken < g
    ensures NoLosses(longer) && TakesWithin(s0, longer, g, true)
    ensures Publishes(Exec(s0, moves), Exec(s0, longer), 1)
  {
    hide Exec, NoLosses, TakesWithin, Publish;
    var copy;
    longer, copy := CopyFields(s0, moves, g, FIELDS);
    longer := Extended(s0, longer, UnlockState, g);
    longer := Extended(s0, longer, PublishFrame(0.0), g);
    longer := Extended(s0, longer, Deliver, g);
  }

  /** From s to s', only k frames of the current state were published, and arrived. */
  ghost predicate Publishes(s: Sys, s': Sys, k: nat) {
    && s'.heartbeat.Waiting? && s'.brain == s.brain && s'.depthOne && s'.wire == []
    && s'.phase == s.phase && s'.running == s.running && s'.bridge == s.bridge && s'.log == s.log
    && |s'.sent| == |s.sent| + k && s.sent <= s'.sent && s'.untaken == s.untaken + k
    && (forall i :: |s.sent| <= i < |s'.sent| ==> s'.sent[i].state == s.brain.current)
    && (k > 0 ==> |s'.queue| == 1 && s'.queue[0].index == |s'.sent| - 1)
  }

  lemma {:induction false} Frames(s0: Sys, moves: seq<Move>, g: nat, k: nat) returns (longer: seq<Move>)
    requires NoLosses(moves) && TakesWithin(s0, moves, g, true)
    requires var s := Exec(s0, moves);
             s.heartbeat.Waiting? && s.brain.installed != [] && s.depthOne && s.wire == [] && s.untaken + k <= g
    ensures NoLosses(longer) && TakesWithin(s0, longer, g, true)
    ensures Publishes(Exec(s0, moves), Exec(s0, longer), k)
  {
    if k == 0 {
      longer := moves;
    } else {
      longer := Frames(s0, moves, g, k - 1);
      longer := OneFrame(s0, longer, g);
    }
  }

  /** One turn of the bridge with one sample to take; it is too recent for the watchdog. */
  lemma OneTake(s0: Sys, moves: seq<Move>, g: nat) returns (longer: seq<Move>)
    requires NoLosses(moves) && TakesWithin(s0, moves, g, true)
    requires var s := Exec(s0, moves); s.phase.Top? && s.running && |s.queue| == 1
    ensures NoLosses(longer) && TakesWithin(s0, longer, g, true)
    ensures var s, s' := Exec(s0, moves), Exec(s0, longer);
            s' == s.(queue := [], untaken := 0, log := s.log + [Got(s.queue[0].index)], bridge := s'.bridge)
  {
    hide RequestedMode, Clamped, TakesWithin, NoLosses, Exec;
    NowWithin(s0, moves, g);
    longer := Extended(s0, moves, TakeSamples, g);
    longer := Extended(s0, longer, NextSample, g);
    longer := Extended(s0, longer, CheckClock, g);
  }

  // A button that ends MOVE leaves the velocity as it was.

  /** A command of thread 0 that moves the robot, remembered to the end, and its first frame seen. */
  lemma MovingSeen(threads: nat, moving: RobotState) returns (moves: seq<Move>)
    requires threads >= 1 && Sound(moving)
    ensures NoLosses(moves) && TakesWithin(Boot0(threads, true), moves, 1, true)
    ensures var s := Exec(Boot0(threads, true), moves);
            && s.heartbeat.Waiting? && s.brain.installed != [] && |s.brain.pcs| == threads && s.brain.pcs[0].Idle?
            && s.depthOne && s.wire == [] && s.queue == [] && s.untaken == 0 && s.phase.Top? && s.running
            && |s.sent| == 1 && s.sent[0].state == moving && s.log == [Got(0)]
  {
    hide TakesWithin, NoLosses, Exec;
    var s0 := Boot0(threads, true);
    moves := BootSchedule(s0);
    moves := Extended(s0, moves, ThreadStep(0, Command("", ReplyFor(moving))), 1);
    moves := Frames(s0, moves, 1, 1);
    moves := OneTake(s0, moves, 1);
    moves := Extended(s0, moves, ThreadStep(0, Advance), 1);
    moves := Extended(s0, moves, ThreadStep(0, Advance), 1);
  }

  lemma BootSchedule(s0: Sys) returns (moves: seq<Move>)
    requires Backlog(s0, true) == 0
    ensures NoLosses(moves) && TakesWithin(s0, moves, 1, true) && Exec(s0, moves) == s0
  {
    moves := [];
  }

  lemma MoveThenStand(modes: seq<int>)
    requires modes == [MODE_MOVE, MODE_STAND]
    ensures ModeOf(modes, [Got(0), Got(1)]) == MODE_STAND
    ensures DrivenBy(modes, [Got(0), Got(1)]) == Some(Got(0))
  {
    var log := [Got(0), Got(1)];
    assert log[..1] == [Got(0)] && Last(log) == Got(1) && Last(log[..1]) == Got(0);
    assert ModeOf(modes, log[..1]) == MODE_MOVE;
  }

  /** A robot told to leave MOVE need not be told to be still. From every state that moves a run leads
      to a robot in STAND, in the safe state after a failed command, with that velocity commanded. */
  lemma {:induction false} StandKeepsVelocity(threads: nat, moving: RobotState) returns (moves: seq<Move>)
    requires threads >= 1 && Sound(moving) && moving.mode == MODE_MOVE
    ensures NoLosses(moves) && TakesWithin(Boot0(threads, true), moves, 1, true)
    ensures var s := Exec(Boot0(threads, true), moves);
            && s.brain.current == SAFE_STATE && InFlight(s) == []
            && s.bridge.mode == MODE_STAND && CommandedVelocity(s.bridge.trace) == Some(Intended(moving))
  {
    hide TakesWithin, NoLosses, Exec, CommandedVelocity, Intended, ModeOf, DrivenBy, Frame, OnSample, OnCheck;
    var s0 := Boot0(threads, true);
    moves := MovingSeen(threads, moving);
    moves := Extended(s0, moves, ThreadStep(0, Command("", Failed)), 1);
    moves := Frames(s0, moves, 1, 1);
    moves := OneTake(s0, moves, 1);
    var s := Exec(s0, moves);
    assert s.log == [Got(0), Got(1)] && Modes(s.sent) == [MODE_MOVE, MODE_STAND];
    MoveThenStand(Modes(s.sent));
    Always(threads, true, moves);
    VelocityLaw(threads, true, moves);
  }
}
