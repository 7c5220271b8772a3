/** The bridge: samples in, mode and velocity commands out, with a watchdog.
    Times are steady-clock readings in nanoseconds. */
module Bridge {
  import opened Types
  import opened Numeric

  const WATCHDOG := 500_000_000

  datatype Velocity = Velocity(vx: real, vy: real, wz: real)

  const STILL := Velocity(0.0, 0.0, 0.0)

  /** Why a command was sent. Sample(k): by the k-th valid sample; Watchdog(k): after k of them. */
  datatype Cause = Boot | Sample(k: nat) | Watchdog(k: nat) | Shutdown

  /** A command to the robot's SDK. */
  datatype Call =
    | SetMode(mode: int, cause: Cause)
    | SetVelocity(vel: Velocity, cause: Cause)

  /** last_msg_time, last_mode, watchdog_fired; how many valid samples came; every command sent. */
  datatype BridgeState = BridgeState(lastMsg: int, mode: int, fired: bool, seen: nat, trace: seq<Call>)

  /** One element of a taken batch, and the clock when it is looked at. */
  datatype Arrival = Arrival(valid: bool, frame: Joy, now: int)

  /** One turn of the control loop: a batch, then the clock at the watchdog check. */
  datatype Turn = Turn(batch: seq<Arrival>, check: int)

  function RequestedMode(buttons: seq<nat>, current: int): int
    requires |buttons| == 12
  {
    if buttons[0] == 1 then MODE_SLEEP
    else if buttons[1] == 1 then MODE_STAND
    else if buttons[2] == 1 then MODE_MOVE
    else current
  }

  function Clamped(f: Joy): Velocity {
    Velocity(Clamp(f.axes[1], -MAX_VX, MAX_VX),
             Clamp(f.axes[0], -MAX_VY, MAX_VY),
             Clamp(f.axes[3], -MAX_WZ, MAX_WZ))
  }

  function Booted(now: int): BridgeState {
    BridgeState(now, MODE_STAND, false, 0, [SetMode(MODE_STAND, Boot)])
  }

  function OnSample(b: BridgeState, f: Joy, now: int): BridgeState {
    var cause := Sample(b.seen);
    var mode := RequestedMode(f.buttons, b.mode);
    BridgeState(now, mode, false, b.seen + 1,
                b.trace
                + (if mode != b.mode then [SetMode(mode, cause)] else [])
                + (if mode == MODE_MOVE then [SetVelocity(Clamped(f), cause)] else []))
  }

  function OnArrival(b: BridgeState, a: Arrival): BridgeState {
    if a.valid then OnSample(b, a.frame, a.now) else b
  }

  function OnBatch(b: BridgeState, batch: seq<Arrival>): BridgeState {
    if batch == [] then b
    else OnArrival(OnBatch(b, batch[..|batch| - 1]), batch[|batch| - 1])
  }

  /** What the watchdog sends. */
  function Freeze(k: nat): seq<Call> {
    [SetMode(MODE_STAND, Watchdog(k)), SetVelocity(STILL, Watchdog(k))]
  }

  function OnCheck(b: BridgeState, now: int): BridgeState {
    if now - b.lastMsg > WATCHDOG && !b.fired
    then b.(fired := true, mode := MODE_STAND, trace := b.trace + Freeze(b.seen))
    else b
  }

  function OnTurn(b: BridgeState, t: Turn): BridgeState {
    OnCheck(OnBatch(b, t.batch), t.check)
  }

  function OnTurns(b: BridgeState, turns: seq<Turn>): BridgeState {
    if turns == [] then b
    else OnTurn(OnTurns(b, turns[..|turns| - 1]), turns[|turns| - 1])
  }

  /** The commands of the clean shutdown. */
  const GOODBYE := [SetVelocity(STILL, Shutdown), SetMode(MODE_SLEEP, Shutdown)]

  class BridgeNode {
    var lastMsgTime: int
    var lastMode: int
    var watchdogFired: bool
    ghost var seen: nat
    ghost var trace: seq<Call>

    ghost function State(): BridgeState
      reads this
    {
      BridgeState(lastMsgTime, lastMode, watchdogFired, seen, trace)
    }

    /** Before any command was sent. */
    constructor ()
      ensures trace == []
    {
      lastMsgTime, lastMode, watchdogFired := 0, MODE_STAND, false;
      seen, trace := 0, [];
    }

    method HandleSample(f: Joy, now: int)
      modifies this
      ensures State() == OnSample(old(State()), f, now)
    {
      lastMsgTime := now;
      watchdogFired := false;
      ghost var cause := Sample(seen);
      seen := seen + 1;

      var rawVy, rawVx, rawWz := f.axes[0], f.axes[1], f.axes[3];
      var vx := Clamp(rawVx, -MAX_VX, MAX_VX);
      var vy := Clamp(rawVy, -MAX_VY, MAX_VY);
      var wz := Clamp(rawWz, -MAX_WZ, MAX_WZ);

      var requested := lastMode;
      if f.buttons[0] == 1 {
        requested := MODE_SLEEP;
      } else if f.buttons[1] == 1 {
        requested := MODE_STAND;
      } else if f.buttons[2] == 1 {
        requested := MODE_MOVE;
      }
      if requested != lastMode {
        trace := trace + [SetMode(requested, cause)];
        lastMode := requested;
      }
      if lastMode == MODE_MOVE {
        trace := trace + [SetVelocity(Velocity(vx, vy, wz), cause)];
      }
    }

    method HandleBatch(batch: seq<Arrival>)
      modifies this
      ensures State() == OnBatch(old(State()), batch)
    {
      for i := 0 to |batch|
        invariant State() == OnBatch(old(State()), batch[..i])
      {
        assert batch[..i + 1][..i] == batch[..i];
        if batch[i].valid {
          HandleSample(batch[i].frame, batch[i].now);
        }
      }
      assert batch[..|batch|] == batch;
    }

    method CheckWatchdog(now: int)
      modifies this
      ensures State() == OnCheck(old(State()), now)
    {
      var elapsed := now - lastMsgTime;
      if elapsed > WATCHDOG && !watchdogFired {
        watchdogFired := true;
        trace := trace + [SetMode(MODE_STAND, Watchdog(seen))];
        trace := trace + [SetVelocity(STILL, Watchdog(seen))];
        lastMode := MODE_STAND;
      }
    }

    /** main: boot, turn the control loop until the signal that ends the given turns, shut down. */
    method Run(managerReady: bool, joystickReady: bool, bootTime: int, turns: seq<Turn>) returns (code: int)
      requires trace == []
      modifies this
      ensures !(managerReady && joystickReady) ==> code == 1 && trace == []
      ensures managerReady && joystickReady ==> code == 0
      ensures managerReady && joystickReady ==>
                trace == OnTurns(Booted(bootTime), turns).trace
                         + [SetVelocity(Velocity(0.0, 0.0, 0.0), Shutdown), SetMode(0, Shutdown)]
    {
      if !managerReady {
        return 1;
      }
      if !joystickReady {
        return 1;
      }
      trace := trace + [SetMode(MODE_STAND, Boot)];
      lastMsgTime, lastMode, watchdogFired, seen := bootTime, MODE_STAND, false, 0;
      for i := 0 to |turns|
        invariant State() == OnTurns(Booted(bootTime), turns[..i])
      {
        assert turns[..i + 1][..i] == turns[..i];
        HandleBatch(turns[i].batch);
        CheckWatchdog(turns[i].check);
      }
      assert turns[..|turns|] == turns;
      trace := trace + [SetVelocity(STILL, Shutdown)];
      trace := trace + [SetMode(MODE_SLEEP, Shutdown)];
      return 0;
    }
  }

  // What a command trace says about the robot.

  /** The mode the robot was last told to take, if any. */
  function CommandedMode(trace: seq<Call>): Option<int> {
    if trace == [] then None
    else
      match trace[|trace| - 1]
      case SetMode(m, _) => Some(m)
      case SetVelocity(_, _) => CommandedMode(trace[..|trace| - 1])
  }

  /** The velocity the robot was last told to take, if any. */
  function CommandedVelocity(trace: seq<Call>): Option<Velocity> {
    if trace == [] then None
    else
      match trace[|trace| - 1]
      case SetVelocity(v, _) => Some(v)
      case SetMode(_, _) => CommandedVelocity(trace[..|trace| - 1])
  }

  /** Command i of a trace is one the robot may be sent there. */
  ghost predicate Disciplined(trace: seq<Call>, i: nat)
    requires i < |trace|
  {
    match trace[i]
    case SetMode(m, cause) =>
      KnownMode(m) && (cause.Sample? ==> CommandedMode(trace[..i]) != Some(m))
    case SetVelocity(v, _) =>
      && -0.5 <= v.vx <= 0.5 && -0.4 <= v.vy <= 0.4 && -0.8 <= v.wz <= 0.8
      && (v != Velocity(0.0, 0.0, 0.0) ==> CommandedMode(trace[..i]) == Some(4))
  }

  ghost predicate AllDisciplined(trace: seq<Call>) {
    forall i :: 0 <= i < |trace| ==> Disciplined(trace, i)
  }

  /** A watchdog firing, seen in the trace by its mode command. */
  predicate IsFiring(c: Call) { c.SetMode? && c.cause.Watchdog? }

  /** Any two firings have a valid sample between them. */
  ghost predicate FiringsSeparated(trace: seq<Call>) {
    forall i, j :: 0 <= i < j < |trace| && IsFiring(trace[i]) && IsFiring(trace[j]) ==>
      trace[i].cause.k < trace[j].cause.k
  }

  /** The boot command comes first and alone, and there is no shutdown command. */
  ghost predicate BootFirst(trace: seq<Call>) {
    && trace != [] && trace[0] == SetMode(1, Boot)
    && forall i :: 1 <= i < |trace| ==> trace[i].cause.Sample? || trace[i].cause.Watchdog?
  }

  ghost predicate Frozen(b: BridgeState) {
    && b.mode == 1
    && CommandedMode(b.trace) == Some(1)
    && CommandedVelocity(b.trace) == Some(Velocity(0.0, 0.0, 0.0))
  }

  /** Holds between any two steps of the control loop. */
  ghost predicate BridgeInv(b: BridgeState) {
    && KnownMode(b.mode)
    && CommandedMode(b.trace) == Some(b.mode)
    && AllDisciplined(b.trace)
    && FiringsSeparated(b.trace)
    && BootFirst(b.trace)
    && (forall i :: 0 <= i < |b.trace| && IsFiring(b.trace[i]) ==>
          b.trace[i].cause.k <= b.seen && (!b.fired ==> b.trace[i].cause.k < b.seen))
    && (b.fired ==> Frozen(b))
    && (b.mode == MODE_MOVE ==>
          && b.seen > 0
          && b.trace[|b.trace| - 1].SetVelocity?
          && b.trace[|b.trace| - 1].cause == Sample(b.seen - 1))
  }

  lemma AppendDisciplined(trace: seq<Call>, c: Call)
    requires AllDisciplined(trace)
    requires Disciplined(trace + [c], |trace|)
    ensures AllDisciplined(trace + [c])
  {
    forall i | 0 <= i < |trace|
      ensures Disciplined(trace + [c], i)
    {
      assert Disciplined(trace, i);
      assert (trace + [c])[..i] == trace[..i];
    }
  }

  lemma AppendCall(trace: seq<Call>, c: Call)
    ensures CommandedMode(trace + [c]) == if c.SetMode? then Some(c.mode) else CommandedMode(trace)
    ensures CommandedVelocity(trace + [c]) == if c.SetVelocity? then Some(c.vel) else CommandedVelocity(trace)
    ensures (trace + [c])[..|trace|] == trace
  {
    assert (trace + [c])[..|trace|] == trace;
  }

  lemma BootHolds(now: int)
    ensures BridgeInv(Booted(now))
  {
    assert CommandedMode(Booted(now).trace) == Some(MODE_STAND);
  }

  /** The part of the invariant that a mode command must keep. */
  lemma ModeCommandKeeps(trace: seq<Call>, mode: int, requested: int, cause: Cause)
    requires AllDisciplined(trace) && CommandedMode(trace) == Some(mode)
    requires KnownMode(mode) && (requested != mode ==> KnownMode(requested))
    ensures var t := trace + if requested != mode then [SetMode(requested, cause)] else [];
            AllDisciplined(t) && CommandedMode(t) == Some(requested)
  {
    if requested != mode {
      var c := SetMode(requested, cause);
      AppendCall(trace, c);
      AppendDisciplined(trace, c);
    } else {
      assert trace + [] == trace;
    }
  }

  /** And the part a velocity command must keep. */
  lemma VelocityCommandKeeps(trace: seq<Call>, f: Joy, cause: Cause)
    requires AllDisciplined(trace) && CommandedMode(trace) == Some(MODE_MOVE)
    ensures var t := trace + [SetVelocity(Clamped(f), cause)];
            AllDisciplined(t) && CommandedMode(t) == Some(MODE_MOVE)
  {
    var c := SetVelocity(Clamped(f), cause);
    AppendCall(trace, c);
    AppendDisciplined(trace, c);
  }

  /** What a sample adds is never a firing. */
  lemma SampleKeepsFirings(b: BridgeState, f: Joy, now: int)
    requires BridgeInv(b)
    ensures var b' := OnSample(b, f, now);
            && FiringsSeparated(b'.trace) && BootFirst(b'.trace)
            && forall i :: 0 <= i < |b'.trace| && IsFiring(b'.trace[i]) ==> b'.trace[i].cause.k < b'.seen
  {
    hide AllDisciplined, CommandedMode, RequestedMode, Clamped, Frozen;
  }

  lemma SampleKeeps(b: BridgeState, f: Joy, now: int)
    requires BridgeInv(b)
    ensures BridgeInv(OnSample(b, f, now))
  {
    hide AllDisciplined, CommandedMode, FiringsSeparated, BootFirst, Clamped, Frozen, RequestedMode;
    var b' := OnSample(b, f, now);
    ButtonPriority(f.buttons, b.mode);
    var cause := Sample(b.seen);
    var t := b.trace + if b'.mode != b.mode then [SetMode(b'.mode, cause)] else [];
    ModeCommandKeeps(b.trace, b.mode, b'.mode, cause);
    if b'.mode == MODE_MOVE {
      VelocityCommandKeeps(t, f, cause);
      assert b'.trace == t + [SetVelocity(Clamped(f), cause)];
    } else {
      assert b'.trace == t;
    }
    SampleKeepsFirings(b, f, now);
  }

  lemma CheckKeeps(b: BridgeState, now: int)
    requires BridgeInv(b)
    ensures BridgeInv(OnCheck(b, now))
    ensures now - b.lastMsg > 500_000_000 ==> OnCheck(b, now).fired && Frozen(OnCheck(b, now))
  {
    if now - b.lastMsg > 500_000_000 && !b.fired {
      var c, d := SetMode(MODE_STAND, Watchdog(b.seen)), SetVelocity(STILL, Watchdog(b.seen));
      AppendCall(b.trace, c);
      AppendDisciplined(b.trace, c);
      AppendCall(b.trace + [c], d);
      AppendDisciplined(b.trace + [c], d);
      assert OnCheck(b, now).trace == b.trace + [c] + [d];
    }
  }

  lemma {:induction false} BatchKeeps(b: BridgeState, batch: seq<Arrival>)
    requires BridgeInv(b)
    ensures BridgeInv(OnBatch(b, batch))
  {
    if batch != [] {
      var init, a := batch[..|batch| - 1], batch[|batch| - 1];
      BatchKeeps(b, init);
      if a.valid {
        SampleKeeps(OnBatch(b, init), a.frame, a.now);
      }
    }
  }

  /** Every run of the control loop, for arbitrary axes, buttons, batches and clock readings. */
  lemma {:induction false} LoopKeeps(b: BridgeState, turns: seq<Turn>)
    requires BridgeInv(b)
    ensures BridgeInv(OnTurns(b, turns))
    ensures turns != [] ==>
              var b' := OnTurns(b, turns);
              turns[|turns| - 1].check - b'.lastMsg > 500_000_000 ==> b'.fired && Frozen(b')
  {
    if turns != [] {
      var init, t := turns[..|turns| - 1], turns[|turns| - 1];
      LoopKeeps(b, init);
      BatchKeeps(OnTurns(b, init), t.batch);
      CheckKeeps(OnBatch(OnTurns(b, init), t.batch), t.check);
    }
  }

  /** The whole trace of a normal run: disciplined throughout, firings separated, and ending with
      the robot still and asleep. */
  lemma TraceDiscipline(boot: int, turns: seq<Turn>)
    ensures var trace := OnTurns(Booted(boot), turns).trace + GOODBYE;
            && AllDisciplined(trace) && FiringsSeparated(trace)
            && CommandedVelocity(trace) == Some(Velocity(0.0, 0.0, 0.0)) && CommandedMode(trace) == Some(0)
            && |trace| >= 3
            && trace[|trace| - 2] == SetVelocity(Velocity(0.0, 0.0, 0.0), Shutdown)
            && trace[|trace| - 1] == SetMode(0, Shutdown)
            && BootFirst(trace[..|trace| - 2])
  {
    var t0 := OnTurns(Booted(boot), turns).trace;
    BootHolds(boot);
    LoopKeeps(Booted(boot), turns);
    var c, d := SetVelocity(STILL, Shutdown), SetMode(MODE_SLEEP, Shutdown);
    AppendCall(t0, c);
    AppendDisciplined(t0, c);
    AppendCall(t0 + [c], d);
    AppendDisciplined(t0 + [c], d);
    assert t0 + GOODBYE == t0 + [c] + [d];
    assert (t0 + GOODBYE)[..|t0|] == t0;
  }

  /** A sample sets the velocity only if it leaves the robot in MOVE. A button that ends MOVE sends no
      zero velocity: the old one stays commanded. */
  lemma VelocityAfterSample(b: BridgeState, f: Joy, now: int)
    ensures var b' := OnSample(b, f, now);
            CommandedVelocity(b'.trace) ==
            if b'.mode == 4 then Some(Clamped(f)) else CommandedVelocity(b.trace)
    ensures var v := Clamped(f);
            NearestIn(v.vx, f.axes[1], 0.5) && NearestIn(v.vy, f.axes[0], 0.4) && NearestIn(v.wz, f.axes[3], 0.8)
  {
    ClampedIsNearest(f);
    hide RequestedMode, Clamped, NearestIn;
    var mode := RequestedMode(f.buttons, b.mode);
    var c, d := SetMode(mode, Sample(b.seen)), SetVelocity(Clamped(f), Sample(b.seen));
    var t := if mode != b.mode then b.trace + [c] else b.trace;
    AppendCall(b.trace, c);
    AppendCall(t, d);
    assert OnSample(b, f, now).trace == if mode == MODE_MOVE then t + [d] else t;
  }

  lemma ClampedIsNearest(f: Joy)
    ensures var v := Clamped(f);
            NearestIn(v.vx, f.axes[1], 0.5) && NearestIn(v.vy, f.axes[0], 0.4) && NearestIn(v.wz, f.axes[3], 0.8)
  {
    ClipIsNearest(f.axes[1], 0.5);
    ClipIsNearest(f.axes[0], 0.4);
    ClipIsNearest(f.axes[3], 0.8);
  }

  lemma VelocityAfterCheck(b: BridgeState, now: int)
    ensures var b' := OnCheck(b, now);
            CommandedVelocity(b'.trace) == if b' != b then Some(STILL) else CommandedVelocity(b.trace)
  {
    var c, d := SetMode(MODE_STAND, Watchdog(b.seen)), SetVelocity(STILL, Watchdog(b.seen));
    AppendCall(b.trace + [c], d);
    assert b.trace + Freeze(b.seen) == b.trace + [c] + [d];
  }

  /** Commands caused by samples appear in the order the samples came. */
  ghost predicate SamplesInOrder(trace: seq<Call>, seen: nat) {
    && (forall i :: 0 <= i < |trace| && trace[i].cause.Sample? ==> trace[i].cause.k < seen)
    && (forall i, j :: 0 <= i < j < |trace| && trace[i].cause.Sample? && trace[j].cause.Sample? ==>
          trace[i].cause.k <= trace[j].cause.k)
  }

  lemma SampleKeepsOrder(b: BridgeState, f: Joy, now: int)
    requires SamplesInOrder(b.trace, b.seen)
    ensures var b' := OnSample(b, f, now); SamplesInOrder(b'.trace, b'.seen)
  {}

  /** What one sample adds to the trace. */
  lemma SampleAdds(b: BridgeState, f: Joy, now: int, c: Call)
    requires c in OnSample(b, f, now).trace && c !in b.trace
    ensures c.cause == Sample(b.seen)
    ensures c.SetVelocity? ==> c.vel == Clamped(f)
    ensures c.SetMode? ==> c.mode == RequestedMode(f.buttons, b.mode) != b.mode
  {}

  lemma CheckKeepsOrder(b: BridgeState, now: int)
    requires SamplesInOrder(b.trace, b.seen)
    ensures var b' := OnCheck(b, now); SamplesInOrder(b'.trace, b'.seen)
  {}

  /** Button priority: sleep over stand over move, only the exact value 1 counts, and with none of
      the three pressed the mode is held. */
  lemma ButtonPriority(buttons: seq<nat>, current: int)
    requires |buttons| == 12
    ensures var m := RequestedMode(buttons, current);
            && (buttons[0] == 1 ==> m == 0)
            && (buttons[1] == 1 && buttons[0] != 1 ==> m == 1)
            && (buttons[2] == 1 && buttons[0] != 1 && buttons[1] != 1 ==> m == 4)
            && (buttons[0] != 1 && buttons[1] != 1 && buttons[2] != 1 ==> m == current)
  {}

  // The watchdog and the clock.

  ghost predicate Silent(turns: seq<Turn>) {
    forall i, j :: 0 <= i < |turns| && 0 <= j < |turns[i].batch| ==> !turns[i].batch[j].valid
  }

  lemma {:induction false} SilentBatch(b: BridgeState, batch: seq<Arrival>)
    requires forall j :: 0 <= j < |batch| ==> !batch[j].valid
    ensures OnBatch(b, batch) == b
  {
    if batch != [] {
      SilentBatch(b, batch[..|batch| - 1]);
    }
  }

  /** Without valid samples the watchdog fires once, at the first check more than 500 ms after the
      last sample, and nothing else is ever sent. */
  lemma {:induction false} SilenceExactly(b: BridgeState, turns: seq<Turn>)
    requires Silent(turns) && !b.fired
    ensures OnTurns(b, turns) ==
            if exists i :: 0 <= i < |turns| && turns[i].check - b.lastMsg > 500_000_000
            then b.(fired := true, mode := 1,
                    trace := b.trace + [SetMode(1, Watchdog(b.seen)),
                                        SetVelocity(Velocity(0.0, 0.0, 0.0), Watchdog(b.seen))])
            else b
  {
    if turns != [] {
      var init, t := turns[..|turns| - 1], turns[|turns| - 1];
      assert forall i :: 0 <= i < |init| ==> init[i] == turns[i];
      SilenceExactly(b, init);
      assert turns[|turns| - 1] == t;
      SilentBatch(OnTurns(b, init), t.batch);
    }
  }

  function PreviousCheck(turns: seq<Turn>, t: int, i: nat): int
    requires i < |turns|
  {
    if i == 0 then t else turns[i - 1].check
  }

  /** Checks come at most d apart, the first at most d after time t. */
  ghost predicate Paced(turns: seq<Turn>, t: int, d: int) {
    forall i: nat :: i < |turns| ==> turns[i].check - PreviousCheck(turns, t, i) <= d
  }

  lemma {:induction false} FirstLateCheck(turns: seq<Turn>, t: int, d: int) returns (k: nat)
    requires Paced(turns, t, d) && turns != [] && turns[|turns| - 1].check > t + 500_000_000
    ensures k < |turns|
    ensures t + 500_000_000 < turns[k].check <= t + 500_000_000 + d
    ensures forall i :: 0 <= i < k ==> turns[i].check <= t + 500_000_000
  {
    k := 0;
    while turns[k].check <= t + 500_000_000
      invariant k < |turns|
      invariant forall i :: 0 <= i < k ==> turns[i].check <= t + 500_000_000
      decreases |turns| - k
    {
      k := k + 1;
    }
    assert turns[k].check - PreviousCheck(turns, t, k) <= d;
  }

  /** From any state in which the watchdog has not fired, some check no later than 500 ms + d after
      the last sample leaves the robot standing still, and no earlier check does anything. */
  lemma SilenceDeadline(b: BridgeState, turns: seq<Turn>, d: int)
    requires BridgeInv(b) && !b.fired
    requires Silent(turns) && Paced(turns, b.lastMsg, d)
    requires turns != [] && turns[|turns| - 1].check > b.lastMsg + 500_000_000
    ensures exists k: nat :: k < |turns|
              && b.lastMsg + 500_000_000 < turns[k].check <= b.lastMsg + 500_000_000 + d
              && OnTurns(b, turns[..k + 1]).fired && Frozen(OnTurns(b, turns[..k + 1]))
              && OnTurns(b, turns[..k]) == b
  {
    var k := FirstLateCheck(turns, b.lastMsg, d);
    SilenceExactly(b, turns[..k]);
    SilenceExactly(b, turns[..k + 1]);
    assert turns[..k + 1][k] == turns[k];
    LoopKeeps(b, turns[..k + 1]);
  }

  /** The deadline. After a valid sample at time t and then silence long enough, some check no later
      than t + 500 ms + d leaves the robot standing still, and no earlier check does anything. */
  lemma WatchdogDeadline(b: BridgeState, f: Joy, t: int, turns: seq<Turn>, d: int)
    requires BridgeInv(b)
    requires Silent(turns) && Paced(turns, t, d) && turns != [] && turns[|turns| - 1].check > t + 500_000_000
    ensures exists k: nat :: k < |turns| && t + 500_000_000 < turns[k].check <= t + 500_000_000 + d
              && Frozen(OnTurns(OnSample(b, f, t), turns[..k + 1]))
              && OnTurns(OnSample(b, f, t), turns[..k]) == OnSample(b, f, t)
  {
    SampleKeeps(b, f, t);
    SilenceDeadline(OnSample(b, f, t), turns, d);
  }

  /** The same for a bridge that has heard nothing since it booted at time t. */
  lemma BootDeadline(t: int, turns: seq<Turn>, d: int)
    requires Silent(turns) && Paced(turns, t, d) && turns != [] && turns[|turns| - 1].check > t + 500_000_000
    ensures exists k: nat :: k < |turns| && t + 500_000_000 < turns[k].check <= t + 500_000_000 + d
              && Frozen(OnTurns(Booted(t), turns[..k + 1]))
              && OnTurns(Booted(t), turns[..k]) == Booted(t)
    ensures Booted(t).trace == [SetMode(1, Boot)]
  {
    BootHolds(t);
    SilenceDeadline(Booted(t), turns, d);
  }

  /** It never fires within 500 ms of a valid sample: neither in the turn that took the sample nor
      in silent turns after it. */
  lemma NeverEarly(b: BridgeState, first: Turn, i: nat, later: seq<Turn>)
    requires i < |first.batch| && first.batch[i].valid
    requires forall j :: i < j < |first.batch| ==> !first.batch[j].valid
    requires Silent(later)
    requires first.check - first.batch[i].now <= 500_000_000
    requires forall k :: 0 <= k < |later| ==> later[k].check - first.batch[i].now <= 500_000_000
    ensures OnTurns(OnTurn(b, first), later) == OnBatch(b, first.batch)
    ensures !OnBatch(b, first.batch).fired
  {
    LastValid(b, first.batch, i);
    SilenceExactly(OnBatch(b, first.batch), later);
  }

  lemma {:induction false} LastValid(b: BridgeState, batch: seq<Arrival>, i: nat)
    requires i < |batch| && batch[i].valid
    requires forall j :: i < j < |batch| ==> !batch[j].valid
    ensures OnBatch(b, batch).lastMsg == batch[i].now && !OnBatch(b, batch).fired
  {
    if i < |batch| - 1 {
      LastValid(b, batch[..|batch| - 1], i);
    }
  }

  /** With the loop ideally timed, the firing turn after a sample is exactly the 26th silent one. */
  lemma {:induction false} IdealLoopFiresAt26(b: BridgeState, f: Joy, t: int, turns: seq<Turn>)
    requires Silent(turns)
    requires forall i :: 0 <= i < |turns| ==> turns[i].check == t + (i + 1) * 20_000_000
    ensures OnTurns(OnSample(b, f, t), turns).fired <==> |turns| >= 26
  {
    SilenceExactly(OnSample(b, f, t), turns);
    if |turns| >= 26 {
      assert turns[25].check - t > 500_000_000;
    }
  }
}
