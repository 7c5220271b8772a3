/** The publisher: a robot state becomes a joystick frame, and a mode change becomes a click. */
module Publisher {
  import opened Types
  import opened Numeric
  import opened Brain

  const HOLD_FRAMES := 10
  const PRIORITY := 50

  /** lastMode is -1 until a mode other than -1 has been published. */
  datatype PubState = PubState(lastMode: int, holdTicks: nat)

  const FRESH := PubState(-1, 0)

  function Axes(s: RobotState, noise: real): (axes: seq<real>)
    ensures |axes| == 6
  {
    if s.mode == MODE_MOVE then
      [-Clip(Round2(s.y), -MAX_VY, MAX_VY), -Clip(Round2(s.x), -MAX_VX, MAX_VX), 0.0,
       -Clip(Round2(s.yaw), -MAX_WZ, MAX_WZ), 0.0, noise]
    else [0.0, 0.0, 0.0, 0.0, 0.0, noise]
  }

  /** The button of a mode: 12 when it has none. */
  function ButtonOf(mode: int): nat {
    if mode == MODE_SLEEP then 0 else if mode == MODE_STAND then 1 else if mode == MODE_MOVE then 2 else 12
  }

  function Buttons(mode: int, clicking: bool): (buttons: seq<nat>)
    ensures |buttons| == 12
  {
    seq(12, b => if clicking && b == ButtonOf(mode) then 1 else 0)
  }

  function Frame(s: RobotState, clicking: bool, noise: real): Joy {
    JoyFrame(PRIORITY, Axes(s, noise), Buttons(s.mode, clicking))
  }

  /** How a published mode moves the tracking fields, and whether its frame is part of a click. */
  function Track(p: PubState, mode: int): (PubState, bool) {
    var ticks := if mode != p.lastMode then HOLD_FRAMES else p.holdTicks;
    if ticks > 0 then (PubState(mode, ticks - 1), true) else (PubState(mode, 0), false)
  }

  function Publish(p: PubState, s: RobotState, noise: real): (PubState, Joy) {
    var (p', clicking) := Track(p, s.mode);
    (p', Frame(s, clicking, noise))
  }

  class DDSPublisher {
    var lastMode: int
    var buttonHoldTicks: nat
    ghost var modes: seq<int>
    ghost var written: seq<Joy>

    ghost function State(): PubState
      reads this
    {
      PubState(lastMode, buttonHoldTicks)
    }

    /** The tracking fields are what the history of published modes makes them. */
    ghost predicate Valid()
      reads this
    {
      State() == After(modes) && |written| == |modes|
    }

    constructor ()
      ensures Valid() && modes == [] && written == []
    {
      lastMode, buttonHoldTicks, modes, written := -1, 0, [], [];
    }

    /** Only in MOVE do velocities go on the axes; axis 5 always carries the noise. */
    method FillAxes(s: RobotState, noise: real) returns (axes: array<real>)
      ensures fresh(axes) && axes[..] == Axes(s, noise)
    {
      var vx, vy, wz := Round2(s.x), Round2(s.y), Round2(s.yaw);
      axes := new real[6](_ => 0.0);
      if s.mode == MODE_MOVE {
        axes[1] := -Clip(vx, -MAX_VX, MAX_VX);
        axes[0] := -Clip(vy, -MAX_VY, MAX_VY);
        axes[3] := -Clip(wz, -MAX_WZ, MAX_WZ);
      }
      axes[5] := noise;
    }

    /** The button of the mode, while the click lasts. */
    method FillButtons(mode: int, clicking: bool) returns (buttons: array<nat>)
      ensures fresh(buttons) && buttons[..] == Buttons(mode, clicking)
    {
      buttons := new nat[12](_ => 0);
      if clicking {
        if mode == MODE_SLEEP {
          buttons[0] := 1;
        } else if mode == MODE_STAND {
          buttons[1] := 1;
        } else if mode == MODE_MOVE {
          buttons[2] := 1;
        }
      }
    }

    /** publish_movement: axes, click bookkeeping, buttons, then one sample written. */
    method PublishMovement(s: RobotState, noise: real) returns (frame: Joy)
      requires Valid()
      modifies this
      ensures Valid()
      ensures (State(), frame) == Publish(old(State()), s, noise)
      ensures written == old(written) + [frame] && modes == old(modes) + [s.mode]
      ensures OnTheWire(frame, s, noise, RunIndex(modes, |modes| - 1) < 10)
    {
      hide OnTheWire, RunIndex, After, Axes, Buttons;
      var axes := FillAxes(s, noise);
      if s.mode != lastMode {
        lastMode := s.mode;
        buttonHoldTicks := HOLD_FRAMES;
      }
      var buttons := FillButtons(s.mode, buttonHoldTicks > 0);
      if buttonHoldTicks > 0 {
        buttonHoldTicks := buttonHoldTicks - 1;
      }
      frame := JoyFrame(PRIORITY, axes[..], buttons[..]);
      modes := modes + [s.mode];
      OneMoreOnTheWire(old(modes), s, noise);
      written := written + [frame];
    }
  }

  /** The tracking fields after a whole history of published modes. */
  function After(modes: seq<int>): PubState {
    if modes == [] then FRESH
    else Track(After(modes[..|modes| - 1]), Last(modes)).0
  }

  /** The click bit the publisher gives frame i of a history. */
  function ClickBit(modes: seq<int>, i: nat): bool
    requires i < |modes|
  {
    Track(After(modes[..i]), modes[i]).1
  }

  /** How many frames precede frame i in its run of equal modes. */
  function RunIndex(modes: seq<int>, i: nat): (n: nat)
    requires i < |modes|
    ensures n <= i
    ensures forall j :: i - n <= j <= i ==> modes[j] == modes[i]
    ensures n < i ==> modes[i - n - 1] != modes[i]
  {
    if i == 0 || modes[i - 1] != modes[i] then 0 else RunIndex(modes, i - 1) + 1
  }

  /** Frame i shows a pressed button: its mode has one and it is among the first ten of its run. */
  predicate Pressed(modes: seq<int>, i: nat)
    requires i < |modes|
  {
    KnownMode(modes[i]) && RunIndex(modes, i) < 10
  }

  lemma {:induction false} RunIndexPrefix(modes: seq<int>, n: nat, i: nat)
    requires i < n <= |modes|
    ensures RunIndex(modes[..n], i) == RunIndex(modes, i)
  {
    if i > 0 {
      RunIndexPrefix(modes, n, i - 1);
    }
  }

  lemma PressedPrefix(modes: seq<int>, n: nat, i: nat)
    requires i < n <= |modes|
    ensures Pressed(modes[..n], i) == Pressed(modes, i)
  {
    RunIndexPrefix(modes, n, i);
  }

  /** The countdown in closed form. A run of -1 at the very start never starts a countdown,
      since -1 is what an unset last_mode reads as. */
  lemma {:induction false} AfterClosedForm(modes: seq<int>)
    requires modes != []
    ensures After(modes).lastMode == Last(modes)
    ensures After(modes).holdTicks ==
            var n := RunIndex(modes, |modes| - 1);
            if modes[0] == -1 && n == |modes| - 1 then 0
            else if n < 10 then 9 - n else 0
  {
    var init := modes[..|modes| - 1];
    if init != [] {
      AfterClosedForm(init);
      RunIndexPrefix(modes, |init|, |init| - 1);
    }
  }

  /** The click in closed form: the buttons of frame i are all zero, except the one of its mode,
      which is set exactly when fewer than ten frames precede it in its run. */
  lemma ClickClosedForm(modes: seq<int>, i: nat, b: nat)
    requires i < |modes| && b < 12
    ensures Buttons(modes[i], ClickBit(modes, i))[b] ==
            if Pressed(modes, i) && b == ButtonOf(modes[i]) then 1 else 0
  {
    if i > 0 {
      AfterClosedForm(modes[..i]);
      RunIndexPrefix(modes, i, i - 1);
    }
  }

  /** The same for the whole frame: closed form of what a history of states puts on the wire. */
  lemma FrameClosedForm(modes: seq<int>, i: nat, s: RobotState, noise: real)
    requires i < |modes| && s.mode == modes[i]
    ensures Publish(After(modes[..i]), s, noise).1 == Frame(s, Pressed(modes, i), noise)
  {
    forall b: nat | b < 12
      ensures Buttons(s.mode, ClickBit(modes, i))[b] == Buttons(s.mode, Pressed(modes, i))[b]
    {
      ClickClosedForm(modes, i, b);
    }
    assert Buttons(s.mode, ClickBit(modes, i)) == Buttons(s.mode, Pressed(modes, i));
  }

  /** Frame f shows state s: the negated speeds, rounded and limited, if s is moving; the noise; and
      the button of the mode, if any, while it is clicking. */
  ghost predicate OnTheWire(f: Joy, s: RobotState, noise: real, clicking: bool) {
    && f.priority == 50
    && (s.mode == 4 ==>
          && NearestIn(-f.axes[1], Round2(s.x), 0.5)
          && NearestIn(-f.axes[0], Round2(s.y), 0.4)
          && NearestIn(-f.axes[3], Round2(s.yaw), 0.8))
    && (s.mode != 4 ==> f.axes[0] == f.axes[1] == f.axes[3] == 0.0)
    && f.axes[2] == f.axes[4] == 0.0 && f.axes[5] == noise
    && (f.buttons[0] == if clicking && s.mode == 0 then 1 else 0)
    && (f.buttons[1] == if clicking && s.mode == 1 then 1 else 0)
    && (f.buttons[2] == if clicking && s.mode == 4 then 1 else 0)
    && forall b :: 3 <= b < 12 ==> f.buttons[b] == 0
  }

  /** What any history of states puts on the wire: a button exactly in the first ten frames of a run. */
  lemma {:induction false} FrameOnTheWire(modes: seq<int>, i: nat, s: RobotState, noise: real)
    requires i < |modes| && s.mode == modes[i]
    ensures OnTheWire(Publish(After(modes[..i]), s, noise).1, s, noise, RunIndex(modes, i) < 10)
  {
    hide RunIndex, After, NearestIn, Round2, Clip;
    FrameClosedForm(modes, i, s, noise);
    ClipIsNearest(Round2(s.x), 0.5);
    ClipIsNearest(Round2(s.y), 0.4);
    ClipIsNearest(Round2(s.yaw), 0.8);
  }

  lemma OneMoreOnTheWire(modes: seq<int>, s: RobotState, noise: real)
    ensures var longer, published := modes + [s.mode], Publish(After(modes), s, noise);
            && published.0 == After(longer)
            && OnTheWire(published.1, s, noise, RunIndex(longer, |modes|) < 10)
  {
    hide OnTheWire, RunIndex;
    assert (modes + [s.mode])[..|modes|] == modes;
    FrameOnTheWire(modes + [s.mode], |modes|, s, noise);
  }

  // Conservation: how many frames of a history show a button.

  function PressedFrames(modes: seq<int>): nat {
    if modes == [] then 0
    else PressedFrames(modes[..|modes| - 1]) + if Pressed(modes, |modes| - 1) then 1 else 0
  }

  datatype ModeRun = ModeRun(mode: int, length: nat)

  function Repeat(mode: int, n: nat): (s: seq<int>)
    ensures |s| == n
  {
    seq(n, _ => mode)
  }

  function Flatten(runs: seq<ModeRun>): seq<int> {
    if runs == [] then [] else Flatten(runs[..|runs| - 1]) + Repeat(Last(runs).mode, Last(runs).length)
  }

  /** Maximal runs: none empty, neighbours different. */
  ghost predicate Maximal(runs: seq<ModeRun>) {
    && (forall k :: 0 <= k < |runs| ==> runs[k].length > 0)
    && (forall k :: 0 < k < |runs| ==> runs[k - 1].mode != runs[k].mode)
  }

  function ClickFrames(runs: seq<ModeRun>): nat {
    if runs == [] then 0
    else
      var r := Last(runs);
      ClickFrames(runs[..|runs| - 1])
      + if !KnownMode(r.mode) then 0 else if r.length < 10 then r.length else 10
  }

  lemma FlattenAppend(runs: seq<ModeRun>, r: ModeRun)
    ensures Flatten(runs + [r]) == Flatten(runs) + Repeat(r.mode, r.length)
  {
    assert (runs + [r])[..|runs|] == runs;
  }

  lemma FlattenEnd(runs: seq<ModeRun>)
    requires Maximal(runs) && runs != []
    ensures Flatten(runs) != [] && Last(Flatten(runs)) == Last(runs).mode
  {}

  lemma {:induction false} LastRunIndex(runs: seq<ModeRun>)
    requires Maximal(runs) && runs != []
    ensures var modes := Flatten(runs);
            modes != [] && RunIndex(modes, |modes| - 1) == Last(runs).length - 1
  {
    var init, r := runs[..|runs| - 1], Last(runs);
    var modes := Flatten(runs);
    var n := RunIndex(modes, |modes| - 1);
    if init != [] {
      assert init[|init| - 1] == runs[|runs| - 2];
      FlattenEnd(init);
      assert modes[|Flatten(init)| - 1] == Last(init).mode;
    }
    if n < r.length - 1 {
      assert false;
    }
  }

  lemma LastPressed(runs: seq<ModeRun>)
    requires Maximal(runs) && runs != []
    ensures var modes, r := Flatten(runs), Last(runs);
            modes != [] && (Pressed(modes, |modes| - 1) <==> KnownMode(r.mode) && r.length <= 10)
  {
    hide RunIndex;
    FlattenEnd(runs);
    LastRunIndex(runs);
  }

  /** Total pressed frames: each maximal run of a mode with a button gives min(length, 10). */
  lemma {:induction false} PressedFramesByRun(runs: seq<ModeRun>)
    requires Maximal(runs)
    ensures PressedFrames(Flatten(runs)) == ClickFrames(runs)
    decreases |Flatten(runs)|
  {
    if runs == [] {
      return;
    }
    hide Pressed, KnownMode;
    var init, r := runs[..|runs| - 1], Last(runs);
    var modes := Flatten(runs);
    LastPressed(runs);
    if r.length == 1 {
      assert modes[..|modes| - 1] == Flatten(init);
      PressedFramesByRun(init);
    } else {
      var shorter := init + [ModeRun(r.mode, r.length - 1)];
      assert shorter[..|shorter| - 1] == init;
      assert modes[..|modes| - 1] == Flatten(shorter);
      PressedFramesByRun(shorter);
    }
  }

  /** One more frame of the last run's mode makes that run longer. */
  lemma LastRunGrows(runs: seq<ModeRun>) returns (longer: seq<ModeRun>)
    requires Maximal(runs) && runs != []
    ensures Maximal(longer) && Flatten(longer) == Flatten(runs) + [Last(runs).mode]
  {
    hide Flatten;
    var rest, r := runs[..|runs| - 1], Last(runs);
    longer := rest + [ModeRun(r.mode, r.length + 1)];
    FlattenAppend(rest, r);
    FlattenAppend(rest, ModeRun(r.mode, r.length + 1));
    assert rest + [r] == runs;
    assert Repeat(r.mode, r.length + 1) == Repeat(r.mode, r.length) + [r.mode];
  }

  /** A frame of another mode starts a run. */
  lemma NewRunStarts(runs: seq<ModeRun>, mode: int)
    requires Maximal(runs) && (runs != [] ==> Last(runs).mode != mode)
    ensures Maximal(runs + [ModeRun(mode, 1)])
    ensures Flatten(runs + [ModeRun(mode, 1)]) == Flatten(runs) + [mode]
  {
    hide Flatten;
    FlattenAppend(runs, ModeRun(mode, 1));
    assert Repeat(mode, 1) == [mode];
  }

  /** Every history is the flattening of maximal runs, so the count above covers all of them. */
  lemma {:induction false} EveryHistoryHasRuns(modes: seq<int>) returns (runs: seq<ModeRun>)
    ensures Maximal(runs) && Flatten(runs) == modes
  {
    if modes == [] {
      runs := [];
    } else {
      hide Maximal, Flatten;
      var init, m := modes[..|modes| - 1], Last(modes);
      assert init + [m] == modes;
      runs := EveryHistoryHasRuns(init);
      if runs != [] && Last(runs).mode == m {
        runs := LastRunGrows(runs);
      } else {
        NewRunStarts(runs, m);
        runs := runs + [ModeRun(m, 1)];
      }
    }
  }
}
