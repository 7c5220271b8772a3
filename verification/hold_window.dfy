/** How long a click must be held: with a reader that keeps only the newest sample, ten frames are
    enough for schedules with at most ten frames between takes, and for no others. */
module HoldWindows {
  import opened Types
  import opened Brain
  import opened BrainThreads
  import opened Publisher
  import opened Bridge
  import opened Link
  import opened Pipeline
  import opened Schedules
  import opened Guarantees

  /** Frame a changes the published mode, and at least h frames carry the new mode in a row. */
  ghost predicate HeldFor(sent: seq<Sent>, a: nat, h: nat) {
    && a < |sent| && a + h <= |sent|
    && (a > 0 ==> sent[a - 1].state.mode != sent[a].state.mode)
    && forall i :: a <= i < a + h ==> sent[i].state.mode == sent[a].state.mode
  }

  /** The bridge has seen frame a or a later one. */
  ghost predicate ReachedBy(s: Sys, a: nat) {
    LastGot(s.log) >= a
  }

  /** At some point of the run, with frame a or a later one seen, the bridge is in frame a's mode. */
  ghost predicate Adopts(s0: Sys, moves: seq<Move>, a: nat)
    requires a < |Exec(s0, moves).sent|
  {
    exists n :: 0 <= n <= |moves| && ReachedBy(Exec(s0, moves[..n]), a)
      && Exec(s0, moves[..n]).bridge.mode == Exec(s0, moves).sent[a].state.mode
  }

  /** How many frames have arrived, where none are lost. */
  function Arrived(s: Sys): int {
    |s.sent| - |s.wire|
  }

  /** With no batch in hand: if the mode that had arrived newest when samples were last taken has a
      button, and the watchdog did not fire since the bridge first saw that run of frames, the bridge
      is in it. */
  ghost predicate UpToDate(s: Sys) {
    var i := Arrived(s) - 1 - s.untaken;
    (s.phase.InBatch? ==> s.phase.rest == []) && i >= 0 ==>
      KnownMode(s.sent[i].state.mode) && QuietInRun(Modes(s.sent), s.log, i) ==>
        s.bridge.mode == s.sent[i].state.mode
  }

  /** The one-slot channel: the slot holds the newest arrival unless it was taken, and the wire has
      all that is not yet there. */
  ghost predicate SlotInv(s: Sys, g: nat) {
    var n := Arrived(s);
    && s.depthOne && n >= 0
    && (forall k :: 0 <= k < |s.wire| ==> s.wire[k].index == n + k)
    && |s.queue| <= 1
    && (s.queue == [] <==> s.untaken == 0)
    && (s.queue != [] ==> s.queue[0].index == n - 1)
    && (s.phase.InBatch? && s.phase.rest != [] ==>
          && |s.phase.rest| == 1
          && s.phase.rest[0].index + 1 + s.untaken == n
          && s.phase.rest[0].index - LastGot(s.log) <= g)
    && (!(s.phase.InBatch? && s.phase.rest != []) ==> LastGot(s.log) + 1 + s.untaken == n)
    && GapsWithin(s.log, g)
  }

  lemma GapsAppend(log: seq<Event>, e: Event, g: nat)
    requires GapsWithin(log, g)
    requires e.Got? ==> e.frame - LastGot(log) <= g
    ensures GapsWithin(log + [e], g)
    ensures LastGot(log + [e]) == if e.Got? then e.frame else LastGot(log)
  {
    var longer := log + [e];
    assert longer[..|log|] == log;
    forall p | 0 <= p < |longer| && longer[p].Got?
      ensures longer[p].frame - LastGot(longer[..p]) <= g
    {
      if p < |log| {
        assert longer[..p] == log[..p] && longer[p] == log[p];
      }
    }
  }

  lemma ArrivalKeepsSlot(s: Sys, m: Move, g: nat)
    requires SlotInv(s, g) && (m.PublishFrame? || m.Deliver?)
    ensures SlotInv(Apply(s, m), g)
  {
    hide GapsWithin, LastGot, Publish;
  }

  lemma SlotKeeps(s: Sys, m: Move, g: nat)
    requires SlotInv(s, g) && !m.Lose? && s.untaken <= g
    ensures SlotInv(Apply(s, m), g)
  {
    hide GapsWithin, LastGot, Publish, OnSample, OnCheck, WithField;
    if m.PublishFrame? || m.Deliver? {
      ArrivalKeepsSlot(s, m, g);
    } else if m.NextSample? && s.phase.InBatch? && s.phase.rest != [] {
      GapsAppend(s.log, Got(s.phase.rest[0].index), g);
    } else if m.CheckClock? {
      GapsAppend(s.log, Fired, g);
    }
  }

  lemma {:induction false} SlotAlways(threads: nat, moves: seq<Move>, g: nat)
    requires NoLosses(moves) && TakesWithin(Boot0(threads, true), moves, g, false)
    ensures SlotInv(Exec(Boot0(threads, true), moves), g)
  {
    if moves != [] {
      var init := moves[..|moves| - 1];
      forall n | 0 <= n <= |init|
        ensures Backlog(Exec(Boot0(threads, true), init[..n]), false) <= g
      {
        assert init[..n] == moves[..n];
      }
      SlotAlways(threads, init, g);
      assert moves[..|init|] == init;
      SlotKeeps(Exec(Boot0(threads, true), init), Last(moves), g);
    }
  }

  /** Where gaps are at most g, the first sample at or after frame a is one of the g frames from a on. */
  lemma {:induction false} FirstInWindow(log: seq<Event>, a: nat, g: nat) returns (p: nat)
    requires GapsWithin(log, g) && LastGot(log) >= a
    ensures p < |log| && log[p].Got? && a <= log[p].frame < a + g
  {
    var init := log[..|log| - 1];
    assert log[|log| - 1] == Last(log);
    if LastGot(init) >= a {
      forall q | 0 <= q < |init| && init[q].Got?
        ensures init[q].frame - LastGot(init[..q]) <= g
      {
        assert log[q] == init[q] && log[..q] == init[..q];
      }
      p := FirstInWindow(init, a, g);
    } else {
      p := |log| - 1;
    }
  }

  lemma OneEvent(s: Sys, m: Move)
    ensures s.log <= Apply(s, m).log && |Apply(s, m).log| <= |s.log| + 1
    ensures s.sent <= Apply(s, m).sent
  {
    hide OnSample, OnCheck, Publish, Step, WithField;
  }

  /** The log grows one event at a time: each of its prefixes was the log at some point. */
  lemma {:induction false} LogPrefix(s0: Sys, moves: seq<Move>, k: nat) returns (n: nat)
    requires s0.log == [] && k <= |Exec(s0, moves).log|
    ensures n <= |moves|
    ensures Exec(s0, moves[..n]).log == Exec(s0, moves).log[..k]
    ensures Exec(s0, moves[..n]).sent <= Exec(s0, moves).sent
  {
    hide Apply;
    if k == |Exec(s0, moves).log| {
      n := |moves|;
      assert moves[..n] == moves;
    } else {
      var init := moves[..|moves| - 1];
      OneEvent(Exec(s0, init), Last(moves));
      n := LogPrefix(s0, init, k);
      assert init[..n] == moves[..n];
    }
  }

  lemma {:induction false} HeldIndex(sent: seq<Sent>, a: nat, h: nat, i: nat)
    requires HeldFor(sent, a, h) && a <= i < a + h
    ensures RunIndex(Modes(sent), i) == i - a
  {
    if i > a {
      HeldIndex(sent, a, h, i - 1);
      assert sent[i - 1].state.mode == sent[a].state.mode == sent[i].state.mode;
    }
  }

  /** The bridge that sees one of the first ten frames of a change is in its mode. */
  lemma SeenMeansAdopted(s: Sys, a: nat)
    requires Inv(s) && s.log != [] && Last(s.log).Got?
    requires Last(s.log).frame < |s.sent| && Pressed(Modes(s.sent), Last(s.log).frame)
    ensures s.bridge.mode == s.sent[Last(s.log).frame].state.mode
  {}

  /** Ten is enough: when at most ten frames arrive between takes, every change that is held
      for as many frames is adopted, while one of the frames it is held for is the newest seen. */
  lemma {:induction false} TenIsEnough(threads: nat, moves: seq<Move>, g: nat, a: nat) returns (n: nat)
    requires NoLosses(moves) && TakesWithin(Boot0(threads, true), moves, g, false) && g <= 10
    requires var s := Exec(Boot0(threads, true), moves);
             HeldFor(s.sent, a, g) && KnownMode(s.sent[a].state.mode) && ReachedBy(s, a)
    ensures n <= |moves|
    ensures var s, s' := Exec(Boot0(threads, true), moves[..n]), Exec(Boot0(threads, true), moves);
            a <= LastGot(s.log) < a + g && s.bridge.mode == s'.sent[a].state.mode
  {
    hide Inv, Apply, OnSample, OnCheck, RunIndex;
    var s := Exec(Boot0(threads, true), moves);
    SlotAlways(threads, moves, g);
    var p := FirstInWindow(s.log, a, g);
    n := LogPrefix(Boot0(threads, true), moves, p + 1);
    var s1 := Exec(Boot0(threads, true), moves[..n]);
    Always(threads, true, moves[..n]);
    assert Last(s1.log) == s.log[p];
    WindowPressed(s1, s, a, g);
    SeenMeansAdopted(s1, a);
  }

  lemma WindowPressed(s1: Sys, s: Sys, a: nat, g: nat)
    requires Inv(s1) && s1.sent <= s.sent && s1.log != [] && Last(s1.log).Got?
    requires HeldFor(s.sent, a, g) && KnownMode(s.sent[a].state.mode) && g <= 10
    requires a <= Last(s1.log).frame < a + g
    ensures var i := Last(s1.log).frame;
            i < |s1.sent| && Pressed(Modes(s1.sent), i) && s1.sent[i].state.mode == s.sent[a].state.mode
  {
    hide SentInv, HeartbeatInv, BridgeSideInv, FlightInv, RunIndex;
    var i := Last(s1.log).frame;
    assert s1.log[|s1.log| - 1].Got?;
    HeldIndex(s.sent, a, g, i);
    assert Modes(s.sent)[..|s1.sent|] == Modes(s1.sent);
    PressedPrefix(Modes(s.sent), |s1.sent|, i);
  }

  /** A change cannot slip by unseen: once more than g further frames have arrived and no batch is in
      hand, the bridge has seen its first frame or a later one. */
  lemma {:induction false} TakenInTime(threads: nat, moves: seq<Move>, g: nat, a: nat)
    requires NoLosses(moves) && TakesWithin(Boot0(threads, true), moves, g, false)
    requires var s := Exec(Boot0(threads, true), moves);
             Arrived(s) > a + g && (s.phase.InBatch? ==> s.phase.rest == [])
    ensures ReachedBy(Exec(Boot0(threads, true), moves), a)
  {
    SlotAlways(threads, moves, g);
    assert moves[..|moves|] == moves;
  }

  lemma NewestSeenDecides(s: Sys, i: nat)
    requires Inv(s) && GapsWithin(s.log, 10) && LastGot(s.log) == i
    requires i < |s.sent| && KnownMode(s.sent[i].state.mode) && QuietInRun(Modes(s.sent), s.log, i)
    ensures s.bridge.mode == s.sent[i].state.mode
  {
    LastGotIsSeen(s.log);
    var p :| 0 <= p < |s.log| && s.log[p].Got? && s.log[p].frame == i;
    LastGotIsNewest(s.log, |s.sent|);
    assert s.log[|s.log| - 1].Got?;
    HoldWindow(Modes(s.sent), s.log);
  }

  lemma SlotMeansUpToDate(s: Sys, g: nat)
    requires Inv(s) && SlotInv(s, g) && g <= 10
    ensures UpToDate(s)
  {
    hide Inv, RunIndex, Modes;
    var i := Arrived(s) - 1 - s.untaken;
    if (s.phase.InBatch? ==> s.phase.rest == []) && i >= 0
       && KnownMode(s.sent[i].state.mode) && QuietInRun(Modes(s.sent), s.log, i) {
      assert forall p :: 0 <= p < |s.log| && s.log[p].Got? ==> s.log[p].frame - LastGot(s.log[..p]) <= 10;
      NewestSeenDecides(s, i);
    }
  }

  /** And at every point without a batch in hand the bridge is in the mode it was last offered. */
  lemma {:induction false} TenKeepsUpToDate(threads: nat, moves: seq<Move>, g: nat)
    requires NoLosses(moves) && TakesWithin(Boot0(threads, true), moves, g, false) && g <= 10
    ensures UpToDate(Exec(Boot0(threads, true), moves))
  {
    Always(threads, true, moves);
    SlotAlways(threads, moves, g);
    SlotMeansUpToDate(Exec(Boot0(threads, true), moves), g);
  }

  // Schedules in which a change is missed.

  /** Every frame of a mode other than STAND that was seen came after its click. */
  ghost predicate NoClickSeen(modes: seq<int>, log: seq<Event>) {
    forall p :: 0 <= p < |log| && log[p].Got? ==>
      log[p].frame < |modes| && (Pressed(modes, log[p].frame) ==> modes[log[p].frame] == MODE_STAND)
  }

  lemma {:induction false} NoClickMeansStand(modes: seq<int>, log: seq<Event>)
    requires NoClickSeen(modes, log)
    ensures ModeOf(modes, log) == MODE_STAND
  {
    if log != [] {
      assert log[|log| - 1] == Last(log);
      assert forall p :: 0 <= p < |log| - 1 ==> log[..|log| - 1][p] == log[p];
      NoClickMeansStand(modes, log[..|log| - 1]);
    }
  }

  lemma {:induction false} HistoriesGrow(s0: Sys, moves: seq<Move>, n: nat)
    requires n <= |moves|
    ensures Exec(s0, moves[..n]).log <= Exec(s0, moves).log
    ensures Exec(s0, moves[..n]).sent <= Exec(s0, moves).sent
  {
    hide Apply;
    if n < |moves| {
      var init := moves[..|moves| - 1];
      assert init[..n] == moves[..n];
      OneEvent(Exec(s0, init), Last(moves));
      HistoriesGrow(s0, init, n);
    } else {
      assert moves[..n] == moves;
    }
  }

  /** Then the bridge stood through the whole run. */
  lemma StandsThroughout(threads: nat, moves: seq<Move>, n: nat)
    requires n <= |moves|
    requires var s := Exec(Boot0(threads, true), moves); NoClickSeen(Modes(s.sent), s.log)
    ensures Exec(Boot0(threads, true), moves[..n]).bridge.mode == MODE_STAND
  {
    hide Apply, RunIndex, SentInv, HeartbeatInv, BridgeInv, FlightInv;
    var s, s' := Exec(Boot0(threads, true), moves[..n]), Exec(Boot0(threads, true), moves);
    Always(threads, true, moves[..n]);
    HistoriesGrow(Boot0(threads, true), moves, n);
    assert Modes(s'.sent)[..|s.sent|] == Modes(s.sent);
    forall p | 0 <= p < |s.log| && s.log[p].Got?
      ensures s.log[p].frame < |s.sent|
      ensures Pressed(Modes(s.sent), s.log[p].frame) ==> Modes(s.sent)[s.log[p].frame] == MODE_STAND
    {
      assert s'.log[p] == s.log[p];
      PressedPrefix(Modes(s'.sent), |s.sent|, s.log[p].frame);
    }
    NoClickMeansStand(Modes(s.sent), s.log);
  }

  /** A run in which the bridge sees the sleeping state's frames only after their click. */
  ghost predicate ClickMissed(s: Sys, g: nat) {
    && s.heartbeat.Waiting? && s.brain.installed != [] && s.brain.current == INITIAL_STATE
    && s.depthOne && s.wire == [] && s.phase.Top? && s.running
    && g <= |s.sent| && s.untaken == 0
    && (forall i :: 0 <= i < |s.sent| ==> s.sent[i].state == INITIAL_STATE)
    && (forall p :: 0 <= p < |s.log| ==> s.log[p].Got? && 10 <= s.log[p].frame < |s.sent|)
    && LastGot(s.log) == |s.sent| - 1
  }

  /** Eleven or more frames in the first gap: the bridge takes one after the click, and every frame
      after that. The published mode is never adopted, however long it is held. */
  lemma {:induction false} MissedFor(threads: nat, g: nat, h: nat) returns (moves: seq<Move>)
    requires 10 < g <= h
    ensures NoLosses(moves) && TakesWithin(Boot0(threads, true), moves, g, true)
    ensures var s := Exec(Boot0(threads, true), moves); ClickMissed(s, g) && |s.sent| == h
    decreases h
  {
    hide Apply;
    var s0 := Boot0(threads, true);
    if h == g {
      moves := Frames(s0, [], g, g);
    } else {
      moves := MissedFor(threads, g, h - 1);
      moves := Frames(s0, moves, g, 1);
    }
    moves := OneTake(s0, moves, g);
  }

  lemma {:induction false} ElevenIsTooMany(threads: nat, g: nat, h: nat) returns (moves: seq<Move>)
    requires g > 10
    ensures NoLosses(moves) && TakesWithin(Boot0(threads, true), moves, g, true)
    ensures var s := Exec(Boot0(threads, true), moves);
            && HeldFor(s.sent, 0, h) && s.sent[0].state.mode == MODE_SLEEP && ReachedBy(s, 0)
            && !UpToDate(s)
    ensures forall n :: 0 <= n <= |moves| ==> Exec(Boot0(threads, true), moves[..n]).bridge.mode == MODE_STAND
  {
    var length := if h < g then g else h;
    moves := MissedFor(threads, g, length);
    var s := Exec(Boot0(threads, true), moves);
    SleepersUnpressed(s, g);
    forall n | 0 <= n <= |moves|
      ensures Exec(Boot0(threads, true), moves[..n]).bridge.mode == MODE_STAND
    {
      StandsThroughout(threads, moves, n);
    }
    assert moves[..|moves|] == moves;
  }

  lemma SleepersUnpressed(s: Sys, g: nat)
    requires ClickMissed(s, g)
    ensures NoClickSeen(Modes(s.sent), s.log)
  {
    forall p | 0 <= p < |s.log| && s.log[p].Got?
      ensures !Pressed(Modes(s.sent), s.log[p].frame)
    {
      HeldIndex(s.sent, 0, |s.sent|, s.log[p].frame);
    }
  }

  /** The sleeping state is published h times, then a failed command has the robot stand. */
  lemma ShortHold(threads: nat, g: nat, h: nat) returns (moves: seq<Move>)
    requires threads >= 1 && 1 <= h < g
    ensures NoLosses(moves) && TakesWithin(Boot0(threads, true), moves, g, true)
    ensures var s := Exec(Boot0(threads, true), moves);
            && s.heartbeat.Waiting? && s.brain.installed != [] && s.brain.current == SAFE_STATE
            && s.depthOne && s.wire == [] && s.phase.Top? && s.running && s.log == []
            && |s.sent| == h == s.untaken
            && forall i :: 0 <= i < h ==> s.sent[i].state == INITIAL_STATE
  {
    moves := Frames(Boot0(threads, true), [], g, h);
    moves := Extended(Boot0(threads, true), moves, ThreadStep(0, Command("", Failed)), g);
  }

  /** A mode held for fewer frames than may pass between takes: the bridge can see none of them. */
  lemma {:induction false} ShortHoldIsMissed(threads: nat, g: nat, h: nat) returns (moves: seq<Move>)
    requires threads >= 1 && 1 <= h < g
    ensures NoLosses(moves) && TakesWithin(Boot0(threads, true), moves, g, true)
    ensures var s := Exec(Boot0(threads, true), moves);
            HeldFor(s.sent, 0, h) && s.sent[0].state.mode == MODE_SLEEP && ReachedBy(s, 0)
    ensures forall n :: 0 <= n <= |moves| ==> Exec(Boot0(threads, true), moves[..n]).bridge.mode == MODE_STAND
  {
    hide TakesWithin, NoLosses, Apply, Exec, Pressed;
    var s0 := Boot0(threads, true);
    moves := ShortHold(threads, g, h);
    moves := Frames(s0, moves, g, g - h);
    moves := OneTake(s0, moves, g);
    var s := Exec(s0, moves);
    assert s.log == [Got(g - 1)] && s.sent[g - 1].state == SAFE_STATE;
    forall n | 0 <= n <= |moves|
      ensures Exec(s0, moves[..n]).bridge.mode == MODE_STAND
    {
      StandsThroughout(threads, moves, n);
    }
  }

  /** In every schedule with at most g frames between takes, every change to a mode with a button that
      is held for h frames, and that the bridge gets as far as, is adopted. */
  ghost predicate AlwaysAdopted(threads: nat, g: nat, h: nat, onWire: bool) {
    forall moves, a: nat ::
      && NoLosses(moves) && TakesWithin(Boot0(threads, true), moves, g, onWire)
      && HeldFor(Exec(Boot0(threads, true), moves).sent, a, h)
      && KnownMode(Exec(Boot0(threads, true), moves).sent[a].state.mode)
      && ReachedBy(Exec(Boot0(threads, true), moves), a)
      ==> Adopts(Boot0(threads, true), moves, a)
  }

  /** The hold window, exactly: changes held for h frames are always adopted if and only if the frames
      between takes are bounded by both h and ten. For h = 10, that is by ten. It makes no difference
      whether frames count from when they are published or from when they arrive. */
  lemma HoldWindowExact(threads: nat, g: nat, h: nat, onWire: bool)
    requires threads >= 1 && h >= 1
    ensures AlwaysAdopted(threads, g, h, onWire) <==> g <= h && g <= 10
  {
    var s0 := Boot0(threads, true);
    if g <= h && g <= 10 {
      forall moves, a: nat |
        && NoLosses(moves) && TakesWithin(s0, moves, g, onWire)
        && HeldFor(Exec(s0, moves).sent, a, h)
        && KnownMode(Exec(s0, moves).sent[a].state.mode)
        && ReachedBy(Exec(s0, moves), a)
        ensures Adopts(s0, moves, a)
      {
        ArrivalsWithin(s0, moves, g, onWire);
        var n := TenIsEnough(threads, moves, g, a);
        assert ReachedBy(Exec(s0, moves[..n]), a);
      }
    } else {
      var moves;
      if g > 10 {
        moves := ElevenIsTooMany(threads, g, h);
      } else {
        moves := ShortHoldIsMissed(threads, g, h);
      }
      ArrivalsWithin(s0, moves, g, true);
      assert !Adopts(s0, moves, 0);
    }
  }

  /** The same bound for agreement at every point where no batch is in hand. */
  lemma UpToDateExact(threads: nat, g: nat, onWire: bool)
    ensures (forall moves :: NoLosses(moves) && TakesWithin(Boot0(threads, true), moves, g, onWire)
               ==> UpToDate(Exec(Boot0(threads, true), moves)))
            <==> g <= 10
  {
    var s0 := Boot0(threads, true);
    if g <= 10 {
      forall moves | NoLosses(moves) && TakesWithin(s0, moves, g, onWire)
        ensures UpToDate(Exec(s0, moves))
      {
        ArrivalsWithin(s0, moves, g, onWire);
        TenKeepsUpToDate(threads, moves, g);
      }
    } else {
      var moves := ElevenIsTooMany(threads, g, 1);
      ArrivalsWithin(s0, moves, g, true);
      assert !UpToDate(Exec(s0, moves));
    }
  }
}
