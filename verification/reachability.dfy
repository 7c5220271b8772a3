/** What can happen: runs of the pipeline in which frames are lost, time passes, the watchdog fires
    and the bridge shuts down, and that no part of it can get stuck. */
module Reachability {
  import opened Types
  import opened Brain
  import opened BrainThreads
  import opened Publisher
  import opened Bridge
  import opened Link
  import opened Pipeline
  import opened Guarantees

  /** Some run leads from s to s'. */
  ghost predicate Reaches(s: Sys, s': Sys) {
    exists moves :: Exec(s, moves) == s'
  }

  lemma Stay(s: Sys)
    ensures Reaches(s, s)
  {
    assert Exec(s, []) == s;
  }

  lemma OneMore(s: Sys, s1: Sys, m: Move)
    requires Reaches(s, s1)
    ensures Reaches(s, Apply(s1, m))
  {
    hide Apply;
    var moves :| Exec(s, moves) == s1;
    var longer := moves + [m];
    assert longer[..|longer| - 1] == moves && Last(longer) == m;
    assert Exec(s, longer) == Apply(s1, m);
  }

  lemma {:induction false} ExecAppend(s: Sys, first: seq<Move>, more: seq<Move>)
    ensures Exec(s, first + more) == Exec(Exec(s, first), more)
  {
    hide Apply;
    if more == [] {
      assert first + more == first;
    } else {
      var all := first + more;
      assert all[..|all| - 1] == first + more[..|more| - 1] && Last(all) == Last(more);
      ExecAppend(s, first, more[..|more| - 1]);
    }
  }

  lemma Onwards(s: Sys, s1: Sys, s2: Sys)
    requires Reaches(s, s1) && Reaches(s1, s2)
    ensures Reaches(s, s2)
  {
    var first :| Exec(s, first) == s1;
    var more :| Exec(s1, more) == s2;
    ExecAppend(s, first, more);
  }

  lemma ReachedInv(threads: nat, depthOne: bool, s: Sys)
    requires Reaches(Boot0(threads, depthOne), s)
    ensures Inv(s)
  {
    hide Inv, Apply;
    var moves :| Exec(Boot0(threads, depthOne), moves) == s;
    Always(threads, depthOne, moves);
  }

  // The heartbeat.

  /** The rest of a snapshot; then the lock is free. */
  lemma {:induction false} CopyRest(s: Sys) returns (s': Sys)
    requires HeartbeatInv(s) && s.heartbeat.Copying?
    ensures Reaches(s, s') && s' == s.(heartbeat := Ready(s.brain.current))
    decreases FIELDS - s.heartbeat.fields
  {
    hide StateInv, WithField, Exec, Reaches;
    var m := if s.heartbeat.fields < FIELDS then CopyField else UnlockState;
    Stay(s);
    OneMore(s, s, m);
    if m.UnlockState? {
      s' := Apply(s, m);
    } else {
      KeepsHeartbeat(s, m);
      s' := CopyRest(Apply(s, m));
      Onwards(s, Apply(s, m), s');
    }
  }

  /** A snapshot is in hand, taken whole. */
  lemma Snapshot(s: Sys) returns (s': Sys)
    requires HeartbeatInv(s)
    ensures Reaches(s, s') && s'.heartbeat.Ready? && HeartbeatInv(s')
    ensures s' == s.(heartbeat := s'.heartbeat, version := s'.version)
    ensures !s.heartbeat.Ready? ==> s'.heartbeat.snapshot == s.brain.current
  {
    hide WithField, Exec, Reaches;
    Stay(s);
    s' := s;
    if s'.heartbeat.Waiting? {
      OneMore(s, s', LockState);
      KeepsHeartbeat(s', LockState);
      s' := Apply(s', LockState);
    }
    if s'.heartbeat.Copying? {
      var before := s';
      s' := CopyRest(before);
      Onwards(s, before, s');
    }
  }

  /** From s to s' only k frames were published, and are on the wire. */
  ghost predicate Published(s: Sys, s': Sys, k: nat) {
    && s' == s.(heartbeat := Waiting, version := s'.version, pub := s'.pub, wire := s'.wire, sent := s'.sent)
    && |s'.sent| == |s.sent| + k && s.sent <= s'.sent
    && |s'.wire| == |s.wire| + k && s.wire <= s'.wire
    && forall i :: |s.wire| <= i < |s'.wire| ==> s'.wire[i].index == |s.sent| + i - |s.wire|
  }

  /** The heartbeat never gets stuck: from every reachable state it can publish one more frame, and
      from outside the lock that frame carries the current state. */
  lemma NextFrame(s: Sys, noise: real) returns (s': Sys)
    requires HeartbeatInv(s)
    ensures Reaches(s, s') && HeartbeatInv(s') && Published(s, s', 1)
    ensures !s.heartbeat.Ready? ==> Last(s'.sent).state == s.brain.current
    ensures Last(s'.sent).noise == noise
  {
    hide WithField, Exec, Reaches, StateInv;
    var ready := Snapshot(s);
    OneMore(s, ready, PublishFrame(noise));
    KeepsHeartbeat(ready, PublishFrame(noise));
    s' := Apply(ready, PublishFrame(noise));
  }

  /** k more frames of the current state. */
  lemma {:induction false} NextFrames(s: Sys, k: nat) returns (s': Sys)
    requires HeartbeatInv(s) && s.heartbeat.Waiting?
    ensures Reaches(s, s') && HeartbeatInv(s') && Published(s, s', k)
    ensures forall i :: |s.sent| <= i < |s'.sent| ==> s'.sent[i].state == s.brain.current
  {
    hide HeartbeatInv, Exec, Reaches, Apply;
    if k == 0 {
      s' := s;
      Stay(s);
    } else {
      var before := NextFrames(s, k - 1);
      s' := NextFrame(before, 0.0);
      Onwards(s, before, s');
    }
  }

  /** Commands never get stuck: an idle thread installs a state at once, or when the snapshot that
      holds the lock is done. */
  lemma CommandGetsThrough(s: Sys, t: nat, text: string, reply: Reply) returns (s': Sys)
    requires HeartbeatInv(s) && t < |s.brain.pcs| && s.brain.pcs[t].Idle?
    ensures Reaches(s, s')
    ensures s' == s.(brain := s'.brain, heartbeat := s'.heartbeat)
    ensures s'.brain == Step(s.brain, t, Command(text, reply))
    ensures s'.brain.installed == s.brain.installed + [s'.brain.current]
    ensures !s.heartbeat.Copying? ==> s'.heartbeat == s.heartbeat
  {
    hide StateInv, Exec, Reaches;
    Stay(s);
    s' := s;
    if s.heartbeat.Copying? {
      s' := CopyRest(s);
    }
    OneMore(s, s', ThreadStep(t, Command(text, reply)));
    s' := Apply(s', ThreadStep(t, Command(text, reply)));
  }

  /** The memory section never gets stuck either: at most three steps of its own, which need no lock,
      and a thread is idle again. */
  lemma CommandCompletes(s: Sys, t: nat) returns (s': Sys)
    requires t < |s.brain.pcs|
    ensures Reaches(s, s') && s' == s.(brain := s'.brain)
    ensures s'.brain.pcs == s.brain.pcs[t := Idle]
    ensures s'.brain.installed == s.brain.installed && s'.brain.current == s.brain.current
    ensures s'.brain.remembered == s.brain.remembered + match s.brain.pcs[t] case Swapped(e) => [e] case _ => []
  {
    hide Exec, Reaches;
    Stay(s);
    OneMore(s, s, ThreadStep(t, Advance));
    var s1 := Apply(s, ThreadStep(t, Advance));
    OneMore(s, s1, ThreadStep(t, Advance));
    var s2 := Apply(s1, ThreadStep(t, Advance));
    OneMore(s, s2, ThreadStep(t, Advance));
    s' := Apply(s2, ThreadStep(t, Advance));
  }

  // The channel.

  /** The packets a loss pattern lets through. */
  function Kept(packets: seq<Packet>, keep: seq<bool>): seq<Packet>
    requires |packets| == |keep|
  {
    if keep == [] then []
    else (if keep[0] then [packets[0]] else []) + Kept(packets[1..], keep[1..])
  }

  lemma KeptStep(passed: seq<Packet>, rest: seq<Packet>, keep: seq<bool>)
    requires |rest| == |keep| && keep != []
    ensures passed + rest == (passed + [rest[0]]) + rest[1..]
    ensures passed + Kept(rest, keep) == (if keep[0] then passed + [rest[0]] else passed) + Kept(rest[1..], keep[1..])
  {
    assert rest == [rest[0]] + rest[1..];
    Regroup(passed, [rest[0]], Kept(rest[1..], keep[1..]));
    Regroup(passed, [], Kept(rest[1..], keep[1..]));
    Regroup(passed, [rest[0]], rest[1..]);
    assert passed + [] == passed;
  }

  lemma Regroup(x: seq<Packet>, y: seq<Packet>, z: seq<Packet>)
    ensures x + (y + z) == (x + y) + z
  {}

  lemma LoseOne(passed: seq<Packet>, rest: seq<Packet>)
    requires rest != []
    ensures (passed + rest)[..|passed|] + (passed + rest)[|passed| + 1..] == passed + rest[1..]
  {}

  /** Any of the packets on the wire can be lost: here all that `keep` rules out, after `passed`. */
  lemma {:induction false} LosePattern(s: Sys, passed: seq<Packet>, rest: seq<Packet>, keep: seq<bool>)
    returns (s': Sys)
    requires s.wire == passed + rest && |rest| == |keep|
    ensures Reaches(s, s') && s' == s.(wire := passed + Kept(rest, keep))
    decreases |keep|
  {
    hide Exec, Reaches, Kept;
    Stay(s);
    if keep == [] {
      s' := s;
      KeptNone();
    } else {
      KeptStep(passed, rest, keep);
      if keep[0] {
        s' := LosePattern(s, passed + [rest[0]], rest[1..], keep[1..]);
      } else {
        LoseOne(passed, rest);
        OneMore(s, s, Lose(|passed|));
        var s1 := Apply(s, Lose(|passed|));
        s' := LosePattern(s1, passed, rest[1..], keep[1..]);
        Onwards(s, s1, s');
      }
    }
  }

  lemma KeptNone()
    ensures Kept([], []) == []
  {}

  function Events(packets: seq<Packet>): (e: seq<Event>)
    ensures |e| == |packets| && forall i :: 0 <= i < |e| ==> e[i] == Got(packets[i].index)
  {
    seq(|packets|, i requires 0 <= i < |packets| => Got(packets[i].index))
  }

  lemma FirstGot(log: seq<Event>)
    requires log != [] && log[0].Got?
    ensures exists j: nat :: Got(j) in log
  {
    assert log[0] == Got(log[0].frame) && log[0] in log;
  }

  lemma {:induction false} KeptExactly(packets: seq<Packet>, keep: seq<bool>, base: nat)
    requires |packets| == |keep| && forall i :: 0 <= i < |packets| ==> packets[i].index == base + i
    ensures forall j: nat :: Got(j) in Events(Kept(packets, keep)) <==> base <= j < base + |keep| && keep[j - base]
  {
    if keep != [] {
      KeptExactly(packets[1..], keep[1..], base + 1);
      var head, tail := if keep[0] then [packets[0]] else [], Kept(packets[1..], keep[1..]);
      assert Events(head + tail) == Events(head) + Events(tail);
    }
  }

  /** One frame of the current state for each element of keep; those that keep rules out are lost. */
  lemma PublishAndLose(s: Sys, keep: seq<bool>) returns (s': Sys)
    requires HeartbeatInv(s) && s.heartbeat.Waiting? && s.wire == []
    ensures Reaches(s, s')
    ensures s' == s.(version := s'.version, pub := s'.pub, wire := s'.wire, sent := s'.sent)
    ensures |s'.sent| == |s.sent| + |keep| && s.sent <= s'.sent
    ensures forall i :: |s.sent| <= i < |s'.sent| ==> s'.sent[i].state == s.brain.current
    ensures forall j: nat :: Got(j) in Events(s'.wire) <==>
              |s.sent| <= j < |s.sent| + |keep| && keep[j - |s.sent|]
  {
    hide Exec, Reaches, HeartbeatInv, Kept;
    var s1 := NextFrames(s, |keep|);
    assert [] + s1.wire == s1.wire;
    s' := LosePattern(s1, [], s1.wire, keep);
    assert [] + Kept(s1.wire, keep) == Kept(s1.wire, keep);
    Onwards(s, s1, s');
    KeptExactly(s1.wire, keep, |s.sent|);
  }

  /** Everything on the wire arrives; a one-slot reader keeps the newest. */
  lemma {:induction false} DeliverAll(s: Sys) returns (s': Sys)
    ensures Reaches(s, s')
    ensures s' == s.(wire := [], queue := s'.queue, untaken := s.untaken + |s.wire|)
    ensures s'.queue == if !s.depthOne then s.queue + s.wire
                        else if s.wire == [] then s.queue else [Last(s.wire)]
    decreases |s.wire|
  {
    hide Exec, Reaches;
    Stay(s);
    if s.wire == [] {
      s' := s;
      assert s.queue + [] == s.queue;
    } else {
      OneMore(s, s, Deliver);
      var s1 := Apply(s, Deliver);
      assert s.wire == [s.wire[0]] + s1.wire;
      s' := DeliverAll(s1);
      Onwards(s, s1, s');
    }
  }

  // The bridge.

  lemma NoEventsOfNone()
    ensures Events([]) == [] && forall log: seq<Event> :: log + [] == log
  {}

  lemma EventsStep(log: seq<Event>, packets: seq<Packet>)
    requires packets != []
    ensures log + Events(packets) == (log + [Got(packets[0].index)]) + Events(packets[1..])
  {}

  lemma SampleFields(b: BridgeState, f: Joy, now: int)
    ensures var b' := OnSample(b, f, now); b'.lastMsg == now && !b'.fired && b'.seen == b.seen + 1
  {}

  /** The bridge works off the batch in hand. */
  lemma {:induction false} WorkOff(s: Sys) returns (s': Sys)
    requires s.phase.InBatch?
    ensures Reaches(s, s')
    ensures s' == s.(phase := InBatch([]), bridge := s'.bridge, log := s.log + Events(s.phase.rest))
    ensures if s.phase.rest == [] then s'.bridge == s.bridge
            else s'.bridge.lastMsg == s.now && !s'.bridge.fired
    ensures s'.bridge.seen == s.bridge.seen + |s.phase.rest|
    decreases |s.phase.rest|
  {
    hide Exec, Reaches, OnSample, Events;
    Stay(s);
    if s.phase.rest == [] {
      s' := s;
      NoEventsOfNone();
    } else {
      EventsStep(s.log, s.phase.rest);
      OneMore(s, s, NextSample);
      var s1 := Apply(s, NextSample);
      SampleFields(s.bridge, s.phase.rest[0].frame, s.now);
      s' := WorkOff(s1);
      Onwards(s, s1, s');
    }
  }

  /** One whole turn of the control loop takes all there is; then the watchdog looks at the clock. */
  lemma OneTurn(s: Sys) returns (s': Sys)
    requires s.phase.Top? && s.running
    ensures Reaches(s, s')
    ensures s' == s.(queue := [], untaken := 0, bridge := s'.bridge, log := s'.log)
    ensures s'.bridge.seen == s.bridge.seen + |s.queue|
    ensures s.queue != [] ==> s'.log == s.log + Events(s.queue) && s'.bridge.lastMsg == s.now && !s'.bridge.fired
    ensures s.queue == [] ==> s'.bridge == OnCheck(s.bridge, s.now)
    ensures s.queue == [] ==> s'.log == if s'.bridge == s.bridge then s.log else s.log + [Fired]
  {
    hide Exec, Reaches, Freeze;
    Stay(s);
    OneMore(s, s, TakeSamples);
    var s1 := Apply(s, TakeSamples);
    var s2 := WorkOff(s1);
    Onwards(s, s1, s2);
    OneMore(s, s2, CheckClock);
    s' := Apply(s2, CheckClock);
    assert s.log + Events([]) == s.log;
  }

  /** All that is on the wire arrives and is taken in one turn. */
  lemma DeliverAndTurn(s: Sys) returns (s': Sys)
    requires s.phase.Top? && s.running && s.queue == []
    ensures Reaches(s, s')
    ensures s' == s.(wire := [], queue := [], untaken := 0, bridge := s'.bridge, log := s'.log)
    ensures s.wire != [] ==>
              && s'.log == s.log + Events(if s.depthOne then [Last(s.wire)] else s.wire)
              && s'.bridge.lastMsg == s.now && !s'.bridge.fired
    ensures s.wire == [] ==> s'.bridge == OnCheck(s.bridge, s.now)
    ensures s.wire == [] ==> s'.log == if s'.bridge == s.bridge then s.log else s.log + [Fired]
  {
    hide Exec, Reaches, OnCheck, Events;
    var s1 := DeliverAll(s);
    assert [] + s.wire == s.wire;
    s' := OneTurn(s1);
    Onwards(s, s1, s');
  }

  /** A clean exit is always possible: from every state a signal, the rest of the turn in hand and the
      next look at the flag bring the bridge down. */
  lemma ShutdownReachable(s: Sys) returns (s': Sys)
    ensures Reaches(s, s') && s'.phase.Down?
    ensures s.phase.InBatch? ==> s'.bridge.seen == s.bridge.seen + |s.phase.rest|
    ensures !s.phase.InBatch? ==> s'.bridge == s.bridge
  {
    hide Exec, Reaches, Freeze;
    Stay(s);
    OneMore(s, s, Signal);
    s' := Apply(s, Signal);
    if s'.phase.InBatch? {
      var before := s';
      s' := WorkOff(before);
      Onwards(s, before, s');
      OneMore(s, s', CheckClock);
      s' := Apply(s', CheckClock);
    }
    if s'.phase.Top? {
      OneMore(s, s', Exit);
      s' := Apply(s', Exit);
    }
  }

  // Lost frames.

  lemma AllSleep(modes: seq<int>, log: seq<Event>)
    requires modes != [] && forall i :: 0 <= i < |modes| ==> modes[i] == 0
    requires forall p :: 0 <= p < |log| ==> log[p].Got? && log[p].frame < |modes|
    ensures ModeOf(modes, log) == if SomeBefore(log, 10) then 0 else 1
  {
    LossTolerance(modes, 0, [], log);
    assert [] + log == log;
  }

  /** The frames that keep rules out are lost, the others are seen. */
  lemma LossyRun(threads: nat, keep: seq<bool>) returns (s: Sys)
    ensures Reaches(Boot0(threads, false), s)
    ensures |s.sent| == |keep| && forall i :: 0 <= i < |s.sent| ==> s.sent[i].state == INITIAL_STATE
    ensures !s.phase.InBatch? && s.queue == [] && s.wire == [] && NoFirings(s.log)
    ensures forall j: nat :: Got(j) in s.log <==> j < |keep| && keep[j]
  {
    hide Exec, Reaches, Inv, HeartbeatInv, OnCheck, Events;
    var s0 := Boot0(threads, false);
    Stay(s0);
    ReachedInv(threads, false, s0);
    HeartbeatStarts(s0);
    var s1 := PublishAndLose(s0, keep);
    s := DeliverAndTurn(s1);
    Onwards(s0, s1, s);
    LogOfOneTurn(s1, s);
  }

  lemma LogOfOneTurn(s: Sys, s': Sys)
    requires s.log == [] && !s.depthOne && s.now == s.bridge.lastMsg
    requires s.wire != [] ==> s'.log == s.log + Events(s.wire)
    requires s.wire == [] ==> s'.bridge == OnCheck(s.bridge, s.now)
    requires s.wire == [] ==> s'.log == if s'.bridge == s.bridge then s.log else s.log + [Fired]
    ensures s'.log == Events(s.wire) && NoFirings(s'.log)
  {}

  /** Every loss pattern can happen: the sleeping state is published once for each element of keep, the
      frames kept are exactly those delivered, and nothing is left in flight. The bridge sleeps iff one
      of the first ten was kept; otherwise the change is lost, however many frames come after. */
  lemma AnyLossPattern(threads: nat, keep: seq<bool>) returns (s: Sys)
    ensures Reaches(Boot0(threads, false), s)
    ensures |s.sent| == |keep| && forall i :: 0 <= i < |s.sent| ==> s.sent[i].state.mode == 0
    ensures InFlight(s) == [] && NoFirings(s.log) && Ordered(s.log, |s.sent|)
    ensures forall j: nat :: Got(j) in s.log <==> j < |keep| && keep[j]
    ensures s.bridge.mode == if exists j: nat :: j < 10 && j < |keep| && keep[j] then 0 else 1
  {
    hide Exec, Reaches, Inv, Boot0, ModeOf, Ordered, NoFirings;
    s := LossyRun(threads, keep);
    ReachedInv(threads, false, s);
    LogIsOrdered(s);
    SeenByPattern(s, keep);
  }

  lemma HeartbeatStarts(s: Sys)
    requires Inv(s)
    ensures HeartbeatInv(s)
  {}

  lemma LogIsOrdered(s: Sys)
    requires Inv(s)
    ensures Ordered(s.log, |s.sent|) && s.bridge.mode == ModeOf(Modes(s.sent), s.log)
    ensures s.pub == After(Modes(s.sent))
  {}

  lemma SeenByPattern(s: Sys, keep: seq<bool>)
    requires Inv(s) && NoFirings(s.log) && |s.sent| == |keep|
    requires forall i :: 0 <= i < |s.sent| ==> s.sent[i].state.mode == 0
    requires forall j: nat :: Got(j) in s.log <==> j < |keep| && keep[j]
    ensures s.bridge.mode == if exists j: nat :: j < 10 && j < |keep| && keep[j] then 0 else 1
  {
    hide Inv, ModeOf, Ordered;
    LogIsOrdered(s);
    forall p | 0 <= p < |s.log|
      ensures s.log[p].Got? && s.log[p].frame < |keep|
    {
      assert s.log[p] in s.log && s.log[p] == Got(s.log[p].frame);
    }
    if keep == [] {
      if s.log != [] {
        FirstGot(s.log);
        assert false;
      }
      NothingSeen(Modes(s.sent));
    } else {
      AllSleep(Modes(s.sent), s.log);
    }
    if j: nat :| j < 10 && j < |keep| && keep[j] {
      assert Got(j) in s.log;
    }
    if SomeBefore(s.log, 10) {
      var p :| 0 <= p < |s.log| && s.log[p].Got? && s.log[p].frame < 10;
      assert Got(s.log[p].frame) in s.log;
    }
  }

  lemma NothingSeen(modes: seq<int>)
    ensures ModeOf(modes, []) == 1 && !SomeBefore([], 10)
  {}

  // Silence.

  /** Ten frames of a moving state, of which only the first arrived, and then ns of silence. */
  ghost predicate Silenced(s: Sys, moving: RobotState, ns: nat) {
    && s.heartbeat.Waiting? && s.brain.current == moving && InFlight(s) == []
    && s.phase.Top? && s.running && s.now == ns
    && |s.sent| == 10 && (forall i :: 0 <= i < 10 ==> s.sent[i].state == moving)
    && s.pub == PubState(4, 0)
  }

  lemma FirstSeen(threads: nat, depthOne: bool, moving: RobotState) returns (s: Sys)
    requires threads >= 1 && Sound(moving)
    ensures Reaches(Boot0(threads, depthOne), s) && Inv(s)
    ensures s.heartbeat.Waiting? && s.brain.current == moving && s.wire == [] && s.queue == []
    ensures s.phase.Top? && s.running && s.now == 0 && s.bridge.lastMsg == 0 && !s.bridge.fired
    ensures |s.sent| == 1 && s.sent[0].state == moving && s.log == [Got(0)]
  {
    hide Exec, Reaches, Inv, OnCheck;
    var s0 := Boot0(threads, depthOne);
    Stay(s0);
    ReachedInv(threads, depthOne, s0);
    HeartbeatStarts(s0);
    var s1 := CommandGetsThrough(s0, 0, "", ReplyFor(moving));
    ReachedInv(threads, depthOne, s1);
    HeartbeatStarts(s1);
    var s2 := NextFrame(s1, 0.0);
    s := DeliverAndTurn(s2);
    assert s.log == [Got(0)];
    Onwards(s0, s1, s2);
    Onwards(s0, s2, s);
    ReachedInv(threads, depthOne, s);
  }

  lemma HoldUsedUp(modes: seq<int>)
    requires |modes| == 10 && forall i :: 0 <= i < 10 ==> modes[i] == 4
    ensures After(modes) == PubState(4, 0)
  {
    AfterClosedForm(modes);
    assert modes[0] == modes[9 - RunIndex(modes, 9)];
  }

  lemma NineLost(s: Sys) returns (s': Sys)
    requires HeartbeatInv(s) && s.heartbeat.Waiting? && s.wire == []
    ensures Reaches(s, s')
    ensures s' == s.(version := s'.version, pub := s'.pub, sent := s'.sent)
    ensures |s'.sent| == |s.sent| + 9 && s.sent <= s'.sent
    ensures forall i :: |s.sent| <= i < |s'.sent| ==> s'.sent[i].state == s.brain.current
  {
    hide Exec, Reaches, HeartbeatInv;
    s' := PublishAndLose(s, seq(9, _ => false));
    if s'.wire != [] {
      FirstGot(Events(s'.wire));
      assert false;
    }
  }

  /** The watchdog fires, exactly: from every moving state a run leads to ns nanoseconds of silence at
      a check, and the robot is then frozen if these are more than 500 ms, and moving as before if not. */
  lemma SilenceReached(threads: nat, depthOne: bool, moving: RobotState, ns: nat) returns (s: Sys)
    requires threads >= 1 && Sound(moving) && moving.mode == 4
    ensures Reaches(Boot0(threads, depthOne), s) && Silenced(s, moving, ns)
    ensures s.log == if ns > 500_000_000 then [Got(0), Fired] else [Got(0)]
    ensures ns > 500_000_000 ==> s.bridge.fired && Frozen(s.bridge)
    ensures ns <= 500_000_000 ==> !s.bridge.fired && s.bridge.mode == 4
                                  && CommandedVelocity(s.bridge.trace) == Some(Intended(moving))
  {
    hide Exec, Reaches, Inv, HeartbeatInv, Events, Frozen, CommandedVelocity, Intended, Boot0;
    var s0 := Boot0(threads, depthOne);
    var s1 := FirstSeen(threads, depthOne, moving);
    HeartbeatStarts(s1);
    var s2 := NineLost(s1);
    var s3 := Apply(s2, Tick(ns));
    Onwards(s0, s1, s2);
    OneMore(s0, s2, Tick(ns));
    s := DeliverAndTurn(s3);
    Onwards(s0, s3, s);
    ReachedInv(threads, depthOne, s);
    LogIsOrdered(s);
    HoldUsedUp(Modes(s.sent));
    AfterSilence(threads, depthOne, s, moving);
  }

  lemma AfterSilence(threads: nat, depthOne: bool, s: Sys, moving: RobotState)
    requires Reaches(Boot0(threads, depthOne), s)
    requires |s.sent| > 0 && s.sent[0].state == moving && moving.mode == 4
    requires s.log == [Got(0)] || s.log == [Got(0), Fired]
    ensures s.bridge.fired == (|s.log| == 2)
    ensures s.bridge.fired ==> Frozen(s.bridge)
    ensures !s.bridge.fired ==> s.bridge.mode == 4 && CommandedVelocity(s.bridge.trace) == Some(Intended(moving))
  {
    hide HeartbeatInv, SentInv, ChannelInv, Intended, CommandedVelocity;
    ReachedInv(threads, depthOne, s);
    var moves :| Exec(Boot0(threads, depthOne), moves) == s;
    VelocityLaw(threads, depthOne, moves);
    assert ModeOf(Modes(s.sent), [Got(0)]) == 4;
    assert DrivenBy(Modes(s.sent), [Got(0)]) == Some(Got(0));
  }

  /** And the freeze holds: k more frames of the same moving state arrive and are seen, and the robot
      still stands still. */
  lemma FreezeHolds(threads: nat, depthOne: bool, moving: RobotState, ns: nat, k: nat) returns (s: Sys)
    requires threads >= 1 && Sound(moving) && moving.mode == 4 && ns > 500_000_000
    ensures Reaches(Boot0(threads, depthOne), s)
    ensures |s.sent| == 10 + k && forall i :: 0 <= i < 10 + k ==> s.sent[i].state == moving
    ensures InFlight(s) == [] && (k > 0 ==> !s.bridge.fired && s.log != [] && Last(s.log) == Got(9 + k))
    ensures Frozen(s.bridge)
  {
    hide Exec, Reaches, Inv, Frozen, OnCheck;
    var s0 := Boot0(threads, depthOne);
    var s1 := SilenceReached(threads, depthOne, moving, ns);
    ReachedInv(threads, depthOne, s1);
    HeartbeatStarts(s1);
    var s2 := NextFrames(s1, k);
    s := DeliverAndTurn(s2);
    Onwards(s1, s2, s);
    Onwards(s0, s1, s);
    StaysFrozen(threads, depthOne, s1, s);
  }

  lemma StaysFrozen(threads: nat, depthOne: bool, s: Sys, s': Sys)
    requires Reaches(Boot0(threads, depthOne), s) && Reaches(s, s')
    requires s.bridge.fired && InFlight(s) == [] && s.pub.holdTicks == 0
    requires SameModeFrom(s'.sent, |s.sent|, s.pub.lastMode)
    ensures Frozen(s'.bridge)
  {
    hide Apply, Frozen, SameModeFrom;
    var first :| Exec(Boot0(threads, depthOne), first) == s;
    var more :| Exec(s, more) == s';
    FreezeIsLatched(threads, depthOne, first, more);
  }
}
