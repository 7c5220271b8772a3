/** What the bridge's mode is, as a law over two histories: the modes that were published, and what
    the bridge saw of them. The only channel between the two ends is the click. */
module Link {
  import opened Types
  import opened Brain
  import opened Publisher

  /** What the bridge sees: a valid sample, by the number of the frame it carries, or its own watchdog. */
  datatype Event = Got(frame: nat) | Fired

  /** Frames arrive in publishing order, at most once each, and only once published. */
  ghost predicate Ordered(log: seq<Event>, published: nat) {
    && (forall p :: 0 <= p < |log| && log[p].Got? ==> log[p].frame < published)
    && (forall p, q :: 0 <= p < q < |log| && log[p].Got? && log[q].Got? ==> log[p].frame < log[q].frame)
  }

  /** The law: the newest event that matters decides. A firing means STAND, a pressed frame its mode. */
  function ModeOf(modes: seq<int>, log: seq<Event>): int {
    if log == [] then MODE_STAND
    else
      match Last(log)
      case Fired => MODE_STAND
      case Got(i) =>
        if i < |modes| && Pressed(modes, i) then modes[i] else ModeOf(modes, log[..|log| - 1])
  }

  /** Publishing more does not change what was seen. */
  lemma {:induction false} ModeOfPrefix(modes: seq<int>, n: nat, log: seq<Event>)
    requires n <= |modes|
    requires forall p :: 0 <= p < |log| && log[p].Got? ==> log[p].frame < n
    ensures ModeOf(modes[..n], log) == ModeOf(modes, log)
  {
    if log != [] {
      ModeOfPrefix(modes, n, log[..|log| - 1]);
      if Last(log).Got? {
        PressedPrefix(modes, n, Last(log).frame);
      }
    }
  }

  /** Frames a and later all carry one mode that began with frame a. */
  ghost predicate RunFrom(modes: seq<int>, a: nat) {
    && a < |modes|
    && (a > 0 ==> modes[a - 1] != modes[a])
    && forall i :: a <= i < |modes| ==> modes[i] == modes[a]
  }

  lemma {:induction false} RunFromIndex(modes: seq<int>, a: nat, i: nat)
    requires RunFrom(modes, a) && a <= i < |modes|
    ensures RunIndex(modes, i) == i - a
  {
    if i > a {
      RunFromIndex(modes, a, i - 1);
    }
  }

  /** One of the events is a frame before `bound`. */
  ghost predicate SomeBefore(events: seq<Event>, bound: nat) {
    exists p :: 0 <= p < |events| && events[p].Got? && events[p].frame < bound
  }

  lemma SomeBeforeStep(events: seq<Event>, bound: nat)
    requires events != [] && Last(events).Got?
    ensures SomeBefore(events, bound) <==>
            Last(events).frame < bound || SomeBefore(events[..|events| - 1], bound)
  {
    var init := events[..|events| - 1];
    assert events[|events| - 1] == Last(events);
    assert forall p :: 0 <= p < |init| ==> init[p] == events[p];
  }

  /** Exactly when a mode change gets through: the new mode was published from frame a on, `before`
      is what the bridge saw of older frames and `after` what it saw since, with any losses but no
      firing. The bridge ends in the new mode iff one of its first ten frames arrived or the bridge
      was in it anyway; otherwise the change is lost for good. */
  lemma {:induction false} LossTolerance(modes: seq<int>, a: nat, before: seq<Event>, after: seq<Event>)
    requires RunFrom(modes, a) && KnownMode(modes[a])
    requires forall p :: 0 <= p < |after| ==> after[p].Got? && a <= after[p].frame < |modes|
    ensures ModeOf(modes, before + after) ==
            if SomeBefore(after, a + 10) then modes[a] else ModeOf(modes, before)
  {
    if after == [] {
      assert before + after == before;
    } else {
      hide SomeBefore, RunIndex;
      var init, e := after[..|after| - 1], Last(after);
      assert (before + after)[..|before + after| - 1] == before + init;
      LossTolerance(modes, a, before, init);
      RunFromIndex(modes, a, e.frame);
      SomeBeforeStep(after, a + 10);
    }
  }

  /** The last published mode that has a button, or STAND. */
  function LastKnown(modes: seq<int>): int {
    if modes == [] then MODE_STAND
    else if KnownMode(Last(modes)) then Last(modes)
    else LastKnown(modes[..|modes| - 1])
  }

  lemma {:induction false} LastKnownInRun(modes: seq<int>, a: nat)
    requires RunFrom(modes, a)
    ensures LastKnown(modes) == if KnownMode(modes[a]) then modes[a] else LastKnown(modes[..a])
    decreases |modes|
  {
    var init := modes[..|modes| - 1];
    if a < |init| {
      LastKnownInRun(init, a);
      assert init[..a] == modes[..a];
    } else {
      assert init == modes[..a];
    }
  }

  /** Everything that was sent arrived. */
  ghost predicate Lossless(log: seq<Event>) {
    forall p :: 0 <= p < |log| ==> log[p] == Got(p)
  }

  /** Without loss and without firings the bridge holds the last published mode that has a button,
      as if modes were sent directly; integers without a button leave it as it was. */
  lemma {:induction false} LosslessRefinement(modes: seq<int>, log: seq<Event>)
    requires Lossless(log) && |log| <= |modes|
    ensures ModeOf(modes, log) == LastKnown(modes[..|log|])
  {
    if log != [] {
      var k := |log| - 1;
      LosslessRefinement(modes, log[..k]);
      assert modes[..k + 1][..k] == modes[..k];
      var n := RunIndex(modes, k);
      if KnownMode(modes[k]) && n > 0 {
        assert modes[k - 1] == modes[k];
        assert Last(modes[..k]) == modes[k];
      }
    }
  }

  /** The frame seen last, or -1. */
  function LastGot(log: seq<Event>): int {
    if log == [] then -1
    else match Last(log)
      case Got(i) => i
      case Fired => LastGot(log[..|log| - 1])
  }

  /** No stretch of more than g frames passed unseen. */
  ghost predicate GapsWithin(log: seq<Event>, g: nat) {
    forall p :: 0 <= p < |log| && log[p].Got? ==> log[p].frame - LastGot(log[..p]) <= g
  }

  /** No firing since the bridge first saw the run that its newest frame i belongs to. */
  ghost predicate QuietInRun(modes: seq<int>, log: seq<Event>, i: nat)
    requires i < |modes|
  {
    forall p, q :: 0 <= p < q < |log| && log[p].Got? && log[p].frame >= i - RunIndex(modes, i) ==> log[q].Got?
  }

  lemma {:induction false} LastGotIsSeen(log: seq<Event>)
    ensures LastGot(log) >= -1
    ensures LastGot(log) >= 0 ==> exists p :: 0 <= p < |log| && log[p].Got? && log[p].frame == LastGot(log)
  {
    if log != [] {
      assert log[|log| - 1] == Last(log);
      if Last(log).Fired? {
        LastGotIsSeen(log[..|log| - 1]);
      }
    }
  }

  lemma {:induction false} LastGotIsNewest(log: seq<Event>, n: nat)
    requires Ordered(log, n)
    ensures forall p :: 0 <= p < |log| && log[p].Got? ==> log[p].frame <= LastGot(log)
    ensures LastGot(log) < n
  {
    if log != [] && Last(log).Fired? {
      LastGotIsNewest(log[..|log| - 1], n);
    }
  }

  lemma {:induction false} SameRun(modes: seq<int>, i: nat, d: nat)
    requires i < |modes| && d <= RunIndex(modes, i)
    ensures modes[i - d] == modes[i] && RunIndex(modes, i - d) == RunIndex(modes, i) - d
  {
    if d > 0 {
      SameRun(modes, i, d - 1);
    }
  }

  lemma GapsPrefix(log: seq<Event>, n: nat, g: nat)
    requires GapsWithin(log, g) && n <= |log|
    ensures GapsWithin(log[..n], g)
  {
    forall q | 0 <= q < n && log[..n][q].Got?
      ensures log[..n][q].frame - LastGot(log[..n][..q]) <= g
    {
      assert log[..n][q] == log[q] && log[..n][..q] == log[..q];
    }
  }

  /** Where frames i and j are of one run, quiet since the one is quiet since the other. */
  lemma QuietPrefix(modes: seq<int>, log: seq<Event>, i: nat, j: nat)
    requires log != [] && i < |modes| && j < |modes| && i - RunIndex(modes, i) == j - RunIndex(modes, j)
    requires QuietInRun(modes, log, i)
    ensures QuietInRun(modes, log[..|log| - 1], j)
  {
    hide RunIndex;
    var init := log[..|log| - 1];
    assert forall q :: 0 <= q < |init| ==> init[q] == log[q];
  }

  /** The hold window: while the bridge never misses ten frames in a row, the newest frame it sees
      puts it in the mode published with that frame, however the frames before were missed. */
  lemma {:induction false} HoldWindow(modes: seq<int>, log: seq<Event>)
    requires Ordered(log, |modes|) && GapsWithin(log, 10)
    requires log != [] && Last(log).Got?
    requires KnownMode(modes[Last(log).frame]) && QuietInRun(modes, log, Last(log).frame)
    ensures ModeOf(modes, log) == modes[Last(log).frame]
  {
    hide RunIndex, GapsWithin;
    var init, i := log[..|log| - 1], Last(log).frame;
    if !Pressed(modes, i) {
      SeenBefore(modes, log);
      LastGotIsNewest(log, |modes|);
      var j: nat := LastGot(init);
      SameRun(modes, i, i - j);
      GapsPrefix(log, |init|, 10);
      QuietPrefix(modes, log, i, j);
      HoldWindow(modes, init);
    }
  }

  /** If the newest frame seen comes after its click, the event before it was a frame of its run. */
  lemma SeenBefore(modes: seq<int>, log: seq<Event>)
    requires Ordered(log, |modes|) && GapsWithin(log, 10) && log != [] && Last(log).Got?
    requires var i := Last(log).frame; RunIndex(modes, i) >= 10 && QuietInRun(modes, log, i)
    ensures var init, i := log[..|log| - 1], Last(log).frame;
            && LastGot(init) >= 0 && i - LastGot(init) <= RunIndex(modes, i)
            && init != [] && Last(init) == Got(LastGot(init))
  {
    hide RunIndex, LastGot, Ordered;
    var init, i := log[..|log| - 1], Last(log).frame;
    var last := |init| - 1;
    assert log[|log| - 1].frame - LastGot(init) <= 10;
    LastGotIsSeen(init);
    var p :| 0 <= p < |init| && init[p].Got? && init[p].frame == LastGot(init);
    assert log[p] == init[p] && log[last] == init[last];
    LastGotAtEnd(init);
  }

  lemma LastGotAtEnd(log: seq<Event>)
    requires log != [] && Last(log).Got?
    ensures LastGot(log) == Last(log).frame
  {}
}
