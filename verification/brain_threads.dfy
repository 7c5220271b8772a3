/** Commands processed by any number of threads: the microphone thread and the web event loop in
    the program. Installing a state is atomic; the memory section after it is three separate steps. */
module BrainThreads {
  import opened Types
  import opened Brain

  /** Where a thread is inside process_text_command. */
  datatype Pc =
    | Idle
    | Swapped(entry: Entry)  // state installed, entry not yet appended
    | Appended               // appended, length not yet tested
    | Popping                // test was true, pop(0) comes next

  /** installed, remembered and popped record history; underflow records a pop from an empty list. */
  datatype BrainSys = BrainSys(
    current: RobotState,
    memory: seq<Entry>,
    pcs: seq<Pc>,
    installed: seq<RobotState>,
    remembered: seq<Entry>,
    popped: nat,
    underflow: bool)

  datatype Action = Command(text: string, reply: Reply) | Advance

  function Start(threads: nat): BrainSys {
    BrainSys(INITIAL_STATE, [], seq(threads, _ => Idle), [INITIAL_STATE], [], 0, false)
  }

  /** One atomic step of thread t; a step that is not possible there changes nothing. */
  function Step(s: BrainSys, t: nat, a: Action): BrainSys {
    if t >= |s.pcs| then s
    else match a
      case Command(text, reply) =>
        if !s.pcs[t].Idle? then s
        else
          var state := Installed(reply);
          var pc := if Validate(reply).Some? then Swapped(Entry(text, state)) else Idle;
          s.(current := state, installed := s.installed + [state], pcs := s.pcs[t := pc])
      case Advance =>
        match s.pcs[t]
        case Idle => s
        case Swapped(e) =>
          s.(memory := s.memory + [e], remembered := s.remembered + [e], pcs := s.pcs[t := Appended])
        case Appended =>
          s.(pcs := s.pcs[t := if |s.memory| > MEMORY_SIZE then Popping else Idle])
        case Popping =>
          if s.memory == [] then s.(underflow := true, pcs := s.pcs[t := Idle])
          else s.(memory := s.memory[1..], popped := s.popped + 1, pcs := s.pcs[t := Idle])
  }

  function Run(s: BrainSys, steps: seq<(nat, Action)>): BrainSys {
    if steps == [] then s
    else
      var before := Run(s, steps[..|steps| - 1]);
      var (t, a) := Last(steps);
      Step(before, t, a)
  }

  predicate InSection(pc: Pc) { pc.Appended? || pc.Popping? }

  predicate AboutToPop(pc: Pc) { pc.Popping? }

  function Count(pcs: seq<Pc>, f: Pc -> bool): (n: nat)
    ensures n <= |pcs|
  {
    if pcs == [] then 0
    else Count(pcs[1..], f) + if f(pcs[0]) then 1 else 0
  }

  lemma {:induction false} CountUpdate(pcs: seq<Pc>, f: Pc -> bool, t: nat, pc: Pc)
    requires t < |pcs|
    ensures Count(pcs[t := pc], f) ==
            Count(pcs, f) - (if f(pcs[t]) then 1 else 0) + if f(pc) then 1 else 0
  {
    if t == 0 {
      assert pcs[0 := pc][1..] == pcs[1..];
    } else {
      CountUpdate(pcs[1..], f, t - 1, pc);
      assert pcs[t := pc][1..] == pcs[1..][t - 1 := pc];
    }
  }

  lemma {:induction false} CountZero(pcs: seq<Pc>, f: Pc -> bool)
    ensures Count(pcs, f) == 0 <==> forall t :: 0 <= t < |pcs| ==> !f(pcs[t])
  {
    if pcs != [] {
      CountZero(pcs[1..], f);
      assert forall t :: 0 < t < |pcs| ==> pcs[t] == pcs[1..][t - 1];
    }
  }

  lemma {:induction false} CountOrder(pcs: seq<Pc>)
    ensures Count(pcs, AboutToPop) <= Count(pcs, InSection)
  {
    if pcs != [] {
      CountOrder(pcs[1..]);
    }
  }

  /** The state side: what is installed is always sound, and the newest one is current. */
  ghost predicate StateInv(s: BrainSys) {
    && s.installed != []
    && s.current == Last(s.installed)
    && forall i :: 0 <= i < |s.installed| ==> Sound(s.installed[i])
  }

  /** The memory side, for any number of threads. */
  ghost predicate MemoryInv(s: BrainSys) {
    var inside := Count(s.pcs, InSection);
    var popping := Count(s.pcs, AboutToPop);
    && !s.underflow
    && s.popped <= |s.remembered|
    && s.memory == s.remembered[s.popped..]
    && inside <= |s.memory| <= 5 + inside
    && (s.popped > 0 || popping > 0 ==> |s.memory| - popping >= 6 - |s.pcs|)
  }

  lemma StartHolds(threads: nat)
    ensures StateInv(Start(threads)) && MemoryInv(Start(threads))
  {
    CountZero(Start(threads).pcs, InSection);
    CountZero(Start(threads).pcs, AboutToPop);
  }

  lemma StepKeepsState(s: BrainSys, t: nat, a: Action)
    requires StateInv(s)
    ensures StateInv(Step(s, t, a))
    ensures s.installed <= Step(s, t, a).installed
  {}

  /** The counts after thread t moves on. */
  lemma CountsAfter(s: BrainSys, t: nat, a: Action, f: Pc -> bool)
    requires t < |s.pcs|
    ensures var s' := Step(s, t, a);
            && |s'.pcs| == |s.pcs|
            && Count(s'.pcs, f) == Count(s.pcs, f) - (if f(s.pcs[t]) then 1 else 0) + if f(s'.pcs[t]) then 1 else 0
  {
    var s' := Step(s, t, a);
    assert s'.pcs == s.pcs[t := s'.pcs[t]];
    CountUpdate(s.pcs, f, t, s'.pcs[t]);
  }

  lemma StepKeepsMemory(s: BrainSys, t: nat, a: Action)
    requires MemoryInv(s)
    ensures MemoryInv(Step(s, t, a))
  {
    hide Count;
    if t < |s.pcs| {
      CountsAfter(s, t, a, InSection);
      CountsAfter(s, t, a, AboutToPop);
      CountOrder(s.pcs);
    }
  }

  /** Every interleaving: the memory is a contiguous suffix of the append log, at most five plus the
      number of threads inside the section, and pop(0) never meets an empty list. */
  lemma {:induction false} MemorySafety(threads: nat, steps: seq<(nat, Action)>)
    ensures var s := Run(Start(threads), steps);
            && MemoryInv(s) && StateInv(s) && |s.pcs| == threads
            && |s.memory| <= 5 + Count(s.pcs, InSection)
  {
    if steps == [] {
      StartHolds(threads);
    } else {
      var init := steps[..|steps| - 1];
      MemorySafety(threads, init);
      var (t, a) := Last(steps);
      StepKeepsMemory(Run(Start(threads), init), t, a);
      StepKeepsState(Run(Start(threads), init), t, a);
    }
  }

  ghost predicate AtRest(s: BrainSys) {
    forall t :: 0 <= t < |s.pcs| ==> !InSection(s.pcs[t])
  }

  /** With every thread out of the section the memory holds the newest entries: at most five, and
      if any entry was dropped, at least six less the number of threads. */
  lemma MemoryAtRest(threads: nat, steps: seq<(nat, Action)>)
    requires AtRest(Run(Start(threads), steps))
    ensures var s := Run(Start(threads), steps);
            && |s.memory| <= |s.remembered| && |s.memory| <= 5
            && (forall i :: 0 <= i < |s.memory| ==> s.memory[i] == s.remembered[|s.remembered| - |s.memory| + i])
            && (|s.memory| < |s.remembered| ==> |s.memory| >= 6 - threads)
  {
    var s := Run(Start(threads), steps);
    MemorySafety(threads, steps);
    CountZero(s.pcs, InSection);
    CountZero(s.pcs, AboutToPop);
  }

  /** A whole command of thread t, taken without interruption, does what one call of
      CommandBrain.ProcessTextCommand does; a failed one leaves the memory alone. */
  lemma UninterruptedCommand(s: BrainSys, t: nat, text: string, reply: Reply)
    requires t < |s.pcs| && s.pcs[t].Idle? && |s.memory| <= 5
    ensures var s' := Step(Step(Step(Step(s, t, Command(text, reply)), t, Advance), t, Advance), t, Advance);
            var state := match Validate(reply)
                         case Some(v) => v
                         case None => RobotState(1, "stand", 0.0, 0.0, 0.0, "slow");
            var entries := if Validate(reply).Some? then [Entry(text, state)] else [];
            && s'.current == state
            && s'.installed == s.installed + [state]
            && s'.remembered == s.remembered + entries
            && s'.memory == LastN(s.memory + entries, 5)
            && s'.pcs == s.pcs && s'.underflow == s.underflow
  {
    var s1 := Step(s, t, Command(text, reply));
    var s2 := Step(s1, t, Advance);
    var s3 := Step(s2, t, Advance);
    var s4 := Step(s3, t, Advance);
    assert s4.pcs == s.pcs;
  }

  /** The promise: exactly the last five successes. */
  ghost predicate LastFive(s: BrainSys) {
    && |s.memory| == (if |s.remembered| < 5 then |s.remembered| else 5)
    && forall i :: 0 <= i < |s.memory| ==> s.memory[i] == s.remembered[|s.remembered| - |s.memory| + i]
  }

  // Commands that do not overlap.

  /** At no point of the run are two threads inside the section. */
  ghost predicate NoOverlap(threads: nat, steps: seq<(nat, Action)>) {
    forall n :: 0 <= n <= |steps| ==> Count(Run(Start(threads), steps[..n]).pcs, InSection) <= 1
  }

  /** No pop takes the memory below five entries. */
  ghost predicate FullInv(s: BrainSys) {
    var popping := Count(s.pcs, AboutToPop);
    s.popped > 0 || popping > 0 ==> |s.memory| - popping >= 5
  }

  /** Among at most one thread inside, one that is about to test leaves none about to pop. */
  lemma NonePopping(pcs: seq<Pc>, t: nat)
    requires t < |pcs| && pcs[t].Appended? && Count(pcs, InSection) <= 1
    ensures Count(pcs, AboutToPop) == 0
  {
    CountUpdate(pcs, InSection, t, Idle);
    CountUpdate(pcs, AboutToPop, t, Idle);
    CountOrder(pcs[t := Idle]);
  }

  lemma StepKeepsFull(s: BrainSys, t: nat, a: Action)
    requires MemoryInv(s) && FullInv(s) && Count(s.pcs, InSection) <= 1
    ensures FullInv(Step(s, t, a))
  {
    hide Count;
    if t < |s.pcs| {
      CountsAfter(s, t, a, AboutToPop);
      if s.pcs[t].Appended? {
        NonePopping(s.pcs, t);
      }
    }
  }

  lemma {:induction false} NoOverlapKeepsFull(threads: nat, steps: seq<(nat, Action)>)
    requires NoOverlap(threads, steps)
    ensures FullInv(Run(Start(threads), steps))
  {
    if steps == [] {
      CountZero(Start(threads).pcs, AboutToPop);
    } else {
      var init := steps[..|steps| - 1];
      assert forall n :: 0 <= n <= |init| ==> init[..n] == steps[..n];
      NoOverlapKeepsFull(threads, init);
      MemorySafety(threads, init);
      assert steps[..|init|] == init;
      var (t, a) := Last(steps);
      StepKeepsFull(Run(Start(threads), init), t, a);
    }
  }

  /** Commands of any number of threads that do not overlap inside the section: at rest, exactly the
      last five successes. */
  lemma {:induction false} SequentialMemory(threads: nat, steps: seq<(nat, Action)>)
    requires NoOverlap(threads, steps) && AtRest(Run(Start(threads), steps))
    ensures LastFive(Run(Start(threads), steps))
  {
    hide Count, Run, Start, NoOverlap, StateInv;
    var s := Run(Start(threads), steps);
    MemoryAtRest(threads, steps);
    MemorySafety(threads, steps);
    NoOverlapKeepsFull(threads, steps);
    CountZero(s.pcs, AboutToPop);
  }

  // Commands that overlap.

  lemma Extend(threads: nat, steps: seq<(nat, Action)>, t: nat, a: Action) returns (longer: seq<(nat, Action)>)
    ensures longer == steps + [(t, a)]
    ensures Run(Start(threads), longer) == Step(Run(Start(threads), steps), t, a)
  {
    longer := steps + [(t, a)];
    assert longer[..|longer| - 1] == steps;
  }

  const PLAIN_REPLY := Fields(None, None, None, None, None)

  /** Thread 0 alone remembers n commands. */
  lemma {:induction false} RememberAlone(threads: nat, n: nat) returns (steps: seq<(nat, Action)>)
    requires threads >= 1 && n <= 5
    ensures var s := Run(Start(threads), steps);
            && |s.memory| == |s.remembered| == n
            && s.pcs == Start(threads).pcs
  {
    if n == 0 {
      steps := [];
    } else {
      steps := RememberAlone(threads, n - 1);
      steps := Extend(threads, steps, 0, Command("", PLAIN_REPLY));
      steps := Extend(threads, steps, 0, Advance);
      steps := Extend(threads, steps, 0, Advance);
    }
  }

  /** Threads below j are at `front`, the others of the first k at `back`, all further ones idle. */
  function Pcs(threads: nat, k: nat, j: nat, front: Pc, back: Pc): seq<Pc> {
    seq(threads, i => if i < j then front else if i < k then back else Idle)
  }

  /** After 6 - k entries, the first j of k threads append one each before any of them tests. */
  lemma {:induction false} AllAppend(threads: nat, k: nat, j: nat) returns (steps: seq<(nat, Action)>)
    requires 1 <= k <= threads && k <= 6 && j <= k
    ensures var s := Run(Start(threads), steps);
            && s.pcs == Pcs(threads, k, j, Appended, Idle)
            && |s.memory| == |s.remembered| == 6 - k + j
  {
    if j == 0 {
      steps := RememberAlone(threads, 6 - k);
    } else {
      steps := AllAppend(threads, k, j - 1);
      steps := Extend(threads, steps, j - 1, Command("", PLAIN_REPLY));
      steps := Extend(threads, steps, j - 1, Advance);
    }
  }

  /** Then the first j test, and see six entries. */
  lemma {:induction false} AllTest(threads: nat, k: nat, j: nat) returns (steps: seq<(nat, Action)>)
    requires 1 <= k <= threads && k <= 6 && j <= k
    ensures var s := Run(Start(threads), steps);
            && s.pcs == Pcs(threads, k, j, Popping, Appended)
            && |s.memory| == |s.remembered| == 6
  {
    if j == 0 {
      steps := AllAppend(threads, k, k);
      assert Pcs(threads, k, k, Appended, Idle) == Pcs(threads, k, 0, Popping, Appended);
    } else {
      steps := AllTest(threads, k, j - 1);
      steps := Extend(threads, steps, j - 1, Advance);
    }
  }

  /** Then the first j pop. */
  lemma {:induction false} AllPop(threads: nat, k: nat, j: nat) returns (steps: seq<(nat, Action)>)
    requires 1 <= k <= threads && k <= 6 && j <= k
    ensures var s := Run(Start(threads), steps);
            && s.pcs == Pcs(threads, k, j, Idle, Popping)
            && |s.remembered| == 6 && |s.memory| == 6 - j
  {
    if j == 0 {
      steps := AllTest(threads, k, k);
      assert Pcs(threads, k, k, Popping, Appended) == Pcs(threads, k, 0, Idle, Popping);
    } else {
      steps := AllPop(threads, k, j - 1);
      steps := Extend(threads, steps, j - 1, Advance);
    }
  }

  /** Overlapping commands forget as much as MemoryAtRest allows: each of k threads appends, each
      sees six entries, each pops. The program's two threads can be left with four of six. */
  lemma OverlapForgets(threads: nat, k: nat) returns (steps: seq<(nat, Action)>)
    requires 1 <= k <= threads && k <= 6
    ensures var s := Run(Start(threads), steps);
            AtRest(s) && |s.remembered| == 6 && |s.memory| == 6 - k
  {
    steps := AllPop(threads, k, k);
  }

  /** The promise of the last five, exactly: every run keeps it at rest iff there is at most one thread. */
  lemma FiveExactly(threads: nat)
    ensures (forall steps :: AtRest(Run(Start(threads), steps)) ==> LastFive(Run(Start(threads), steps)))
            <==> threads <= 1
  {
    if threads <= 1 {
      forall steps | AtRest(Run(Start(threads), steps))
        ensures LastFive(Run(Start(threads), steps))
      {
        MemoryAtRest(threads, steps);
      }
    } else {
      var steps := OverlapForgets(threads, 2);
      assert AtRest(Run(Start(threads), steps));
    }
  }
}
