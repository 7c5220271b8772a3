/** The property list of JoyData_ and its double-checked, one-time construction.
    Loads and stores are sequentially consistent here. */
module TypeProps {
  import opened Types

  /** One entity of a type: nesting depth, member id, width in bytes (0 when unset), and whether a
      reader must find it. */
  datatype Prop = Prop(depth: nat, id: nat, width: nat, mustUnderstand: bool)

  const TABLE: seq<Prop> := [
    Prop(0, 0, 0, true),
    Prop(1, 0, 1, false),
    Prop(1, 1, 4, false),
    Prop(1, 2, 1, false)]

  /** The members a traversal visits, in declaration order. */
  function Members(props: seq<Prop>): seq<Prop> {
    if props == [] then []
    else Members(props[..|props| - 1])
         + if props[|props| - 1].depth == 1 then [props[|props| - 1]] else []
  }

  /** The function's static variables, used by one caller at a time. */
  class PropertyTable {
    var props: seq<Prop>
    var linked: bool
    var initialized: bool
    ghost var builds: nat

    ghost predicate Ready()
      reads this
    {
      if initialized then props == TABLE && linked && builds == 1 else builds == 0
    }

    constructor ()
      ensures Ready() && !initialized && builds == 0
    {
      props, linked, initialized, builds := [], false, false, 0;
    }

    method GetTypeProps() returns (result: seq<Prop>)
      requires Ready()
      modifies this
      ensures Ready() && initialized && result == props
      ensures result == [Prop(0, 0, 0, true), Prop(1, 0, 1, false), Prop(1, 1, 4, false), Prop(1, 2, 1, false)]
    {
      if initialized {
        return props;
      }
      props := [];
      builds := builds + 1;
      props := props + [Prop(0, 0, 0, true)];
      props := props + [Prop(1, 0, 1, false)];
      props := props + [Prop(1, 1, 4, false)];
      props := props + [Prop(1, 2, 1, false)];
      linked := true;
      initialized := true;
      return props;
    }
  }

  // Any number of callers at once.

  datatype Pc =
    | Outside
    | FirstLoad
    | Blocked          // flag was unset, wants the mutex
    | SecondLoad       // holds the mutex from here to Release
    | Clearing
    | Pushing(k: nat)
    | Finishing
    | Storing
    | Release
    | Returned

  datatype InitSys = InitSys(
    props: seq<Prop>,
    linked: bool,
    initialized: bool,
    owner: Option<nat>,
    pcs: seq<Pc>,
    builds: nat)

  function Fresh(threads: nat): InitSys {
    InitSys([], false, false, None, seq(threads, _ => Outside), 0)
  }

  /** The next atomic step of thread t, if it has one. A returned thread may call again. */
  function Step(s: InitSys, t: nat): InitSys {
    if t >= |s.pcs| then s
    else
      match s.pcs[t]
      case Outside => s.(pcs := s.pcs[t := FirstLoad])
      case FirstLoad => s.(pcs := s.pcs[t := if s.initialized then Returned else Blocked])
      case Blocked => if s.owner.None? then s.(owner := Some(t), pcs := s.pcs[t := SecondLoad]) else s
      case SecondLoad => s.(pcs := s.pcs[t := if s.initialized then Release else Clearing])
      case Clearing => s.(props := [], builds := s.builds + 1, pcs := s.pcs[t := Pushing(0)])
      case Pushing(k) =>
        if k < |TABLE|
        then s.(props := s.props + [TABLE[k]], pcs := s.pcs[t := if k + 1 < |TABLE| then Pushing(k + 1) else Finishing])
        else s
      case Finishing => s.(linked := true, pcs := s.pcs[t := Storing])
      case Storing => s.(initialized := true, pcs := s.pcs[t := Release])
      case Release => s.(owner := None, pcs := s.pcs[t := Returned])
      case Returned => s.(pcs := s.pcs[t := Outside])
  }

  function Exec(s: InitSys, schedule: seq<nat>): InitSys {
    if schedule == [] then s
    else Step(Exec(s, schedule[..|schedule| - 1]), schedule[|schedule| - 1])
  }

  predicate HoldsMutex(pc: Pc) {
    pc.SecondLoad? || Building(pc) || pc.Release?
  }

  predicate Building(pc: Pc) {
    pc.Clearing? || PastClear(pc)
  }

  predicate PastClear(pc: Pc) {
    pc.Pushing? || pc.Finishing? || pc.Storing?
  }

  /** How far a thread that is building has got. */
  ghost predicate Progress(s: InitSys, pc: Pc) {
    match pc
    case Pushing(k) => k < |TABLE| && s.props == TABLE[..k]
    case Finishing => s.props == TABLE
    case Storing => s.props == TABLE && s.linked
    case _ => true
  }

  /** The mutex has at most one holder, and its holder is in the guarded part. */
  ghost predicate MutexInv(s: InitSys) {
    && (forall t :: 0 <= t < |s.pcs| ==> (HoldsMutex(s.pcs[t]) <==> s.owner == Some(t)))
    && (s.owner.Some? ==> s.owner.value < |s.pcs|)
  }

  /** What one thread knows. */
  ghost predicate ThreadInv(s: InitSys, pc: Pc) {
    && Progress(s, pc)
    && (Building(pc) ==> !s.initialized)
    && (pc.Release? || pc.Returned? ==> s.initialized)
  }

  ghost predicate InitInv(s: InitSys) {
    && MutexInv(s)
    && (forall t :: 0 <= t < |s.pcs| ==> ThreadInv(s, s.pcs[t]))
    && (s.initialized ==> s.props == TABLE && s.linked)
    && s.builds == if s.initialized || (s.owner.Some? && PastClear(s.pcs[s.owner.value])) then 1 else 0
  }

  lemma StepKeepsMutex(s: InitSys, t: nat)
    requires MutexInv(s)
    ensures MutexInv(Step(s, t))
  {
    if t < |s.pcs| {
      OwnMutex(s, t);
      assert forall u :: 0 <= u < |s.pcs| && u != t ==> Step(s, t).pcs[u] == s.pcs[u];
    }
  }

  /** The mutex changes hands only to or from the stepping thread. */
  lemma OwnMutex(s: InitSys, t: nat)
    requires MutexInv(s) && t < |s.pcs|
    ensures var s' := Step(s, t);
            && |s'.pcs| == |s.pcs|
            && (HoldsMutex(s'.pcs[t]) <==> s'.owner == Some(t))
            && (s'.owner == s.owner || (s.owner in {None, Some(t)} && s'.owner in {None, Some(t)}))
  {}

  /** The stepping thread itself. */
  lemma StepKeepsOwn(s: InitSys, t: nat)
    requires InitInv(s) && t < |s.pcs|
    ensures ThreadInv(Step(s, t), Step(s, t).pcs[t])
  {
    hide MutexInv;
    if s.pcs[t].Pushing? {
      var k := s.pcs[t].k;
      assert TABLE[..k] + [TABLE[k]] == TABLE[..k + 1];
      assert TABLE[..|TABLE|] == TABLE;
    }
  }

  /** Every other thread u, whose knowledge the mutex protects. */
  lemma StepKeepsOther(s: InitSys, t: nat, u: nat)
    requires InitInv(s) && t < |s.pcs| && u < |s.pcs| && t != u
    ensures Step(s, t).pcs[u] == s.pcs[u]
    ensures ThreadInv(Step(s, t), s.pcs[u])
  {
    assert ThreadInv(s, s.pcs[u]);
  }

  lemma StepKeeps(s: InitSys, t: nat)
    requires InitInv(s)
    ensures InitInv(Step(s, t))
    ensures s.initialized ==> var s' := Step(s, t); s'.initialized && s'.props == s.props && s'.linked
  {
    if t < |s.pcs| {
      var s' := Step(s, t);
      StepKeepsMutex(s, t);
      forall u | 0 <= u < |s'.pcs|
        ensures ThreadInv(s', s'.pcs[u])
      {
        if t == u {
          StepKeepsOwn(s, t);
        } else {
          StepKeepsOther(s, t, u);
        }
      }
      StepKeepsBuilds(s, t);
    }
  }

  lemma StepKeepsBuilds(s: InitSys, t: nat)
    requires InitInv(s) && t < |s.pcs|
    ensures var s' := Step(s, t);
            && (s'.initialized ==> s'.props == TABLE && s'.linked)
            && (s.initialized ==> s'.initialized && s'.props == s.props && s'.linked)
            && (s'.owner.Some? ==> s'.owner.value < |s'.pcs|)
            && s'.builds == if s'.initialized || (s'.owner.Some? && PastClear(s'.pcs[s'.owner.value])) then 1 else 0
  {
    assert ThreadInv(s, s.pcs[t]);
  }

  /** Every interleaving of every number of callers: at most one build, never two threads inside the
      mutex, and whoever has returned finds the list complete and linked. */
  lemma {:induction false} BuiltOnce(threads: nat, schedule: seq<nat>)
    ensures var s := Exec(Fresh(threads), schedule);
            && InitInv(s)
            && s.builds <= 1
            && (forall t :: 0 <= t < |s.pcs| && s.pcs[t].Returned? ==> s.props == TABLE && s.linked && s.builds == 1)
            && (forall t, u :: 0 <= t < u < |s.pcs| ==> !HoldsMutex(s.pcs[t]) || !HoldsMutex(s.pcs[u]))
  {
    if schedule != [] {
      BuiltOnce(threads, schedule[..|schedule| - 1]);
      StepKeeps(Exec(Fresh(threads), schedule[..|schedule| - 1]), schedule[|schedule| - 1]);
    }
  }

  /** Once some thread has seen the flag set, nothing any thread does changes the list again. */
  lemma {:induction false} NeverChangesAgain(threads: nat, first: seq<nat>, more: seq<nat>)
    requires Exec(Fresh(threads), first).initialized
    ensures var s, s' := Exec(Fresh(threads), first), Exec(Exec(Fresh(threads), first), more);
            InitInv(s') && s'.initialized && s'.props == s.props == TABLE && s'.linked && s'.builds == 1
  {
    if more == [] {
      BuiltOnce(threads, first);
    } else {
      NeverChangesAgain(threads, first, more[..|more| - 1]);
      StepKeeps(Exec(Exec(Fresh(threads), first), more[..|more| - 1]), more[|more| - 1]);
    }
  }

  // Every call can return.

  lemma {:induction false} ExecFront(s: InitSys, t: nat, more: seq<nat>)
    ensures Exec(s, [t] + more) == Exec(Step(s, t), more)
  {
    var all := [t] + more;
    if more == [] {
      assert all[..|all| - 1] == [] && all[|all| - 1] == t;
    } else {
      assert all[..|all| - 1] == [t] + more[..|more| - 1] && all[|all| - 1] == more[|more| - 1];
      ExecFront(s, t, more[..|more| - 1]);
    }
  }

  lemma ThenRest(s: InitSys, t: nat, rest: seq<nat>) returns (more: seq<nat>)
    requires forall k :: 0 <= k < |rest| ==> rest[k] == t
    ensures Exec(s, more) == Exec(Step(s, t), rest)
    ensures forall k :: 0 <= k < |more| ==> more[k] == t
  {
    more := [t] + rest;
    ExecFront(s, t, rest);
  }

  /** How many steps of its own a thread is from returning when the mutex is free or its own. */
  function StepsLeft(pc: Pc): nat {
    match pc
    case Returned => 0
    case Release => 1
    case Storing => 2
    case Finishing => 3
    case Pushing(k) => if k < |TABLE| then 3 + |TABLE| - k else 0
    case Clearing => 4 + |TABLE|
    case SecondLoad => 5 + |TABLE|
    case Blocked => 6 + |TABLE|
    case FirstLoad => 7 + |TABLE|
    case Outside => 8 + |TABLE|
  }

  lemma StepForward(s: InitSys, t: nat)
    requires InitInv(s) && t < |s.pcs| && s.owner in {None, Some(t)} && !s.pcs[t].Returned?
    ensures var s' := Step(s, t);
            && s'.owner in {None, Some(t)} && s'.pcs == s.pcs[t := s'.pcs[t]]
            && StepsLeft(s'.pcs[t]) < StepsLeft(s.pcs[t])
  {
    assert ThreadInv(s, s.pcs[t]);
  }

  /** With the mutex free, or its own, a thread that runs alone returns. */
  lemma {:induction false} ReturnsAlone(s: InitSys, t: nat) returns (more: seq<nat>)
    requires InitInv(s) && t < |s.pcs| && s.owner in {None, Some(t)}
    ensures forall k :: 0 <= k < |more| ==> more[k] == t
    ensures InitInv(Exec(s, more)) && Exec(s, more).pcs == s.pcs[t := Returned]
    ensures Exec(s, more).owner == None
    decreases StepsLeft(s.pcs[t])
  {
    hide Step, InitInv;
    if s.pcs[t].Returned? {
      more := [];
      HoldsWhenOwner(s, t);
    } else {
      StepForward(s, t);
      StepKeeps(s, t);
      more := ReturnsAlone(Step(s, t), t);
      more := ThenRest(s, t, more);
    }
  }

  lemma HoldsWhenOwner(s: InitSys, t: nat)
    requires InitInv(s) && t < |s.pcs| && s.pcs[t].Returned?
    ensures s.owner != Some(t)
  {}

  lemma {:induction false} ExecAppend(s: InitSys, first: seq<nat>, more: seq<nat>)
    ensures Exec(s, first + more) == Exec(Exec(s, first), more)
  {
    if more == [] {
      assert first + more == first;
    } else {
      var all := first + more;
      assert all[..|all| - 1] == first + more[..|more| - 1] && all[|all| - 1] == more[|more| - 1];
      ExecAppend(s, first, more[..|more| - 1]);
    }
  }

  /** No caller is ever stuck: from every reachable state and for every thread, steps of that thread
      and of the one that holds the mutex, if any, make its call return, with the list complete, linked
      and built once. A single caller needs no steps but its own. */
  lemma {:induction false} EveryCallReturns(threads: nat, first: seq<nat>, t: nat) returns (more: seq<nat>)
    requires t < threads
    ensures var s, s' := Exec(Fresh(threads), first), Exec(Exec(Fresh(threads), first), more);
            && (forall k :: 0 <= k < |more| ==> more[k] == t || s.owner == Some(more[k]))
            && t < |s'.pcs| && s'.pcs[t].Returned?
            && s'.props == TABLE && s'.linked && s'.initialized && s'.builds == 1
  {
    var s := Exec(Fresh(threads), first);
    BuiltOnce(threads, first);
    SameThreads(threads, first);
    var clear: seq<nat> := [];
    if s.owner.Some? {
      clear := ReturnsAlone(s, s.owner.value);
    }
    var s1 := Exec(s, clear);
    var last := ReturnsAlone(s1, t);
    more := clear + last;
    ExecAppend(s, clear, last);
    assert ThreadInv(Exec(s, more), Exec(s, more).pcs[t]);
  }

  lemma {:induction false} SameThreads(threads: nat, schedule: seq<nat>)
    ensures |Exec(Fresh(threads), schedule).pcs| == threads
  {
    if schedule != [] {
      SameThreads(threads, schedule[..|schedule| - 1]);
    }
  }

  /** The fast path: once the list is there, a call returns after one look at the flag, whoever holds
      the mutex. */
  lemma FastPath(s: InitSys, t: nat)
    requires s.initialized && t < |s.pcs| && s.pcs[t].Outside?
    ensures Exec(s, [t, t]) == s.(pcs := s.pcs[t := Returned])
  {
    assert [t, t][..1] == [t] && [t][..0] == [];
    assert Exec(s, [t]) == Step(s, t);
  }

  /** A thread that returned can call again and again, and changes nothing by it. */
  lemma CallAgain(s: InitSys, t: nat)
    requires s.initialized && t < |s.pcs| && s.pcs[t].Returned?
    ensures Exec(s, [t]) == s.(pcs := s.pcs[t := Outside])
    ensures Exec(s, [t, t, t]) == s
  {
    assert [t, t, t] == [t] + [t, t] && [t][..0] == [];
    ExecFront(s, t, [t, t]);
    FastPath(Step(s, t), t);
    assert s.pcs[t := Returned] == s.pcs;
  }
}
