/** The command processor: validated replies replace the robot state, failures make it safe. */
module Brain {
  import opened Types

  datatype RobotState = RobotState(mode: int, modeName: string, x: real, y: real, yaw: real, speed: string)

  /** What came back for a command: nothing usable (an exception, an empty or unparsable answer),
      or the fields of a parsed object, some of which may be absent. */
  datatype Reply =
    | Failed
    | Fields(mode: Option<int>, x: Option<real>, y: Option<real>, yaw: Option<real>, speed: Option<string>)

  datatype Entry = Entry(text: string, state: RobotState)

  const MEMORY_SIZE := 5

  function GetOr<T>(o: Option<T>, default: T): T {
    match o
    case Some(v) => v
    case None => default
  }

  function ModeLabel(mode: int): string {
    if mode == MODE_SLEEP then "sleep"
    else if mode == MODE_STAND then "stand"
    else if mode == MODE_MOVE then "move"
    else "unknown"
  }

  const INITIAL_STATE := RobotState(MODE_SLEEP, "sleep", 0.0, 0.0, 0.0, "slow")
  const SAFE_STATE := RobotState(MODE_STAND, "stand", 0.0, 0.0, 0.0, "slow")

  /** The fields' declared ranges; absent fields take their defaults. */
  function Validate(reply: Reply): Option<RobotState> {
    match reply
    case Failed => None
    case Fields(m, ox, oy, oyaw, os) =>
      var mode := GetOr(m, MODE_STAND);
      var x, y, yaw := GetOr(ox, 0.0), GetOr(oy, 0.0), GetOr(oyaw, 0.0);
      if -MAX_VX <= x <= MAX_VX && -MAX_VY <= y <= MAX_VY && -MAX_WZ <= yaw <= MAX_WZ
      then Some(RobotState(mode, ModeLabel(mode), x, y, yaw, GetOr(os, "slow")))
      else None
  }

  /** The state a command installs, whatever became of it. */
  function Installed(reply: Reply): RobotState {
    GetOr(Validate(reply), SAFE_STATE)
  }

  /** Every state the brain can hold: speeds in range and a name that belongs to the mode. */
  ghost predicate Sound(s: RobotState) {
    && -0.5 <= s.x <= 0.5
    && -0.4 <= s.y <= 0.4
    && -0.8 <= s.yaw <= 0.8
    && (s.mode == 0 ==> s.modeName == "sleep")
    && (s.mode == 1 ==> s.modeName == "stand")
    && (s.mode == 4 ==> s.modeName == "move")
    && (s.mode !in {0, 1, 4} ==> s.modeName == "unknown")
  }

  /** A reply validates to a state iff the state is sound and the reply's fields, read with the
      defaults, are its own; so every sound state is what its own fields validate to. */
  lemma ValidateExactly(reply: Reply, s: RobotState)
    ensures Validate(reply) == Some(s) <==>
            && Sound(s) && reply.Fields?
            && reply.mode in {Some(s.mode)} + (if s.mode == 1 then {None} else {})
            && reply.x in {Some(s.x)} + (if s.x == 0.0 then {None} else {})
            && reply.y in {Some(s.y)} + (if s.y == 0.0 then {None} else {})
            && reply.yaw in {Some(s.yaw)} + (if s.yaw == 0.0 then {None} else {})
            && reply.speed in {Some(s.speed)} + (if s.speed == "slow" then {None} else {})
  {}

  /** The reply that validates to a given sound state. */
  function ReplyFor(s: RobotState): Reply {
    Fields(Some(s.mode), Some(s.x), Some(s.y), Some(s.yaw), Some(s.speed))
  }

  function Last<T>(s: seq<T>): T
    requires s != []
  {
    s[|s| - 1]
  }

  function LastN<T>(s: seq<T>, n: nat): seq<T> {
    if |s| <= n then s else s[|s| - n..]
  }

  lemma LastNElements<T>(s: seq<T>, n: nat)
    ensures var r := LastN(s, n);
            && |r| == (if |s| < n then |s| else n)
            && forall i :: 0 <= i < |r| ==> r[i] == s[|s| - |r| + i]
  {}

  lemma ValidateSound(reply: Reply)
    ensures Validate(reply).Some? ==> Sound(Validate(reply).value)
    ensures Sound(SAFE_STATE)
  {}

  /** Append, then drop the oldest entry when over the limit: the list stays the newest n. */
  lemma LastNAppend<T>(s: seq<T>, x: T, n: nat)
    ensures var grown := LastN(s, n) + [x];
            LastN(s + [x], n) == if |grown| > n then grown[1..] else grown
  {}

  /** The module's globals, driven by commands that do not overlap. */
  class CommandBrain {
    var current: RobotState
    var memory: seq<Entry>
    ghost var installed: seq<RobotState>
    ghost var succeeded: seq<Entry>

    ghost predicate Valid()
      reads this
    {
      && installed != []
      && current == Last(installed)
      && (forall i :: 0 <= i < |installed| ==> Sound(installed[i]))
      && memory == LastN(succeeded, MEMORY_SIZE)
    }

    constructor ()
      ensures Valid()
      ensures installed == [RobotState(0, "sleep", 0.0, 0.0, 0.0, "slow")] && succeeded == [] && memory == []
    {
      current := INITIAL_STATE;
      memory := [];
      installed := [INITIAL_STATE];
      succeeded := [];
    }

    /** process_text_command: swap the state, then remember the command, or fall back to safe stand. */
    method ProcessTextCommand(text: string, reply: Reply) returns (success: bool)
      requires Valid()
      modifies this
      ensures Valid()
      ensures success == Validate(reply).Some?
      ensures success ==> current == Validate(reply).value
      ensures !success ==> current == RobotState(1, "stand", 0.0, 0.0, 0.0, "slow")
      ensures installed == old(installed) + [current]
      ensures succeeded == old(succeeded) + if success then [Entry(text, current)] else []
      ensures |memory| == if |succeeded| < 5 then |succeeded| else 5
      ensures forall i :: 0 <= i < |memory| ==> memory[i] == succeeded[|succeeded| - |memory| + i]
      ensures !success ==> memory == old(memory)
    {
      hide Validate, LastN, Sound;
      ValidateSound(reply);
      match Validate(reply) {
        case Some(newState) =>
          current := newState;
          installed := installed + [newState];
          memory := memory + [Entry(text, newState)];
          LastNAppend(succeeded, Entry(text, newState), MEMORY_SIZE);
          succeeded := succeeded + [Entry(text, newState)];
          if |memory| > MEMORY_SIZE {
            memory := memory[1..];
          }
          success := true;
        case None =>
          current := SAFE_STATE;
          installed := installed + [SAFE_STATE];
          success := false;
      }
      LastNElements(succeeded, MEMORY_SIZE);
    }
  }
}
