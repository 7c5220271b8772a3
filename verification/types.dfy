/** Vocabulary shared by the command pipeline: modes and joystick frames. */
module Types {

  datatype Option<+T> = None | Some(value: T)

  const MODE_SLEEP := 0
  const MODE_STAND := 1
  const MODE_MOVE := 4

  /** The modes that have a button of their own; any other integer is carried but never clicked. */
  predicate KnownMode(mode: int) {
    mode == MODE_SLEEP || mode == MODE_STAND || mode == MODE_MOVE
  }

  /** Largest forward, sideways and turning speeds, shared by brain, publisher and bridge. */
  const MAX_VX := 0.5
  const MAX_VY := 0.4
  const MAX_WZ := 0.8

  datatype JoyFrame = JoyFrame(priority: nat, axes: seq<real>, buttons: seq<nat>)

  /** One sample on the topic rt/experiment/joystick_data. */
  type Joy = f: JoyFrame | |f.axes| == 6 && |f.buttons| == 12
    witness JoyFrame(0, [0.0, 0.0, 0.0, 0.0, 0.0, 0.0], [0, 0, 0, 0, 0, 0, 0, 0, 0, 0, 0, 0])
}
