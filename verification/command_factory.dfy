/** MotorCommandFactory::createCommand: the run mode's strategy. */
module CommandFactory {
  import opened MotorTypes
  import opened MotorCommands

  /** The switch over the enum's underlying value: 0 (ROTATION) and 1 (TIME)
      have their own strategy, and any other value falls back to rotation. */
  function CreateCommandFor(raw: int): (s: Strategy)
    ensures raw == ModeValue(TIME) <==> s == TimeCommand
    ensures raw != ModeValue(TIME) ==> s == RotationCommand
  {
    if raw == ModeValue(ROTATION) then RotationCommand
    else if raw == ModeValue(TIME) then TimeCommand
    else RotationCommand
  }

  /** The factory always yields a strategy, and it is the one serving the mode. */
  function CreateCommand(mode: MotorMode): (s: Strategy)
    ensures ModeOf(s) == mode
  {
    CreateCommandFor(ModeValue(mode))
  }

  /** Commands built by the factory's strategy carry the mode's tag: ROT for
      ROTATION and TIME for TIME. */
  lemma FactoryTag(mode: MotorMode, rpm: int, value: int, dir: MotorDirection)
    ensures ParseCommand(BuildCommand(CreateCommand(mode), rpm, value, dir))
              == Options.Some(WireCommand(mode, rpm, value, dir))
    ensures mode == ROTATION ==> ModeTag(ParseCommand(BuildCommand(CreateCommand(mode), rpm, value, dir)).value.mode) == "ROT"
    ensures mode == TIME ==> ModeTag(ParseCommand(BuildCommand(CreateCommand(mode), rpm, value, dir)).value.mode) == "TIME"
  {
  }
}
