/**
 The two command strategies, RotationCommand and TimeCommand. Each checks an
 (rpm, target) pair and formats it as one wire line
 `RPM:<rpm> <TAG>:<target> DIR:<CW|CCW>`, the tag being ROT or TIME.
 */
module MotorCommands {
  import opened Options
  import opened MotorTypes
  import opened Decimal
  import QtText

  /** A stateless strategy: the closed set of IMotorCommand implementations. */
  datatype Strategy = RotationCommand | TimeCommand

  /** The run mode a strategy serves. */
  function ModeOf(s: Strategy): MotorMode
  {
    match s
    case RotationCommand => ROTATION
    case TimeCommand => TIME
  }

  /** What the device reads out of a run command. */
  datatype WireCommand = WireCommand(mode: MotorMode, rpm: int, value: int, dir: MotorDirection)

  function ModeTag(m: MotorMode): string
  {
    match m
    case ROTATION => "ROT"
    case TIME => "TIME"
  }

  function ParseTag(t: string): (r: Option<MotorMode>)
    ensures r.Some? ==> ModeTag(r.value) == t
    ensures forall m :: t == ModeTag(m) ==> r == Some(m)
  {
    if t == "ROT" then Some(ROTATION)
    else if t == "TIME" then Some(TIME)
    else None
  }

  /** One `NAME:text` field of a command line. */
  datatype TaggedField = TaggedField(name: string, text: string)

  /** Splits a `NAME:text` field at its only colon. */
  function Field(f: string): Option<TaggedField>
  {
    var halves := QtText.Split(f, ':');
    if |halves| == 2 then Some(TaggedField(halves[0], halves[1])) else None
  }

  /** The inverse of Render: three space-separated
      fields `RPM:n`, `ROT:n` or `TIME:n`, and `DIR:CW` or `DIR:CCW`, the
      numbers in QString::arg's decimal form. */
  function ParseCommand(s: string): Option<WireCommand>
  {
    var fields := QtText.Split(s, ' ');
    if |fields| != 3 then None
    else
      var f0 := Field(fields[0]);
      var f1 := Field(fields[1]);
      var f2 := Field(fields[2]);
      if f0.None? || f1.None? || f2.None? then None
      else if f0.value.name != "RPM" || f2.value.name != "DIR" then None
      else
        var rpm := ParseDec(f0.value.text);
        var mode := ParseTag(f1.value.name);
        var value := ParseDec(f1.value.text);
        var dir := ParseDir(f2.value.text);
        if rpm.Some? && mode.Some? && value.Some? && dir.Some? then
          Some(WireCommand(mode.value, rpm.value, value.value, dir.value))
        else None
  }

  /** The shared shape of both strategies' output. */
  function Render(w: WireCommand): string
  {
    "RPM:" + Dec(w.rpm) + " " + ModeTag(w.mode) + ":" + Dec(w.value) + " DIR:" + DirText(w.dir)
  }

  /** The three space-separated fields of a rendered command. */
  function FieldTexts(w: WireCommand): seq<string>
  {
    ["RPM:" + Dec(w.rpm), ModeTag(w.mode) + ":" + Dec(w.value), "DIR:" + DirText(w.dir)]
  }

  lemma DecHasNoSeparator(n: int)
    ensures ' ' !in Dec(n) && ':' !in Dec(n)
  {
  }

  lemma RenderIsJoin(w: WireCommand)
    ensures Render(w) == QtText.Join(FieldTexts(w), ' ')
  {
    var f := FieldTexts(w);
    assert f[1..][1..] == [f[2]];
    assert QtText.Join(f[1..], ' ') == f[1] + [' '] + f[2];
    assert " DIR:" == [' '] + "DIR:";
  }

  lemma FieldOf(t: string, v: string)
    requires ':' !in t && ':' !in v
    ensures Field(t + ":" + v) == Some(TaggedField(t, v))
  {
    QtText.SplitCons(t, ':', v);
    QtText.SplitWithoutSep(v, ':');
  }

  /** A rendered command splits on spaces into its three fields. */
  lemma RenderFields(w: WireCommand)
    ensures QtText.Split(Render(w), ' ') == FieldTexts(w)
  {
    var f := FieldTexts(w);
    DecHasNoSeparator(w.rpm);
    DecHasNoSeparator(w.value);
    assert ' ' !in f[0] && ' ' !in f[1] && ' ' !in f[2];
    RenderIsJoin(w);
    QtText.SplitJoin(f, ' ');
  }

  /** Each field of a rendered command splits at its colon into name and value. */
  lemma FieldTextsSplit(w: WireCommand)
    ensures Field(FieldTexts(w)[0]) == Some(TaggedField("RPM", Dec(w.rpm)))
    ensures Field(FieldTexts(w)[1]) == Some(TaggedField(ModeTag(w.mode), Dec(w.value)))
    ensures Field(FieldTexts(w)[2]) == Some(TaggedField("DIR", DirText(w.dir)))
  {
    DecHasNoSeparator(w.rpm);
    DecHasNoSeparator(w.value);
    FieldOf("RPM", Dec(w.rpm));
    FieldOf(ModeTag(w.mode), Dec(w.value));
    FieldOf("DIR", DirText(w.dir));
    assert "RPM:" + Dec(w.rpm) == "RPM" + ":" + Dec(w.rpm);
    assert "DIR:" + DirText(w.dir) == "DIR" + ":" + DirText(w.dir);
  }

  /** Every rendered command parses back to the values it was built from. */
  lemma RenderRoundTrip(w: WireCommand)
    ensures ParseCommand(Render(w)) == Some(w)
  {
    RenderFields(w);
    FieldTextsSplit(w);
    DecRoundTrip(w.rpm);
    DecRoundTrip(w.value);
    DirRoundTrip(w.dir);
    assert ParseTag(ModeTag(w.mode)) == Some(w.mode);
  }

  /** A field that splits into a name and a text is the two joined by a colon. */
  lemma FieldJoin(f: string)
    requires Field(f).Some?
    ensures f == Field(f).value.name + ":" + Field(f).value.text
  {
    var halves := QtText.Split(f, ':');
    assert QtText.Join(halves[1..], ':') == halves[1];
    assert QtText.Join(halves, ':') == halves[0] + [':'] + halves[1];
  }

  /** The parser accepts nothing but rendered commands. */
  lemma ParseOnlyRendered(s: string, w: WireCommand)
    requires ParseCommand(s) == Some(w)
    ensures s == Render(w)
  {
    var fields := QtText.Split(s, ' ');
    var f0 := Field(fields[0]).value;
    var f1 := Field(fields[1]).value;
    var f2 := Field(fields[2]).value;
    FieldJoin(fields[0]);
    FieldJoin(fields[1]);
    FieldJoin(fields[2]);
    ParseDecOnlyDec(f0.text, w.rpm);
    ParseDecOnlyDec(f1.text, w.value);
    assert fields[0] == "RPM:" + Dec(w.rpm) by {
      assert "RPM" + ":" + f0.text == "RPM:" + f0.text;
    }
    assert fields[1] == ModeTag(w.mode) + ":" + Dec(w.value);
    assert fields[2] == "DIR:" + DirText(w.dir) by {
      assert "DIR" + ":" + f2.text == "DIR:" + f2.text;
    }
    assert fields == FieldTexts(w);
    RenderIsJoin(w);
  }

  /** RotationCommand::buildCommand: no validation, any ints are formatted. */
  function BuildRotation(rpm: int, rotations: int, dir: MotorDirection := DefaultDirection): (r: string)
    ensures ParseCommand(r) == Some(WireCommand(ROTATION, rpm, rotations, dir))
  {
    var w := WireCommand(ROTATION, rpm, rotations, dir);
    RenderRoundTrip(w);
    Render(w)
  }

  /** TimeCommand::buildCommand: no validation, any ints are formatted. */
  function BuildTime(rpm: int, duration: int, dir: MotorDirection := DefaultDirection): (r: string)
    ensures ParseCommand(r) == Some(WireCommand(TIME, rpm, duration, dir))
  {
    var w := WireCommand(TIME, rpm, duration, dir);
    RenderRoundTrip(w);
    Render(w)
  }

  /** IMotorCommand::buildCommand, dispatched on the strategy. */
  function BuildCommand(s: Strategy, rpm: int, value: int, dir: MotorDirection := DefaultDirection): (r: string)
    ensures ParseCommand(r) == Some(WireCommand(ModeOf(s), rpm, value, dir))
  {
    match s
    case RotationCommand => BuildRotation(rpm, value, dir)
    case TimeCommand => BuildTime(rpm, value, dir)
  }

  /** The rotation strategy accepts a pair exactly when both numbers are positive. */
  function IsValidRotation(rpm: int, rotations: int): bool
  {
    rpm > 0 && rotations > 0
  }

  /** The time strategy accepts a pair exactly when both numbers are positive;
      a zero duration is rejected. */
  function IsValidTime(rpm: int, duration: int): bool
  {
    rpm > 0 && duration > 0
  }

  /** IMotorCommand::isValidInput, dispatched on the strategy. */
  function IsValidInput(s: Strategy, rpm: int, value: int): (ok: bool)
    ensures ok <==> rpm > 0 && value > 0
  {
    match s
    case RotationCommand => IsValidRotation(rpm, value)
    case TimeCommand => IsValidTime(rpm, value)
  }

  /** IMotorCommand::getValueLabel: the unit of the target value shown to the operator. */
  function ValueLabel(s: Strategy): (unit: string)
    ensures s == RotationCommand ==> unit == "회전수"
    ensures s == TimeCommand ==> unit == "시간(초)"
  {
    match s
    case RotationCommand => "회전수"
    case TimeCommand => "시간(초)"
  }

  /** A command determines its strategy and all three values: two different
      requests never produce the same wire text. */
  lemma BuildInjective(s1: Strategy, rpm1: int, v1: int, d1: MotorDirection,
                       s2: Strategy, rpm2: int, v2: int, d2: MotorDirection)
    requires BuildCommand(s1, rpm1, v1, d1) == BuildCommand(s2, rpm2, v2, d2)
    ensures s1 == s2 && rpm1 == rpm2 && v1 == v2 && d1 == d2
  {
    assert ModeOf(s1) == ModeOf(s2);
  }

  /** A time command carries the TIME tag, never ROT, so it differs from every
      rotation command. */
  lemma TimeIsNeverRotation(rpm: int, duration: int, d: MotorDirection,
                            rpm2: int, rotations: int, d2: MotorDirection)
    ensures ModeTag(ParseCommand(BuildTime(rpm, duration, d)).value.mode) == "TIME"
    ensures BuildTime(rpm, duration, d) != BuildRotation(rpm2, rotations, d2)
  {
  }

  /** Both strategies write the shared shape, tagged with their own mode. */
  lemma BuildIsRender(s: Strategy, rpm: int, value: int, dir: MotorDirection)
    ensures BuildCommand(s, rpm, value, dir) == Render(WireCommand(ModeOf(s), rpm, value, dir))
  {
  }

  lemma RenderRotationExample()
    ensures Render(WireCommand(ROTATION, 100, 5, CW)) == "RPM:100 ROT:5 DIR:CW"
  {
    DecSmallExamples();
  }

  lemma RenderTimeExample()
    ensures Render(WireCommand(TIME, 200, 90, CCW)) == "RPM:200 TIME:90 DIR:CCW"
  {
    DecSmallExamples();
  }

  /** Worked examples: 100 rpm for 5 rotations clockwise (the default
      direction), and 200 rpm for 90 seconds counter-clockwise. */
  lemma BuildExamples()
    ensures BuildRotation(100, 5) == "RPM:100 ROT:5 DIR:CW"
    ensures BuildTime(200, 90, CCW) == "RPM:200 TIME:90 DIR:CCW"
  {
    BuildIsRender(RotationCommand, 100, 5, CW);
    BuildIsRender(TimeCommand, 200, 90, CCW);
    RenderRotationExample();
    RenderTimeExample();
  }
}
