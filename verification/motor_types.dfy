/** The run mode and the turning direction shared by every command strategy. */
module MotorTypes {
  import opened Options

  /** How a run is bounded: by a rotation count or by a duration in seconds. */
  datatype MotorMode = ROTATION | TIME

  datatype MotorDirection = CW | CCW

  /** The direction omitted from a buildCommand call. */
  const DefaultDirection: MotorDirection := CW

  /** The underlying integer of a MotorMode enumerator, in declaration order. */
  function ModeValue(m: MotorMode): int
  {
    match m
    case ROTATION => 0
    case TIME => 1
  }

  /** The DIR field's text. */
  function DirText(d: MotorDirection): (r: string)
    ensures r == "CW" || r == "CCW"
    ensures r == "CW" <==> d == CW
  {
    if d == CW then "CW" else "CCW"
  }

  /** Reads a DIR field back; only the two spellings DirText writes are accepted. */
  function ParseDir(s: string): (r: Option<MotorDirection>)
    ensures r.Some? ==> DirText(r.value) == s
  {
    if s == "CW" then Some(CW)
    else if s == "CCW" then Some(CCW)
    else None
  }

  lemma DirRoundTrip(d: MotorDirection)
    ensures ParseDir(DirText(d)) == Some(d)
  {
  }
}
