/**
 MotorControl: the session holding the installed command strategy and the
 controller's readiness flag. The strategy slot may be empty, as a moved-from
 or null unique_ptr would be.
 */
module Session {
  import opened Options
  import opened MotorTypes
  import MotorCommands

  datatype MotorControl = MotorControl(strategy: Option<MotorCommands.Strategy>, isReady: bool)

  /** The readiness token, matched exactly and case-sensitively. */
  const ReadyToken: string := "READY"

  /** A new session holds the rotation strategy and is not ready. */
  function Init(): (mc: MotorControl)
    ensures mc.strategy.Some? && MotorCommands.ModeOf(mc.strategy.value) == ROTATION
    ensures !mc.isReady
  {
    MotorControl(Some(MotorCommands.RotationCommand), false)
  }

  /** Replaces the strategy wholesale; the readiness flag is kept. */
  function SetCommandStrategy(mc: MotorControl, s: Option<MotorCommands.Strategy>): (r: MotorControl)
    ensures r.strategy == s
    ensures r.isReady == mc.isReady
  {
    mc.(strategy := s)
  }

  /** Delegates to the installed strategy; the empty text when none is installed. */
  function BuildCommand(mc: MotorControl, rpm: int, value: int, dir: MotorDirection := DefaultDirection): (r: string)
    ensures mc.strategy.None? ==> r == ""
    ensures mc.strategy.Some? ==>
      MotorCommands.ParseCommand(r) == Some(MotorCommands.WireCommand(MotorCommands.ModeOf(mc.strategy.value), rpm, value, dir))
  {
    if mc.strategy.None? then ""
    else MotorCommands.BuildCommand(mc.strategy.value, rpm, value, dir)
  }

  /** Delegates to the installed strategy; false when none is installed. */
  function IsValidInput(mc: MotorControl, rpm: int, value: int): (ok: bool)
    ensures ok <==> mc.strategy.Some? && rpm > 0 && value > 0
  {
    if mc.strategy.None? then false
    else MotorCommands.IsValidInput(mc.strategy.value, rpm, value)
  }

  /** The result of classifying one inbound line. */
  datatype Response = Response(next: MotorControl, ready: bool)

  /** True exactly for the line READY, which also marks the session ready;
      any other line changes nothing. */
  function ProcessResponse(mc: MotorControl, message: string): (r: Response)
    ensures r.ready <==> message == ReadyToken
    ensures r.ready ==> r.next.isReady
    ensures r.next.strategy == mc.strategy
    ensures !r.ready ==> r.next == mc
  {
    if message == ReadyToken then Response(mc.(isReady := true), true)
    else Response(mc, false)
  }

  /** Clears readiness; the installed strategy stays. */
  function Reset(mc: MotorControl): (r: MotorControl)
    ensures !r.isReady
    ensures r.strategy == mc.strategy
  {
    mc.(isReady := false)
  }

  /** After installing a strategy, building and checking follow that strategy
      and nothing of the previous one. */
  lemma AfterSetAgreesWithNew(mc: MotorControl, s: MotorCommands.Strategy, rpm: int, value: int, dir: MotorDirection)
    ensures BuildCommand(SetCommandStrategy(mc, Some(s)), rpm, value, dir) == MotorCommands.BuildCommand(s, rpm, value, dir)
    ensures IsValidInput(SetCommandStrategy(mc, Some(s)), rpm, value) == MotorCommands.IsValidInput(s, rpm, value)
  {
  }

  /** READY is idempotent: a second READY answers true again and the session stays ready. */
  lemma ReadyIdempotent(mc: MotorControl)
    ensures ProcessResponse(ProcessResponse(mc, ReadyToken).next, ReadyToken)
              == ProcessResponse(mc, ReadyToken)
  {
  }

  /** Classifies lines in order, collecting each answer. */
  function ProcessAll(mc: MotorControl, lines: seq<string>): (r: (MotorControl, seq<bool>))
    ensures |r.1| == |lines|
    ensures r.0.strategy == mc.strategy
    decreases |lines|
  {
    if |lines| == 0 then (mc, [])
    else
      var first := ProcessResponse(mc, lines[0]);
      var rest := ProcessAll(first.next, lines[1..]);
      (rest.0, [first.ready] + rest.1)
  }

  /** Over a sequence of lines, exactly the READY lines answer true, and the
      session ends ready iff it was ready or some line was READY. */
  lemma {:induction false} ProcessAllAnswers(mc: MotorControl, lines: seq<string>)
    ensures forall i :: 0 <= i < |lines| ==> (ProcessAll(mc, lines).1[i] <==> lines[i] == ReadyToken)
    ensures ProcessAll(mc, lines).0.isReady <==> mc.isReady || ReadyToken in lines
    decreases |lines|
  {
    if |lines| > 0 {
      var first := ProcessResponse(mc, lines[0]);
      ProcessAllAnswers(first.next, lines[1..]);
      assert lines == [lines[0]] + lines[1..];
      assert ReadyToken in lines <==> lines[0] == ReadyToken || ReadyToken in lines[1..];
    }
  }

  /** The session's own scenario: a new session accepts (100, 5) and writes
      the rotation command for it. */
  lemma FreshSessionScenario()
    ensures IsValidInput(Init(), 100, 5)
    ensures BuildCommand(Init(), 100, 5) == "RPM:100 ROT:5 DIR:CW"
    ensures !IsValidInput(Init(), 100, 0)
  {
    MotorCommands.BuildExamples();
  }

  /** After switching to the time strategy, a zero duration is refused and
      (200, 90, CCW) is written as a TIME command. */
  lemma TimeStrategyScenario(mc: MotorControl)
    ensures !IsValidInput(SetCommandStrategy(mc, Some(MotorCommands.TimeCommand)), 200, 0)
    ensures IsValidInput(SetCommandStrategy(mc, Some(MotorCommands.TimeCommand)), 200, 90)
    ensures BuildCommand(SetCommandStrategy(mc, Some(MotorCommands.TimeCommand)), 200, 90, CCW)
              == "RPM:200 TIME:90 DIR:CCW"
  {
    var timed := SetCommandStrategy(mc, Some(MotorCommands.TimeCommand));
    assert BuildCommand(timed, 200, 90, CCW) == MotorCommands.BuildTime(200, 90, CCW);
    MotorCommands.BuildExamples();
  }

  /** Lines classified in order: an echo, READY, then a load report. Only the
      second answers true; the session is ready from then on. Near misses of
      the token (other case, a trailing blank) are refused. */
  lemma HandshakeScenario(mc: MotorControl)
    requires !mc.isReady
    ensures ProcessAll(mc, ["HELLO_ECHO", "READY", "LOAD:42.5%"]).1 == [false, true, false]
    ensures ProcessAll(mc, ["HELLO_ECHO", "READY", "LOAD:42.5%"]).0.isReady
    ensures !ProcessAll(mc, ["HELLO_ECHO"]).0.isReady
    ensures !ProcessResponse(mc, "ready").ready && !ProcessResponse(mc, "READY ").ready
  {
    var lines := ["HELLO_ECHO", "READY", "LOAD:42.5%"];
    ProcessAllAnswers(mc, lines);
    ProcessAllAnswers(mc, ["HELLO_ECHO"]);
    assert lines[1] == ReadyToken && lines[0] != ReadyToken && lines[2] != ReadyToken;
    assert ["HELLO_ECHO"][0] != ReadyToken;
  }
}
