/**
 The run-state machine of MainWindow, reduced to its flags and counters.

 Each handler is a transition on a RunState record. What the window asks the
 serial link to send is appended to `sent` (the link drops it when the port is
 closed). The operator's Ok/Cancel on a modal dialog, the wall clock, and the
 double parser behind QString::toDouble are parameters.
 */
module RunController {
  import opened Options
  import opened MotorTypes
  import opened QtText
  import opened Inbound
  import Decimal
  import MotorCommands
  import CommandFactory
  import Session
  import RunArith
  import LoadGraph

  datatype RunState = RunState(
    mode: MotorMode,
    control: Session.MotorControl,
    getPressed: bool,
    confirmed: bool,
    confirmedSpeed: int,
    confirmedValue: int,
    running: bool,
    paused: bool,
    totalSeconds: int,
    elapsedSeconds: int,
    currentRotations: int,
    targetRotations: int,
    motorLoad: real,
    graphStart: int,
    completionShown: bool,
    timerActive: bool,
    graph: LoadGraph.Graph,
    sent: seq<string>)

  /** The run counters agree: total and elapsed seconds, current and target rotations. */
  predicate SameCounters(a: RunState, b: RunState) {
    && a.totalSeconds == b.totalSeconds && a.elapsedSeconds == b.elapsedSeconds
    && a.currentRotations == b.currentRotations && a.targetRotations == b.targetRotations
  }

  /** The values on the settings widgets when a button reads them. */
  datatype Form = Form(speed: int, rotations: int, hours: int, minutes: int, seconds: int)

  /** The handlers of the window, one event each. A dialog raised while an
      event is handled is answered with that event's `ok`. */
  datatype Event =
    | GetPressed
    | SetPressed(form: Form)
    | FieldEdited
    | GoPressed(dir: MotorDirection, now: int)
    | TimerTick(ok: bool)
    | StopPressed
    | ReloadPressed
    | ClosePressed(ok: bool)
    | ModeToggled(mode: MotorMode, checked: bool)
    | DisconnectPressed(portOpen: bool)
    | Received(data: string, now: int, ok: bool)

  /** The invariant every handler keeps: the installed strategy is the
      factory's for the current mode, the elapsed counter stays within the
      total, the motor is never running and paused at once, and the graph
      buffer is in shape. */
  predicate Valid(st: RunState) {
    && st.control.strategy == Some(CommandFactory.CreateCommand(st.mode))
    && 0 <= st.elapsedSeconds <= st.totalSeconds
    && !(st.running && st.paused)
    && LoadGraph.Bounded(st.graph)
  }

  /** The window as constructed. The confirmed speed and value are not
      initialised by the constructor, so they are whatever the caller passes. */
  function Init(anySpeed: int, anyValue: int): (st: RunState)
    ensures Valid(st)
    ensures st.mode == ROTATION && !st.control.isReady
    ensures !st.getPressed && !st.confirmed && !st.running && !st.paused
    ensures st.sent == [] && st.graph.times == []
  {
    RunState(ROTATION, Session.SetCommandStrategy(Session.Init(), Some(CommandFactory.CreateCommand(ROTATION))),
      false, false, anySpeed, anyValue, false, false, 0, 0, 0, 0, 0.0, 0, false, false,
      LoadGraph.NewGraph(true), [])
  }

  /** The clamp updateTimeProgressDisplay writes back to the elapsed counter
      whenever the time display is refreshed in TIME mode. */
  function Refresh(st: RunState): (r: RunState)
    ensures r.mode == TIME && st.totalSeconds >= 0 ==> 0 <= r.elapsedSeconds <= r.totalSeconds
    ensures r == st.(elapsedSeconds := r.elapsedSeconds)
  {
    if st.mode == TIME then st.(elapsedSeconds := RunArith.ClampElapsed(st.totalSeconds, st.elapsedSeconds))
    else st
  }

  lemma RefreshIsNoop(st: RunState)
    requires Valid(st)
    ensures Refresh(st) == st
  {
  }

  // ---------- settings: GET, SET, edits, mode ----------

  /** GET: the settings are read (only for the log); SET becomes possible
      and any earlier confirmation is withdrawn. */
  function Get(st: RunState): (r: RunState)
    ensures Valid(st) ==> Valid(r)
    ensures r.getPressed && !r.confirmed
    ensures r == st.(getPressed := true, confirmed := false)
  {
    st.(confirmed := false, getPressed := true)
  }

  /** getTotalSeconds over the three combo boxes. */
  function FormSeconds(f: Form): (n: int)
    ensures IsClockForm(f) ==> 0 <= n < 86400 && RunArith.SplitHms(n) == RunArith.Hms(f.hours, f.minutes, f.seconds)
  {
    var n := RunArith.TotalSeconds(f.hours, f.minutes, f.seconds);
    assert IsClockForm(f) ==> 0 <= n < 86400 && RunArith.SplitHms(n) == RunArith.Hms(f.hours, f.minutes, f.seconds) by {
      if IsClockForm(f) { RunArith.TimeFieldsRange(f.hours, f.minutes, f.seconds); }
    }
    n
  }

  /** The combo boxes offer 0..23 hours and 0..59 minutes and seconds. */
  predicate IsClockForm(f: Form) {
    0 <= f.hours < 24 && 0 <= f.minutes < 60 && 0 <= f.seconds < 60
  }

  /** SET: refused unless GET was pressed since the last change; otherwise the
      speed and the mode's target are confirmed. */
  function Set(st: RunState, f: Form): (r: RunState)
    ensures Valid(st) ==> Valid(r)
    ensures !st.getPressed ==> r == st
    ensures st.getPressed ==> r.confirmed && r.confirmedSpeed == f.speed
    ensures st.getPressed && st.mode == ROTATION ==> r.confirmedValue == f.rotations
    ensures st.getPressed && st.mode == TIME && IsClockForm(f) ==>
      && 0 <= r.confirmedValue < 86400
      && RunArith.SplitHms(r.confirmedValue) == RunArith.Hms(f.hours, f.minutes, f.seconds)
    ensures r.running == st.running && r.paused == st.paused && r.sent == st.sent
  {
    if !st.getPressed then st
    else
      var value := if st.mode == ROTATION then f.rotations else FormSeconds(f);
      st.(confirmedSpeed := f.speed, confirmedValue := value, confirmed := true)
  }

  /** Any edit of speed, rotations, hours, minutes or seconds: GET must be pressed again. */
  function Edit(st: RunState): (r: RunState)
    ensures Valid(st) ==> Valid(r)
    ensures !r.getPressed
    ensures r == st.(getPressed := false)
  {
    st.(getPressed := false)
  }

  /** A mode radio button toggled: when it became checked, the mode and the
      factory's strategy for it are installed and GET must be pressed again. */
  function ToggleMode(st: RunState, m: MotorMode, checked: bool): (r: RunState)
    ensures Valid(st) ==> Valid(r)
    ensures !checked ==> r == st
    ensures checked ==> r.mode == m && !r.getPressed
    ensures checked ==>
      (r.control.strategy == Some(CommandFactory.CreateCommand(m)) && r.control.isReady == st.control.isReady)
    ensures r.confirmed == st.confirmed && r.running == st.running && r.sent == st.sent
  {
    if !checked then st
    else
      var s := st.(mode := m,
                   control := Session.SetCommandStrategy(st.control, Some(CommandFactory.CreateCommand(m))),
                   getPressed := false);
      Refresh(s)
  }

  // ---------- GO ----------

  /** GO: refused unless SET confirmed a pair the strategy accepts; otherwise
      the command is sent, the graph cleared, the mode's counters armed, and
      the run started with the confirmation spent. */
  function Go(st: RunState, dir: MotorDirection, now: int): (r: RunState)
    ensures Valid(st) ==> Valid(r)
    ensures !st.confirmed ==> r == st
    ensures !Session.IsValidInput(st.control, st.confirmedSpeed, st.confirmedValue) ==> r == st
    ensures st.confirmed && Session.IsValidInput(st.control, st.confirmedSpeed, st.confirmedValue) ==>
      && r.running && !r.paused && !r.confirmed && !r.getPressed
      && r.sent == st.sent + [Session.BuildCommand(st.control, st.confirmedSpeed, st.confirmedValue, dir)]
  {
    if !st.confirmed then st
    else if !Session.IsValidInput(st.control, st.confirmedSpeed, st.confirmedValue) then st
    else
      var command := Session.BuildCommand(st.control, st.confirmedSpeed, st.confirmedValue, dir);
      var s1 := st.(sent := st.sent + [command], graph := LoadGraph.ClearData(st.graph),
                    graphStart := now, completionShown := false);
      var s2 := if st.mode == TIME
        then s1.(totalSeconds := st.confirmedValue, elapsedSeconds := 0, timerActive := true)
        else s1.(targetRotations := st.confirmedValue, currentRotations := 0);
      var s3 := Refresh(s2.(running := true, paused := false));
      s3.(confirmed := false, getPressed := false)
  }

  // ---------- completion and reset ----------

  /** resetToInitialState: every run flag and counter back to its start value,
      the session's readiness cleared, the graph kept. The mode, the strategy
      and the last load reading stay. */
  function ResetToInitial(st: RunState): (r: RunState)
    ensures Valid(st) ==> Valid(r)
    ensures !r.running && !r.paused && !r.confirmed && !r.getPressed && !r.timerActive
    ensures r.totalSeconds == 0 && r.elapsedSeconds == 0
    ensures r.currentRotations == 0 && r.targetRotations == 0 && r.graphStart == 0
    ensures !r.completionShown && !r.control.isReady
    ensures r.control.strategy == st.control.strategy && r.mode == st.mode && r.sent == st.sent
    ensures r.graph.times == st.graph.times && r.graph.loads == st.graph.loads
  {
    var s := st.(running := false, paused := false, confirmed := false, getPressed := false,
                 totalSeconds := 0, elapsedSeconds := 0, currentRotations := 0, targetRotations := 0,
                 graphStart := 0, completionShown := false, timerActive := false,
                 control := Session.Reset(st.control));
    Refresh(s.(graph := LoadGraph.PreserveGraph(s.graph)))
  }

  /** The time completion dialog: shown at most once per run; Ok resets. */
  function TimeCompletion(st: RunState, ok: bool): (r: RunState)
    ensures Valid(st) ==> Valid(r)
    ensures st.completionShown ==> r == st
    ensures !st.completionShown && ok ==> r == ResetToInitial(st.(completionShown := true))
    ensures !st.completionShown && !ok ==> r == st.(completionShown := true)
  {
    if st.completionShown then st
    else
      var s := st.(completionShown := true);
      if ok then ResetToInitial(s) else s
  }

  /** The rotation completion dialog: Ok resets, Cancel keeps the finished state. */
  function RotationCompletion(st: RunState, ok: bool): (r: RunState)
    ensures Valid(st) ==> Valid(r)
    ensures ok ==> r == ResetToInitial(st)
    ensures !ok ==> r == st
  {
    if ok then ResetToInitial(st) else st
  }

  // ---------- the time-mode tick ----------

  /** One timeout of the time-mode timer: while running unpaused in TIME mode
      the elapsed counter advances; reaching the total stops the run and
      offers the completion dialog. */
  function Tick(st: RunState, ok: bool): (r: RunState)
    ensures Valid(st) ==> Valid(r)
    ensures !(st.timerActive && st.mode == TIME && st.running && !st.paused) ==> r == st
    ensures r.mode == st.mode && r.control.strategy == st.control.strategy
  {
    if !(st.timerActive && st.mode == TIME && st.running && !st.paused) then st
    else if st.elapsedSeconds + 1 >= st.totalSeconds then
      var s := st.(elapsedSeconds := st.totalSeconds, timerActive := false,
                   sent := st.sent + ["STOP"], running := false);
      Refresh(TimeCompletion(s, ok))
    else
      Refresh(st.(elapsedSeconds := st.elapsedSeconds + 1))
  }

  // ---------- STOP, RELOAD, CLOSE, disconnect ----------

  /** STOP: always sends STOP and pauses; the time-mode timer is left running
      and its ticks do nothing while paused. */
  function Stop(st: RunState): (r: RunState)
    ensures Valid(st) ==> Valid(r)
    ensures r.paused && !r.running
    ensures r.sent == st.sent + ["STOP"]
    ensures r.timerActive == st.timerActive && SameCounters(r, st)
    ensures r.mode == st.mode && r.control == st.control && r.graph == st.graph
  {
    st.(sent := st.sent + ["STOP"], paused := true, running := false)
  }

  /** RELOAD: only from pause; resumes the run and restarts the time-mode timer. */
  function Reload(st: RunState): (r: RunState)
    ensures Valid(st) ==> Valid(r)
    ensures !st.paused ==> r == st
    ensures st.paused ==> r.running && !r.paused && r.sent == st.sent + ["RELOAD"]
    ensures st.paused && st.mode == TIME ==> r.timerActive
    ensures r.elapsedSeconds == st.elapsedSeconds && r.totalSeconds == st.totalSeconds
  {
    if !st.paused then st
    else
      var s := st.(sent := st.sent + ["RELOAD"], running := true, paused := false);
      if st.mode == TIME then s.(timerActive := true) else s
  }

  /** CLOSE: only from pause and after Ok; sends CLOSE and clears the run
      (resetFrameOutputValues zeroes the counters). The completion flag is not
      touched. */
  function Close(st: RunState, ok: bool): (r: RunState)
    ensures Valid(st) ==> Valid(r)
    ensures !st.paused || !ok ==> r == st
    ensures st.paused && ok ==>
      && r.sent == st.sent + ["CLOSE"]
      && !r.running && !r.paused && !r.confirmed && !r.getPressed && !r.timerActive
      && r.totalSeconds == 0 && r.elapsedSeconds == 0
      && r.currentRotations == 0 && r.targetRotations == 0 && r.graphStart == 0
      && !r.control.isReady && r.control.strategy == st.control.strategy
      && r.completionShown == st.completionShown && r.graph == st.graph
  {
    if !st.paused || !ok then st
    else
      st.(sent := st.sent + ["CLOSE"], running := false, paused := false, confirmed := false,
          getPressed := false, timerActive := false, control := Session.Reset(st.control),
          currentRotations := 0, targetRotations := 0, totalSeconds := 0, elapsedSeconds := 0,
          graphStart := 0)
  }

  /** DISCONNECT: with the port open, a running motor is reset; otherwise nothing changes here. */
  function Disconnect(st: RunState, portOpen: bool): (r: RunState)
    ensures Valid(st) ==> Valid(r)
    ensures portOpen && st.running ==> r == ResetToInitial(st)
    ensures !(portOpen && st.running) ==> r == st
  {
    if portOpen && st.running then ResetToInitial(st) else st
  }

  // ---------- inbound lines ----------

  /** updateMotorLoadGraph: while running unpaused, one sample at the seconds
      since GO (0 when no start time is recorded). */
  function AddLoadSample(st: RunState, now: int): (r: RunState)
    ensures Valid(st) ==> Valid(r)
    ensures !(st.running && !st.paused) ==> r == st
    ensures st.running && !st.paused ==>
      r == st.(graph := LoadGraph.AddDataPoint(st.graph,
                         if st.graphStart > 0 then (now - st.graphStart) as real else 0.0, st.motorLoad))
  {
    if st.running && !st.paused then
      var t: real := if st.graphStart > 0 then (now - st.graphStart) as real else 0.0;
      st.(graph := LoadGraph.AddDataPoint(st.graph, t, st.motorLoad))
    else st
  }

  /** DONE: the run is over. In TIME mode the elapsed counter is set to the
      total; the graph is kept and the mode's completion dialog offered. */
  function Done(st: RunState, ok: bool): (r: RunState)
    ensures Valid(st) ==> Valid(r)
    ensures !r.running && !r.paused && !r.timerActive
    ensures r.mode == st.mode && r.control.strategy == st.control.strategy && r.sent == st.sent
  {
    var s1 := st.(running := false, paused := false, timerActive := false);
    var s2 := if st.mode == TIME then Refresh(s1.(elapsedSeconds := st.totalSeconds)) else s1;
    var s3 := s2.(graph := LoadGraph.PreserveGraph(s2.graph));
    if st.mode == TIME then TimeCompletion(s3, ok) else RotationCompletion(s3, ok)
  }

  /** STOPPED: the controller paused the motor. */
  function Stopped(st: RunState): (r: RunState)
    ensures Valid(st) ==> Valid(r)
    ensures !r.running && r.paused && !r.timerActive
    ensures r.graph.times == st.graph.times && r.graph.loads == st.graph.loads
    ensures r.sent == st.sent && SameCounters(r, st)
    ensures r.mode == st.mode && r.control == st.control
  {
    st.(running := false, paused := true, timerActive := false, graph := LoadGraph.PreserveGraph(st.graph))
  }

  /** The session's classification of a line; READY is answered with HI. */
  function Greet(st: RunState, line: string): (r: RunState)
    ensures Valid(st) ==> Valid(r)
    ensures r.control == Session.ProcessResponse(st.control, line).next
    ensures line == Session.ReadyToken ==> r.sent == st.sent + ["HI"]
    ensures line != Session.ReadyToken ==> r == st
  {
    var answer := Session.ProcessResponse(st.control, line);
    st.(control := answer.next, sent := if answer.ready then st.sent + ["HI"] else st.sent)
  }

  /** A LOAD line records the reading and, while running, plots it. */
  function ApplyLoad(st: RunState, line: string, now: int, toDouble: string -> real): (r: RunState)
    ensures Valid(st) ==> Valid(r)
    ensures !StartsWith(line, "LOAD:") ==> r == st
    ensures StartsWith(line, "LOAD:") ==> r == AddLoadSample(st.(motorLoad := toDouble(LoadText(line))), now)
  {
    if StartsWith(line, "LOAD:") then AddLoadSample(st.(motorLoad := toDouble(LoadText(line))), now) else st
  }

  /** A TURN line in ROTATION mode sets the rotation count; in TIME mode it is only informative. */
  function ApplyTurn(st: RunState, line: string): (r: RunState)
    ensures Valid(st) ==> Valid(r)
    ensures !(st.mode == ROTATION && StartsWith(line, "TURN:")) ==> r == st
    ensures st.mode == ROTATION && StartsWith(line, "TURN:") ==>
      r == st.(currentRotations := Decimal.ToInt(Section1(line, ':')))
  {
    if st.mode == ROTATION && StartsWith(line, "TURN:")
    then st.(currentRotations := Decimal.ToInt(Section1(line, ':'))) else st
  }

  /** DONE and STOPPED end or pause the run; other lines change nothing here. */
  function ApplyEnd(st: RunState, line: string, ok: bool): (r: RunState)
    ensures Valid(st) ==> Valid(r)
    ensures line == "DONE" ==> r == Done(st, ok)
    ensures line == "STOPPED" ==> r == Stopped(st)
    ensures line != "DONE" && line != "STOPPED" ==> r == st
  {
    if line == "DONE" then Done(st, ok)
    else if line == "STOPPED" then Stopped(st)
    else st
  }

  /** One inbound line, already trimmed and non-empty: the session classifies
      it, then the LOAD, TURN, DONE and STOPPED rules apply in that order. */
  function HandleLine(st: RunState, line: string, now: int, ok: bool, toDouble: string -> real): (r: RunState)
    ensures Valid(st) ==> Valid(r)
  {
    ApplyEnd(ApplyTurn(ApplyLoad(Greet(st, line), line, now, toDouble), line), line, ok)
  }

  function HandleLines(st: RunState, lines: seq<string>, now: int, ok: bool, toDouble: string -> real): (r: RunState)
    ensures Valid(st) ==> Valid(r)
    decreases |lines|
  {
    if |lines| == 0 then st
    else HandleLines(HandleLine(st, lines[0], now, ok, toDouble), lines[1..], now, ok, toDouble)
  }

  /** handleSerialResponse: every line of the delivered text, in order. */
  function HandleSerialResponse(st: RunState, data: string, now: int, ok: bool, toDouble: string -> real): (r: RunState)
    ensures Valid(st) ==> Valid(r)
    ensures AllSpace(data) ==> r == st
  {
    assert AllSpace(data) ==> InboundLines(data) == [] by {
      if AllSpace(data) { BlankCarriesNothing(data); }
    }
    HandleLines(st, InboundLines(data), now, ok, toDouble)
  }

  /** Clean lines sent joined with newlines, with or without a carriage
      return before each newline, are handled one by one in order. */
  lemma DeliveredLinesHandled(st: RunState, ls: seq<string>, now: int, ok: bool, toDouble: string -> real)
    requires forall i :: 0 <= i < |ls| ==> ls[i] != [] && IsTrimmed(ls[i]) && '\n' !in ls[i]
    ensures HandleSerialResponse(st, Join(ls, '\n'), now, ok, toDouble) == HandleLines(st, ls, now, ok, toDouble)
    ensures HandleSerialResponse(st, Join(Pad(ls, "", "\r"), '\n'), now, ok, toDouble)
         == HandleLines(st, ls, now, ok, toDouble)
  {
    InboundRoundTrip(ls);
    CrLfLinesDelivered(ls);
  }

  // ---------- the transition function ----------

  function Step(st: RunState, e: Event, toDouble: string -> real): (r: RunState)
    ensures Valid(st) ==> Valid(r)
    ensures e.StopPressed? ==> r.paused && !r.running
    ensures e.GetPressed? ==> r.getPressed && !r.confirmed
    ensures e.FieldEdited? ==> !r.getPressed
  {
    match e
    case GetPressed => Get(st)
    case SetPressed(f) => Set(st, f)
    case FieldEdited => Edit(st)
    case GoPressed(dir, now) => Go(st, dir, now)
    case TimerTick(ok) => Tick(st, ok)
    case StopPressed => Stop(st)
    case ReloadPressed => Reload(st)
    case ClosePressed(ok) => Close(st, ok)
    case ModeToggled(m, checked) => ToggleMode(st, m, checked)
    case DisconnectPressed(portOpen) => Disconnect(st, portOpen)
    case Received(data, now, ok) => HandleSerialResponse(st, data, now, ok, toDouble)
  }

  /** A sequence of events from a starting state. */
  function Run(st: RunState, events: seq<Event>, toDouble: string -> real): RunState
    decreases |events|
  {
    if |events| == 0 then st else Run(Step(st, events[0], toDouble), events[1..], toDouble)
  }

  /** Every state the window can reach from its construction satisfies the invariant. */
  lemma {:induction false} RunKeepsValid(st: RunState, events: seq<Event>, toDouble: string -> real)
    requires Valid(st)
    ensures Valid(Run(st, events, toDouble))
    decreases |events|
  {
    if |events| > 0 {
      RunKeepsValid(Step(st, events[0], toDouble), events[1..], toDouble);
    }
  }

  lemma ReachableIsValid(anySpeed: int, anyValue: int, events: seq<Event>, toDouble: string -> real)
    ensures Valid(Run(Init(anySpeed, anyValue), events, toDouble))
  {
    RunKeepsValid(Init(anySpeed, anyValue), events, toDouble);
  }

  // ---------- the GET -> SET -> GO gate ----------

  /** After an edit or a mode change SET does nothing until GET is pressed again. */
  lemma SetNeedsGet(st: RunState, f: Form, m: MotorMode)
    ensures Set(Edit(st), f) == Edit(st)
    ensures Set(ToggleMode(st, m, true), f) == ToggleMode(st, m, true)
  {
  }

  /** GET then SET confirms the form's values for the current mode. */
  lemma GetThenSetConfirms(st: RunState, f: Form)
    ensures Set(Get(st), f).confirmed
    ensures Set(Get(st), f).confirmedSpeed == f.speed
    ensures st.mode == ROTATION ==> Set(Get(st), f).confirmedValue == f.rotations
    ensures st.mode == TIME ==> Set(Get(st), f).confirmedValue == f.hours * 3600 + f.minutes * 60 + f.seconds
  {
  }

  /** GO does nothing without a confirmed pair the strategy accepts. */
  lemma GoRefused(st: RunState, dir: MotorDirection, now: int)
    requires Valid(st)
    requires !st.confirmed || st.confirmedSpeed <= 0 || st.confirmedValue <= 0
    ensures Go(st, dir, now) == st
  {
  }

  /** A successful GO sends the command for the confirmed pair in the current
      mode and direction, clears the graph and arms the mode's counters. */
  lemma GoStartsRun(st: RunState, dir: MotorDirection, now: int)
    requires Valid(st) && st.confirmed && st.confirmedSpeed > 0 && st.confirmedValue > 0
    ensures var r := Go(st, dir, now);
      && |r.sent| == |st.sent| + 1 && r.sent[..|st.sent|] == st.sent
      && MotorCommands.ParseCommand(r.sent[|st.sent|])
           == Some(MotorCommands.WireCommand(st.mode, st.confirmedSpeed, st.confirmedValue, dir))
      && r.running && !r.paused && !r.confirmed && !r.getPressed && r.mode == st.mode
      && r.graph.times == [] && r.graph.loads == [] && r.graphStart == now && !r.completionShown
      && (st.mode == TIME ==>
            r.totalSeconds == st.confirmedValue && r.elapsedSeconds == 0 && r.timerActive)
      && (st.mode == ROTATION ==>
            r.targetRotations == st.confirmedValue && r.currentRotations == 0)
  {
    var r := Go(st, dir, now);
    assert r.sent[..|st.sent|] == st.sent;
  }

  /** A second GO without a new SET is refused: two presses start one run. */
  lemma GoTwiceIsGoOnce(st: RunState, d1: MotorDirection, n1: int, d2: MotorDirection, n2: int)
    ensures Go(Go(st, d1, n1), d2, n2) == Go(st, d1, n1)
  {
  }

  /** Changing the mode after SET keeps the confirmation: the value confirmed
      for one mode is then used as the other mode's target. */
  lemma ToggleKeepsConfirmation(st: RunState, dir: MotorDirection, now: int)
    requires Valid(st) && st.mode == ROTATION && st.confirmed
    requires st.confirmedSpeed > 0 && st.confirmedValue > 0
    ensures ToggleMode(st, TIME, true).confirmed
    ensures Go(ToggleMode(st, TIME, true), dir, now).totalSeconds == st.confirmedValue
    ensures Go(ToggleMode(st, TIME, true), dir, now).running
  {
  }

  /** The window's own first run: GET, SET with 100 RPM and 5 rotations, GO clockwise. */
  lemma FirstRunScenario(anySpeed: int, anyValue: int, now: int)
    ensures Go(Set(Get(Init(anySpeed, anyValue)), Form(100, 5, 0, 0, 10)), CW, now).sent
              == ["RPM:100 ROT:5 DIR:CW"]
  {
    MotorCommands.BuildExamples();
  }

  // ---------- the time-mode tick ----------

  /** Ticks from the time-mode timer, each answered the same way. */
  function Ticks(st: RunState, k: nat, ok: bool): RunState
    decreases k
  {
    if k == 0 then st else Ticks(Tick(st, ok), k - 1, ok)
  }

  /** A timed run before its end: k ticks add k seconds and the run goes on. */
  lemma {:induction false} TicksCount(st: RunState, k: nat, ok: bool)
    requires Valid(st) && st.mode == TIME && st.running && !st.paused && st.timerActive
    requires st.elapsedSeconds + k < st.totalSeconds
    ensures Ticks(st, k, ok) == st.(elapsedSeconds := st.elapsedSeconds + k)
    decreases k
  {
    if k > 0 {
      var next := Tick(st, ok);
      assert next == st.(elapsedSeconds := st.elapsedSeconds + 1);
      TicksCount(next, k - 1, ok);
    }
  }

  /** The tick that reaches the total ends the run and sends STOP; unless the
      dialog resets the window, the elapsed counter stands at the total. */
  lemma LastTickStops(st: RunState, ok: bool)
    requires Valid(st) && st.mode == TIME && st.running && !st.paused && st.timerActive
    requires st.elapsedSeconds + 1 >= st.totalSeconds
    ensures !Tick(st, ok).running && !Tick(st, ok).timerActive
    ensures Tick(st, ok).sent == st.sent + ["STOP"]
    ensures !ok || st.completionShown ==> Tick(st, ok).elapsedSeconds == st.totalSeconds
    ensures ok && !st.completionShown ==> Tick(st, ok).elapsedSeconds == 0 && !Tick(st, ok).control.isReady
  {
  }

  /** A timed run started by GO for n seconds stops on exactly its n-th tick. */
  lemma TimedRunLength(st: RunState, dir: MotorDirection, now: int, ok: bool)
    requires Valid(st) && st.mode == TIME && st.confirmed && st.confirmedSpeed > 0 && st.confirmedValue > 0
    ensures Ticks(Go(st, dir, now), st.confirmedValue - 1, ok).running
    ensures !Ticks(Go(st, dir, now), st.confirmedValue, ok).running
  {
    GoStartsRun(st, dir, now);
    TimedRunFromStart(Go(st, dir, now), ok);
  }

  /** From a freshly started timed run, the total-th tick is the one that stops it. */
  lemma TimedRunFromStart(g: RunState, ok: bool)
    requires Valid(g) && g.mode == TIME && g.running && !g.paused && g.timerActive
    requires g.elapsedSeconds == 0 && g.totalSeconds > 0
    ensures Ticks(g, g.totalSeconds - 1, ok).running
    ensures !Ticks(g, g.totalSeconds, ok).running
  {
    var n := g.totalSeconds;
    TicksCount(g, n - 1, ok);
    var before := Ticks(g, n - 1, ok);
    LastTickStops(before, ok);
    TicksThenTick(g, n - 1, ok);
  }

  /** One more tick after k ticks is k + 1 ticks. */
  lemma {:induction false} TicksThenTick(st: RunState, k: nat, ok: bool)
    ensures Ticks(st, k + 1, ok) == Tick(Ticks(st, k, ok), ok)
    decreases k
  {
    if k > 0 {
      TicksThenTick(Tick(st, ok), k - 1, ok);
    }
  }

  /** Ticks while paused or stopped change nothing. */
  lemma PausedTickIgnored(st: RunState, ok: bool)
    requires st.paused || !st.running || st.mode == ROTATION || !st.timerActive
    ensures Tick(st, ok) == st
  {
  }

  // ---------- STOP, RELOAD, CLOSE ----------

  /** RELOAD and CLOSE are refused unless the motor is paused. */
  lemma ResumeAndCloseNeedPause(st: RunState, ok: bool)
    requires !st.paused
    ensures Reload(st) == st && Close(st, ok) == st
  {
  }

  /** STOP then RELOAD resumes the run with both commands sent, in order. */
  lemma StopThenReload(st: RunState)
    ensures Reload(Stop(st)).running && !Reload(Stop(st)).paused
    ensures Reload(Stop(st)).sent == st.sent + ["STOP", "RELOAD"]
    ensures Reload(Stop(st)).elapsedSeconds == st.elapsedSeconds
  {
  }

  /** STOP then CLOSE with Ok leaves an idle window whose session must be greeted again. */
  lemma StopThenClose(st: RunState)
    ensures var r := Close(Stop(st), true);
      && !r.running && !r.paused && !r.confirmed && !r.getPressed
      && r.totalSeconds == 0 && r.elapsedSeconds == 0 && r.currentRotations == 0 && r.targetRotations == 0
      && !r.control.isReady && r.control.strategy == st.control.strategy
      && r.sent == st.sent + ["STOP", "CLOSE"]
  {
  }

  // ---------- inbound lines ----------

  /** READY marks the session ready and is answered with HI. */
  lemma ReadyGreets(st: RunState, now: int, ok: bool, toDouble: string -> real)
    ensures HandleLine(st, "READY", now, ok, toDouble).control.isReady
    ensures HandleLine(st, "READY", now, ok, toDouble).sent == st.sent + ["HI"]
    ensures HandleLine(st, "READY", now, ok, toDouble).running == st.running
  {
    DiffersAtStart("READY", "LOAD:");
    DiffersAtStart("READY", "TURN:");
  }

  /** DONE always ends the run, whatever the mode or the dialog answer. */
  lemma DoneEndsRun(st: RunState, now: int, ok: bool, toDouble: string -> real)
    ensures !HandleLine(st, "DONE", now, ok, toDouble).running
    ensures !HandleLine(st, "DONE", now, ok, toDouble).paused
    ensures !HandleLine(st, "DONE", now, ok, toDouble).timerActive
  {
    assert !StartsWith("DONE", "LOAD:") && !StartsWith("DONE", "TURN:");
  }

  /** DONE in TIME mode, answered with Cancel, shows the full time elapsed. */
  lemma DoneFillsTime(st: RunState, now: int, toDouble: string -> real)
    requires st.mode == TIME && st.totalSeconds >= 0
    ensures HandleLine(st, "DONE", now, false, toDouble).elapsedSeconds == st.totalSeconds
  {
    assert !StartsWith("DONE", "LOAD:") && !StartsWith("DONE", "TURN:");
  }

  /** STOPPED pauses the run and stops the timer. */
  lemma StoppedPauses(st: RunState, now: int, ok: bool, toDouble: string -> real)
    ensures !HandleLine(st, "STOPPED", now, ok, toDouble).running
    ensures HandleLine(st, "STOPPED", now, ok, toDouble).paused
    ensures !HandleLine(st, "STOPPED", now, ok, toDouble).timerActive
  {
    DiffersAtStart("STOPPED", "LOAD:");
    DiffersAtStart("STOPPED", "TURN:");
  }

  /** What the line rules see of TURN:<n>. */
  lemma TurnLine(n: int)
    requires Decimal.IsInt32(n)
    ensures var line := "TURN:" + Decimal.Dec(n);
      && StartsWith(line, "TURN:") && !StartsWith(line, "LOAD:")
      && line != Session.ReadyToken && line != "DONE" && line != "STOPPED"
      && Decimal.ToInt(Section1(line, ':')) == n
  {
    TurnLineKind(Decimal.Dec(n));
    TurnLineValue(n);
  }

  /** Which line rule a TURN: line answers to, whatever follows the colon. */
  lemma TurnLineKind(d: string)
    ensures var line := "TURN:" + d;
      && StartsWith(line, "TURN:") && !StartsWith(line, "LOAD:")
      && line != Session.ReadyToken && line != "DONE" && line != "STOPPED"
  {
    var line := "TURN:" + d;
    assert line[..5] == "TURN:";
    DiffersAtStart(line, "LOAD:");
    assert line[4] == ':' && "READY"[4] != ':' && "STOPPED"[4] != ':';
  }

  /** The number after TURN: reads back as n. */
  lemma TurnLineValue(n: int)
    requires Decimal.IsInt32(n)
    ensures Decimal.ToInt(Section1("TURN:" + Decimal.Dec(n), ':')) == n
  {
    MotorCommands.DecHasNoSeparator(n);
    assert "TURN:" + Decimal.Dec(n) == "TURN" + [':'] + Decimal.Dec(n);
    Section1LastField("TURN", ':', Decimal.Dec(n));
    Decimal.ToIntDec(n);
  }

  /** TURN:<n> sets the rotation count to n in ROTATION mode and changes nothing in TIME mode. */
  lemma TurnSetsCount(st: RunState, n: int, now: int, ok: bool, toDouble: string -> real)
    requires Decimal.IsInt32(n)
    ensures st.mode == ROTATION ==>
      HandleLine(st, "TURN:" + Decimal.Dec(n), now, ok, toDouble) == st.(currentRotations := n)
    ensures st.mode == TIME ==> HandleLine(st, "TURN:" + Decimal.Dec(n), now, ok, toDouble) == st
  {
    TurnLine(n);
  }

  /** What the line rules see of LOAD:<x>. */
  lemma LoadLine(x: string)
    requires ':' !in x && !EndsWith(x, "%")
    ensures var line := "LOAD:" + x;
      && StartsWith(line, "LOAD:") && !StartsWith(line, "TURN:")
      && line != Session.ReadyToken && line != "DONE" && line != "STOPPED"
      && LoadText(line) == x
  {
    var line := "LOAD:" + x;
    assert line[..5] == "LOAD:";
    DiffersAtStart(line, "TURN:");
    assert line[4] == ':' && "READY"[4] != ':' && "STOPPED"[4] != ':';
    LoadTextStripsPercent(x);
  }

  /** A LOAD reading while running is plotted as the newest sample. */
  lemma LoadIsPlotted(st: RunState, x: string, now: int, ok: bool, toDouble: string -> real)
    requires Valid(st) && st.running && ':' !in x && !EndsWith(x, "%")
    ensures var r := HandleLine(st, "LOAD:" + x, now, ok, toDouble);
      && r.motorLoad == toDouble(x)
      && |r.graph.loads| > 0 && r.graph.loads[|r.graph.loads| - 1] == toDouble(x)
  {
    var line := "LOAD:" + x;
    LoadLine(x);
    var s := st.(motorLoad := toDouble(x));
    var loaded := AddLoadSample(s, now);
    assert ApplyLoad(Greet(st, line), line, now, toDouble) == loaded;
    assert HandleLine(st, line, now, ok, toDouble) == loaded;
    LoadGraph.AddDropsOldest(s.graph, if s.graphStart > 0 then (now - s.graphStart) as real else 0.0, toDouble(x));
  }

  /** Lines are handled in the order they arrive: a delivery of two lines is the
      first line's handling followed by the second's. */
  lemma TwoLinesInOrder(st: RunState, a: string, b: string, now: int, ok: bool, toDouble: string -> real)
    requires a != [] && IsTrimmed(a) && '\n' !in a
    requires b != [] && IsTrimmed(b) && '\n' !in b
    ensures HandleSerialResponse(st, a + "\n" + b, now, ok, toDouble)
              == HandleLine(HandleLine(st, a, now, ok, toDouble), b, now, ok, toDouble)
  {
    TwoLines(a, b);
    HandleTwo(st, a, b, now, ok, toDouble);
  }

  lemma HandleTwo(st: RunState, a: string, b: string, now: int, ok: bool, toDouble: string -> real)
    ensures HandleLines(st, [a, b], now, ok, toDouble)
              == HandleLine(HandleLine(st, a, now, ok, toDouble), b, now, ok, toDouble)
  {
    var s1 := HandleLine(st, a, now, ok, toDouble);
    assert [a, b][1..] == [b];
    assert [b][1..] == [];
    assert HandleLines(st, [a, b], now, ok, toDouble) == HandleLines(s1, [b], now, ok, toDouble);
  }

  lemma TwoLines(a: string, b: string)
    requires a != [] && IsTrimmed(a) && '\n' !in a
    requires b != [] && IsTrimmed(b) && '\n' !in b
    ensures InboundLines(a + "\n" + b) == [a, b]
  {
    assert [a, b][1..] == [b];
    assert Join([a, b], '\n') == a + "\n" + b;
    InboundRoundTrip([a, b]);
  }

  // ---------- transport drop ----------

  /** Disconnecting while running resets the run and the session's readiness. */
  lemma DisconnectWhileRunning(st: RunState)
    requires st.running
    ensures !Disconnect(st, true).running && !Disconnect(st, true).control.isReady
    ensures Disconnect(st, false) == st
  {
  }
}
