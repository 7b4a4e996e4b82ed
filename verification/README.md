# Motor-run control core, in Dafny

This project models the control core of a Qt stepper-motor front end (StepperRT). Five parts are covered.

- **Command strategies.** `RotationCommand` and `TimeCommand` check an `(rpm, target)` pair. They also write the wire text `RPM:<n> ROT:<n> DIR:<CW|CCW>` or `RPM:<n> TIME:<n> DIR:<CW|CCW>`.
- **Factory.** `MotorCommandFactory` maps the `MotorMode` enum to a strategy.
- **Session.** `MotorControl` holds the installed strategy and the controller's `isReady` flag. The exact line `READY` sets the flag; `reset()` clears it.
- **Run state machine of `MainWindow`.** This part covers:
  - the GET → SET → GO gate;
  - running and pause handling for `STOP`, `RELOAD`, `CLOSE`, `DONE` and `STOPPED`;
  - splitting and classifying inbound serial text;
  - the time-mode timer tick;
  - the integer progress and remaining-time arithmetic.
- **Load graph.** The 1000-sample buffer of `MotorLoadGraphWidget` and its x-window and y-range rules.

The modules follow the program's components.

| module | file | models |
|---|---|---|
| `Options` | options.dfy | an optional value, used where C++ has a null strategy |
| `QtText` | qt_text.dfy | the `QString` operations the core uses: `trimmed()`, `split(ch)` with empty parts kept, `section(":", 1, 1)`, `startsWith` and `endsWith` |
| `Decimal` | decimal.dfy | `QString::arg(int)` (decimal text), a canonical reader for it, and `QString::toInt()` |
| `MotorTypes` | motor_types.dfy | the `MotorMode` and `MotorDirection` enums and the direction text |
| `MotorCommands` | motor_commands.dfy | both strategies as one variant, plus a parser for the wire format, proved inverse to rendering |
| `CommandFactory` | command_factory.dfy | `createCommand`, including its `default:` branch |
| `Session` | session.dfy | `MotorControl` |
| `RunArith` | run_arith.dfy | `getTotalSeconds`, C++ truncating division, and the progress and remaining-time displays |
| `LoadGraph` | load_graph.dfy | `addDataPoint`, `clearData`, `updateGraph` and `preserveGraph` over sequences of reals |
| `Inbound` | inbound.dfy | how `handleSerialResponse` cuts a delivery into lines, and how a LOAD line's value is read |
| `RunController` | run_controller.dfy | the `MainWindow` handlers as transitions of one `RunState` record |
| `Seqs` | seqs.dfy | generic facts about sequence concatenation used by the proofs |

The wire format is characterised by `MotorCommands.ParseCommand`, a parser that accepts exactly the texts the strategies write. Building then parsing gives back the inputs. Parsing succeeds only on a text that building produces.

The run state machine keeps an invariant, `RunController.Valid`. Every handler preserves it, so every state reachable from the constructed window satisfies it. `Valid` says four things:

- the installed strategy is the factory's strategy for the current mode;
- `0 <= elapsed <= total`;
- the motor is never running and paused at once;
- both graph series have the same length, at most 1000.

Some behaviour is modelled as the code does it:

- Changing the mode clears the GET flag but not the SET confirmation. A GO after SET and a mode change therefore uses the value confirmed in the other mode as the new mode's target (`RunController.ToggleKeepsConfirmation`).
- STOP does not stop the time-mode timer. While paused, ticks are ignored because the tick handler checks the paused flag.
- CLOSE does not clear the completion-dialog flag. `resetToInitialState` does.
- Only the operator's disconnect resets anything, and only while the motor is running (`src/ui/mainwindow.cpp:480-483`). A serial error only delivers a text line. `RunController.Disconnect` leaves an idle window, and its session readiness, unchanged.

## Model

| member | source | states |
|---|---|---|
| MotorTypes.DirText | src/motor/rotationcommand.cpp:6 | the direction text is "CW" exactly when the direction is CW, otherwise "CCW"; no other text is possible |
| MotorTypes.DirRoundTrip | src/motor/timecommand.cpp:6 | the direction text reads back as the direction it was written for |
| Decimal.NatText | src/motor/rotationcommand.cpp:7 | the decimal text of a natural number is canonical (no leading zero) and its digits have that value |
| Decimal.Dec | src/motor/rotationcommand.cpp:7 | `arg(int)` writes a non-empty text of digits and at most a minus sign; `Decimal.DecRoundTrip` reads every such text back as its number |
| Decimal.ToInt | src/ui/mainwindow.cpp:532 | `toInt()` always gives a 32-bit value |
| Decimal.ToIntPadded | src/ui/mainwindow.cpp:532 | white space around the number does not change what `toInt()` reads |
| Decimal.ToIntBlank | src/ui/mainwindow.cpp:532 | a blank text reads as 0 |
| Decimal.ToIntPlus | src/ui/mainwindow.cpp:532 | a leading plus sign is accepted: "+n" reads as n for every non-negative 32-bit n |
| Decimal.ToIntSignedDigits | src/ui/mainwindow.cpp:532 | any optional sign followed by digits reads as its signed value when that fits in 32 bits and as 0 otherwise, so leading zeros are read and "-0" is 0 |
| Decimal.ToIntLoneSign | src/ui/mainwindow.cpp:532 | a sign with no digits after it reads as 0 |
| Decimal.ToIntOutOfRange | src/ui/mainwindow.cpp:532 | the decimal text of a number outside the 32-bit range reads as 0 |
| Decimal.ToIntJunk | src/ui/mainwindow.cpp:532 | a character that is not a digit, other than one sign in front, makes the text read as 0 |
| Decimal.DecRoundTrip | src/motor/rotationcommand.cpp:7 | every integer's decimal text, as `arg(int)` writes it, reads back as that integer |
| Decimal.ParseDecOnlyDec | src/motor/timecommand.cpp:7 | the only text that reads back as n is n's decimal text, so the rendering is unique |
| Decimal.CanonicalIsNatText | src/motor/rotationcommand.cpp:7 | every canonical digit string is the decimal text of its own value |
| Decimal.ToIntDec | src/ui/mainwindow.cpp:532 | `toInt()` reads back every 32-bit number written in decimal |
| MotorCommands.BuildRotation | src/motor/rotationcommand.cpp:4-8 | for every int triple, including non-positive values, the text parses to the rotation command with exactly those rpm, rotations and direction |
| MotorCommands.BuildTime | src/motor/timecommand.cpp:4-8 | for every int triple, the text parses to the time command with exactly those rpm, duration and direction |
| MotorCommands.BuildCommand | inc/motor/imotorcommand.h:21 | whichever strategy builds, the text parses to a command of that strategy's mode with exactly the given rpm, value and direction |
| MotorCommands.RenderRoundTrip | src/motor/rotationcommand.cpp:7 | parsing the three fields RPM, ROT or TIME, and DIR out of a rendered command gives back the original values |
| MotorCommands.ParseOnlyRendered | src/motor/timecommand.cpp:7 | a text the parser accepts is exactly the rendering of what it parsed to; nothing else is accepted |
| MotorCommands.BuildExamples | src/motor/rotationcommand.cpp:7 | (100, 5, CW) is written "RPM:100 ROT:5 DIR:CW" and (200, 90, CCW) as a time command is "RPM:200 TIME:90 DIR:CCW" |
| MotorCommands.BuildInjective | src/motor/timecommand.cpp:4-8 | two builds give the same text only for the same strategy, rpm, value and direction |
| MotorCommands.TimeIsNeverRotation | src/motor/timecommand.cpp:7 | a time command carries the TIME tag and differs from every rotation command |
| MotorCommands.IsValidInput | src/motor/rotationcommand.cpp:10-13 | for either strategy, an input is valid iff rpm > 0 and the target (rotations or duration) > 0 |
| MotorCommands.ValueLabel | src/motor/rotationcommand.cpp:15-18 | the rotation strategy's label is the constant "회전수" and the time strategy's is "시간(초)" |
| CommandFactory.CreateCommandFor | src/motor/motorcommandfactory.cpp:6-16 | the factory is total: the TIME enum value gives the time strategy, and every other value, including out-of-range ones, gives the rotation strategy |
| CommandFactory.CreateCommand | src/motor/motorcommandfactory.cpp:8-12 | the strategy returned for a mode builds commands of that mode |
| CommandFactory.FactoryTag | src/motor/motorcommandfactory.cpp:8-15 | building through `createCommand(m)` uses the tag ROT for ROTATION and TIME for TIME |
| Session.Init | src/motor/motorcontrol.cpp:5-8 | a new session holds the rotation strategy and is not ready |
| Session.FreshSessionScenario | src/motor/motorcontrol.cpp:5-7 | a new session accepts (100, 5), rejects (100, 0), and builds "RPM:100 ROT:5 DIR:CW" with the direction defaulted to CW |
| Session.SetCommandStrategy | src/motor/motorcontrol.cpp:10-13 | the strategy slot is replaced wholesale and the readiness flag is kept |
| Session.AfterSetAgreesWithNew | src/motor/motorcontrol.cpp:10-29 | after installing a strategy, building and validation agree with that strategy, never with the previous one |
| Session.BuildCommand | src/motor/motorcontrol.cpp:15-21 | with no strategy the text is empty; otherwise it parses to the installed strategy's mode with the given values |
| Session.IsValidInput | src/motor/motorcontrol.cpp:23-29 | valid iff a strategy is installed and rpm > 0 and value > 0 |
| Session.ProcessResponse | src/motor/motorcontrol.cpp:31-40 | answers true iff the message is exactly "READY", which also makes the session ready; any other message changes nothing |
| Session.ReadyIdempotent | src/motor/motorcontrol.cpp:33-36 | a second READY answers true again and leaves the session as the first left it |
| Session.Reset | src/motor/motorcontrol.cpp:42-45 | reset clears readiness and keeps the installed strategy |
| Session.ProcessAllAnswers | src/ui/mainwindow.cpp:499-503 | over lines classified in order, exactly the READY lines answer true, and the session ends ready iff it was ready or some line was READY |
| Session.HandshakeScenario | src/motor/motorcontrol.cpp:31-40 | for the lines HELLO_ECHO, READY and LOAD:42.5%, only the second answers true; "ready" and "READY " are refused |
| Session.TimeStrategyScenario | src/motor/timecommand.cpp:4-13 | after switching to the time strategy, (200, 0) is refused, (200, 90) is accepted, and (200, 90, CCW) is written as a TIME command |
| QtText.Trim | src/ui/mainwindow.cpp:492 | the result has no white space at either end and is the input with only white-space margins removed |
| QtText.TrimUnique | src/ui/mainwindow.cpp:492 | any trimmed text that sits between white-space margins of the input is exactly what `trimmed()` returns |
| QtText.TrimPadded | src/ui/mainwindow.cpp:500 | white space added on either side does not change what a text trims to |
| QtText.Split | src/ui/mainwindow.cpp:497 | the parts are free of the separator and join back into the input |
| QtText.SplitJoin | src/ui/mainwindow.cpp:497 | splitting the join of separator-free parts gives the parts back, empty parts included |
| QtText.Section1LastField | src/ui/mainwindow.cpp:516 | the section after the first colon is the rest of the text when no second colon follows |
| QtText.Section1 | src/ui/mainwindow.cpp:516 | the section holds no colon, and is empty when the text has no colon |
| QtText.Section1MiddleField | src/ui/mainwindow.cpp:532 | the section stops at the second colon |
| QtText.StartsWith | src/ui/mainwindow.cpp:514 | a text that starts with a prefix is that prefix followed by the rest |
| QtText.StartsWithPrefix | src/ui/mainwindow.cpp:530 | a prefix followed by anything starts with that prefix |
| QtText.EndsWith | src/ui/mainwindow.cpp:518 | a text that ends with a suffix is the rest followed by that suffix |
| QtText.EndsWithSuffix | src/ui/mainwindow.cpp:518-519 | anything followed by a suffix ends with that suffix |
| RunArith.TruncDiv | src/ui/mainwindow.cpp:1070 | C++ integer division truncates toward zero: the remainder has the dividend's sign and is smaller than the divisor |
| RunArith.TotalSeconds | src/ui/mainwindow.cpp:748-755 | for non-negative hours and minutes and seconds below 60, the total divides back into the same hours, minutes and seconds |
| RunArith.TimeFieldsRange | src/ui/mainwindow.cpp:748-755 | hours, minutes and seconds from the combo boxes total less than a day and split back into the same fields |
| RunArith.SplitOfTotal | src/ui/mainwindow.cpp:1106-1113 | the clock split of a normal hours/minutes/seconds total gives back those fields |
| RunArith.SplitHms | src/ui/mainwindow.cpp:1105-1108 | the clock fields of a time add back up to it, with minutes and seconds below 60 for a non-negative time |
| RunArith.RotationProgress | src/ui/mainwindow.cpp:1068-1071 | the progress is 0 without a positive target; otherwise current * 100 / target rounded toward zero, so rounded down for a non-negative count and up for a negative one, as a TURN:-3 line gives |
| RunArith.RotationProgressBounds | src/ui/mainwindow.cpp:1068-1071 | while the count is within the target, the progress is between 0 and 100, and exactly 100 at the target |
| RunArith.ClampElapsed | src/ui/mainwindow.cpp:1094-1095 | with a non-negative total: a negative counter becomes 0, one above the total becomes the total, and one in [0, total] is left alone |
| RunArith.TimeDisplay | src/ui/mainwindow.cpp:1093-1113 | the counter shown is the clamped input counter; the progress is 0 without a positive total, and otherwise lies in [0, 100] and is the percentage of that counter over the total, rounded down; counter plus remaining equals the total; both clocks are well-formed |
| LoadGraph.NewGraph | src/ui/motorloadgraphwidget.cpp:120-137 | a new graph has no samples, x over [0, W] and y over [0, 50] |
| LoadGraph.Window | src/ui/motorloadgraphwidget.cpp:194 | the time window is 30 s when embedded and 60 s standalone |
| LoadGraph.AddDataPoint | src/ui/motorloadgraphwidget.cpp:169-179 | the new sample is last; the times kept are the newest 1000 of the previous times plus the new one, and the same holds for the loads when the series were equal in length |
| LoadGraph.AddDropsOldest | src/ui/motorloadgraphwidget.cpp:170-178 | both series stay equal in length, end with (t, l), and the earlier entries are a suffix of the previous contents, so the oldest go first |
| LoadGraph.AddBelowLimit | src/ui/motorloadgraphwidget.cpp:171-175 | below the limit nothing is dropped |
| LoadGraph.AddKeepsNewest | src/ui/motorloadgraphwidget.cpp:174-178 | if the buffer held the newest 1000 of a history, after one more sample it holds the newest 1000 of the extended history |
| LoadGraph.AddAllKeepsNewest | src/ui/motorloadgraphwidget.cpp:169-179 | after any run of samples the buffer holds exactly the newest 1000 sample times, in order |
| LoadGraph.ClearData | src/ui/motorloadgraphwidget.cpp:224-237 | clearing empties both series and restores the axes of a new graph |
| LoadGraph.SeqMax | src/ui/motorloadgraphwidget.cpp:210 | the maximum is an element and no element exceeds it |
| LoadGraph.SeqMin | src/ui/motorloadgraphwidget.cpp:211 | the minimum is an element and no element is below it |
| LoadGraph.XRange | src/ui/motorloadgraphwidget.cpp:191-205 | the x range is always W wide and never negative; it ends at the newest time once that passes W, otherwise it is [0, W] |
| LoadGraph.YRange | src/ui/motorloadgraphwidget.cpp:210-217 | the lower bound is the larger of 0 and the least load minus 5; the upper bound is the larger of 50 and 1.2 times the greatest load; it therefore contains every non-negative load |
| LoadGraph.UpdateGraph | src/ui/motorloadgraphwidget.cpp:181-222 | with either series empty nothing changes; otherwise only the axes change, to the sliding x window and the fitted y range |
| LoadGraph.PreserveGraph | src/ui/motorloadgraphwidget.cpp:254-275 | the data and x range stay; with data present the y range is fitted again |
| LoadGraph.SlidingWindowFollows | src/ui/motorloadgraphwidget.cpp:197-201 | once a sample's time passes W, the redrawn x range is exactly the last W seconds up to it |
| LoadGraph.LoadsVisible | src/ui/motorloadgraphwidget.cpp:210-217 | every non-negative load lies inside the redrawn y range |
| RunController.Init | src/ui/mainwindow.cpp:8-29 | the constructed window is in ROTATION mode with the rotation strategy, nothing pressed, nothing running, no samples, and satisfies the invariant |
| RunController.ReachableIsValid | src/ui/mainwindow.cpp:8-29 | every state reachable from the constructed window by any sequence of handler calls satisfies the invariant |
| RunController.RunKeepsValid | src/ui/mainwindow.cpp:196-316 | any sequence of handler calls preserves the invariant |
| RunController.Step | src/ui/mainwindow.cpp:52-122 | every handler preserves the invariant |
| RunController.Get | src/ui/mainwindow.cpp:196-219 | GET enables SET and withdraws an earlier confirmation |
| RunController.FormSeconds | src/ui/mainwindow.cpp:748-755 | the three time fields give a total under a day that splits back into them |
| RunController.Set | src/ui/mainwindow.cpp:222-242 | SET is refused unless GET was pressed; otherwise it confirms the speed, and the rotations or the total seconds by mode |
| RunController.SetNeedsGet | src/ui/mainwindow.cpp:59-71 | after a field edit or a mode change, SET has no effect until GET is pressed again |
| RunController.GetThenSetConfirms | src/ui/mainwindow.cpp:230-238 | GET then SET confirms the form's speed and the mode's value |
| RunController.Edit | src/ui/mainwindow.cpp:104-122 | editing rotations, hours, minutes or seconds clears the GET flag and nothing else |
| RunController.ToggleMode | src/ui/mainwindow.cpp:587-622 | checking a mode's radio button installs that mode and the factory's strategy for it and clears the GET flag; unchecking does nothing |
| RunController.ToggleKeepsConfirmation | src/ui/mainwindow.cpp:593-595 | the mode change keeps a SET confirmation, so a following GO uses the rotation value as the time target |
| RunController.Go | src/ui/mainwindow.cpp:249-316 | GO is refused unless SET confirmed a valid pair; otherwise exactly one command is sent and the run starts with the confirmation spent |
| RunController.GoRefused | src/ui/mainwindow.cpp:251-259 | without a confirmation, or with a non-positive speed or value, GO changes nothing |
| RunController.GoStartsRun | src/ui/mainwindow.cpp:261-316 | a successful GO sends the command that parses to the confirmed pair in the current mode and direction, clears the graph, and arms total/elapsed or target/current |
| RunController.GoTwiceIsGoOnce | src/ui/mainwindow.cpp:314-315 | a second GO without a new SET changes nothing |
| RunController.FirstRunScenario | src/ui/mainwindow.cpp:222-265 | GET, SET with 100 RPM and 5 rotations, then GO clockwise sends exactly "RPM:100 ROT:5 DIR:CW" |
| RunController.Tick | src/ui/mainwindow.cpp:354-381 | a tick does nothing unless the timer is on and the motor is running unpaused in TIME mode |
| RunController.TicksCount | src/ui/mainwindow.cpp:357-359 | before the end, k ticks add exactly k seconds and change nothing else |
| RunController.LastTickStops | src/ui/mainwindow.cpp:362-376 | the tick that reaches the total stops the run and the timer and sends STOP; the counter shows the total unless the dialog resets the window |
| RunController.TimedRunLength | src/ui/mainwindow.cpp:276-279 | a timed run started by GO for n seconds is still running after n - 1 ticks and stopped after n |
| RunController.PausedTickIgnored | src/ui/mainwindow.cpp:357 | ticks while paused, stopped, in ROTATION mode or with the timer off change nothing |
| RunController.RefreshIsNoop | src/ui/mainwindow.cpp:1093-1095 | under the invariant, the clamp the time display writes back changes nothing |
| RunController.Refresh | src/ui/mainwindow.cpp:1088-1095 | in TIME mode with a non-negative total the counter ends in [0, total]; nothing but the counter changes |
| RunController.TimeCompletion | src/ui/mainwindow.cpp:817-857 | the time completion dialog is offered at most once per run; Ok resets the window and Cancel keeps it |
| RunController.RotationCompletion | src/ui/mainwindow.cpp:859-887 | Ok on the rotation completion dialog resets the window; Cancel keeps it |
| RunController.ResetToInitial | src/ui/mainwindow.cpp:889-928 | every run flag and counter goes back to its start value and the session is no longer ready; the mode, strategy, sent commands and graph data stay |
| RunController.Stop | src/ui/mainwindow.cpp:704-722 | STOP always sends STOP and pauses; the timer, the counters, the mode, the session and the graph are untouched |
| RunController.Reload | src/ui/mainwindow.cpp:976-1007 | RELOAD is refused unless paused; otherwise it sends RELOAD, resumes the run and restarts the timer in TIME mode |
| RunController.Close | src/ui/mainwindow.cpp:931-973 | CLOSE is refused unless paused and confirmed with Ok; otherwise it sends CLOSE, clears the run flags and counters, and resets the session; the completion flag and the graph stay |
| RunController.ResumeAndCloseNeedPause | src/ui/mainwindow.cpp:976-982 | RELOAD and CLOSE change nothing unless the motor is paused |
| RunController.StopThenReload | src/ui/mainwindow.cpp:985-990 | STOP then RELOAD resumes the run, with STOP and RELOAD sent in that order |
| RunController.StopThenClose | src/ui/mainwindow.cpp:949-962 | STOP then CLOSE with Ok leaves an idle window, counters at 0, and a session that must be greeted again |
| RunController.Disconnect | src/ui/mainwindow.cpp:468-486 | with the port open and the motor running, disconnecting resets the window; otherwise nothing in the run state changes |
| RunController.DisconnectWhileRunning | src/ui/mainwindow.cpp:480-483 | disconnecting a running motor stops it and clears session readiness |
| Inbound.CleanLines | src/ui/mainwindow.cpp:499-501 | every line kept is non-empty and trimmed; `Inbound.CleanLinesOne` and `Inbound.CleanLinesAppend` pin which lines come out |
| Inbound.CleanPart | src/ui/mainwindow.cpp:500-501 | a part contributes nothing exactly when it is all white space, and otherwise its trimmed text |
| Inbound.CleanLinesOne | src/ui/mainwindow.cpp:500-501 | a single part gives its trimmed text, or nothing when that is empty |
| Inbound.CleanLinesAppend | src/ui/mainwindow.cpp:499 | the lines of two runs of parts are the lines of the first followed by those of the second; with `Inbound.CleanLinesOne` this makes them the trimmed non-empty parts, in order |
| Inbound.InboundLines | src/ui/mainwindow.cpp:490-501 | the lines handed on are non-empty and have no white space at either end |
| Inbound.InboundIgnoresOuterTrim | src/ui/mainwindow.cpp:492-501 | trimming the whole text first changes nothing: the lines are those of the raw text's newline-separated parts |
| Inbound.PaddedLinesDelivered | src/ui/mainwindow.cpp:492-501 | lines sent with white-space margins that contain no newline arrive as the bare lines, in order |
| Inbound.CrLfLinesDelivered | src/ui/mainwindow.cpp:497-500 | lines ended by CR LF arrive without the carriage return, in order |
| Inbound.InboundRoundTrip | src/ui/mainwindow.cpp:492-501 | non-empty trimmed lines sent joined with newlines are delivered as exactly those lines, in order |
| Inbound.BlankCarriesNothing | src/ui/mainwindow.cpp:500-501 | white space alone delivers no line |
| RunController.TwoLinesInOrder | src/ui/mainwindow.cpp:497-503 | a delivery of two lines is handled as the first line, then the second |
| RunController.ApplyLoad | src/ui/mainwindow.cpp:514-523 | the invariant is kept; a LOAD line records the reading parsed from `Inbound.LoadText` and adds a sample; any other line changes nothing |
| RunController.ApplyTurn | src/ui/mainwindow.cpp:526-537 | the invariant is kept; a TURN line in ROTATION mode sets the count to `toInt()` of the field after the first colon; in TIME mode, or for any other line, nothing changes |
| RunController.ApplyEnd | src/ui/mainwindow.cpp:540-583 | the invariant is kept; DONE and STOPPED run their handlers; any other line changes nothing here |
| RunController.HandleSerialResponse | src/ui/mainwindow.cpp:490-584 | the invariant is kept, and text of white space alone changes nothing |
| RunController.DeliveredLinesHandled | src/ui/mainwindow.cpp:490-503 | clean lines sent joined by LF or by CR LF are handled exactly as those lines in order |
| RunController.Greet | src/ui/mainwindow.cpp:503-511 | the session classifies each line, READY is answered with HI, and any other line leaves the state unchanged |
| RunController.ReadyGreets | src/ui/mainwindow.cpp:503-505 | READY makes the session ready and sends HI, whatever the run state |
| Inbound.LoadText | src/ui/mainwindow.cpp:516-520 | the value holds no colon; it is the field after the first colon, less one trailing % exactly when the field has one |
| Inbound.LoadTextStripsPercent | src/ui/mainwindow.cpp:514-521 | "LOAD:x%" reads x for every colon-free x, and so does "LOAD:x" when x has no trailing % |
| Inbound.LoadTextStopsAtColon | src/ui/mainwindow.cpp:516 | the value stops at a second colon: "LOAD:x:y" reads x |
| Inbound.LoadTextDoubledPercent | src/ui/mainwindow.cpp:518-519 | only one percent sign is removed: "LOAD:x%%" reads "x%" |
| RunController.AddLoadSample | src/ui/mainwindow.cpp:800-814 | a sample is plotted only while running unpaused, at the seconds since GO (0 without a start time) |
| RunController.LoadIsPlotted | src/ui/mainwindow.cpp:521-522 | a LOAD line while running records the parsed reading and plots it as the newest sample |
| RunController.TurnSetsCount | src/ui/mainwindow.cpp:526-536 | TURN:n sets the rotation count to n in ROTATION mode and changes nothing in TIME mode |
| RunController.Done | src/ui/mainwindow.cpp:540-565 | DONE stops the run, the pause and the timer, whatever the dialog answer |
| RunController.DoneEndsRun | src/ui/mainwindow.cpp:540-544 | after a DONE line the motor is neither running nor paused and the timer is off |
| RunController.DoneFillsTime | src/ui/mainwindow.cpp:548-551 | DONE in TIME mode, answered with Cancel, leaves the elapsed counter at the total |
| RunController.Stopped | src/ui/mainwindow.cpp:566-582 | STOPPED pauses and stops the timer, sends nothing, and keeps the graph data, the counters, the mode and the session |
| RunController.StoppedPauses | src/ui/mainwindow.cpp:566-570 | after a STOPPED line the motor is paused and not running, and the timer is off |
| RunController.HandleLine | src/ui/mainwindow.cpp:503-583 | one received line keeps the invariant; the READY rule, then LOAD, TURN and DONE/STOPPED apply in that order (what each kind of line does is stated by RunController.ReadyGreets, LoadIsPlotted, TurnSetsCount, DoneEndsRun and StoppedPauses) |
| RunController.HandleLines | src/ui/mainwindow.cpp:499-583 | handling any number of lines in order preserves the invariant |

## Left out

- Serial I/O:
  - Opening and closing the port, and `on_connectButton_clicked` with its HELLO, are transport and are not modelled.
  - Serial error signals are not modelled.
  - `sendCommand`'s newline append is not modelled.
  - `sent` records what the window asks to send. The link drops it when the port is closed.
- Widgets and presentation are not modelled:
  - style sheets and message-box styling;
  - log formatting and `updateDateTime`;
  - `populateSerialPorts`;
  - circular-progress painting and `updateModeVisibility`;
  - the graph's labels and the standalone window's `closeEvent`.
- Button enabling (`setUIEnabled`, `setPausedUIState`) is not modelled. The model therefore allows event orders the UI prevents, such as GET while running. Every property is proved for those orders too.
- Timer scheduling is not modelled. Only the effect of one time-mode tick is, and the graph's 100 ms redraw is the function `LoadGraph.UpdateGraph`.
- The test-data generator is compiled out by default and is not modelled.
- `QString::toDouble` is a parameter of the line handler. Load values are reals, so NaN, infinities and floating-point rounding are not modelled.
- Each modal dialog's Ok/Cancel is the answer carried by the event that raised it. Several dialogs raised by one delivery share that answer.
- Every handler is treated as atomic. A modal dialog (`QMessageBox::exec` at src/ui/mainwindow.cpp:850, 880 and 947) runs a nested event loop, so serial deliveries and ticks that arrive while it is open are handled before its answer takes effect. For example, the last tick opens the time completion dialog; a DONE arriving meanwhile finds the dialog flag set and shows nothing; then Ok resets the window. The model applies each answer at once and does not model these interleavings.
- The wall clock (`currentSecsSinceEpoch`) is a parameter. The seconds-since-GO difference is taken exactly.
- `confirmedSpeed` and `confirmedValue` are not initialised by the constructor, so `RunController.Init` takes them as arguments.
- The widgets' value ranges are not modelled (rotation spin box up to 9999; hours 0-23; minutes and seconds 0-59). A form holds any integers; `RunController.FormSeconds` states its range result for combo-box values only.
- `processResponse`'s debug print is not modelled.
- RunArith.RotationProgress: integers are unbounded, so the 32-bit overflow of `current * 100` is not modelled. That overflow happens for counts above 21474836.
- RunArith.TimeDisplay: the same unbounded-integer reading applies, but a total under one day cannot overflow there.
- Partial-line reassembly is not modelled because the code has none. A line split across two deliveries is handled as two lines.
