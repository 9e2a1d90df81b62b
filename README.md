# Robotic arm controller for the LEGO EV3 — a verified model of its periodic activities

The controller drives a three-motor LEGO EV3 arm:
- a base that rotates (port C), stopped clockwise by a touch switch;
- an arm that rises and lowers (port B), stopped at the top by a colour sensor;
- a claw (port A).

Eight periodic activities run concurrently and share a few flags:
- a button sampler turns the keypad into an intent: rotate, elevate, toggle the claw;
- two limit samplers latch the top and clockwise limit flags;
- three motor controllers act on the intent and run a recovery move whenever a limit is hit;
- an LED reporter turns both LEDs red when a correction starts and green when it ends;
- an LCD reporter draws a title, a glyph for the claw state and the wall-clock time.

The model treats one iteration of an activity's loop as one atomic *tick*. It is written twice:

- **Functions.** `ArmSpec` holds one pure function per tick over an `ArmState` value. `Run` plays any schedule of ticks.
- **Class.** `ArmController.Arm` is a class whose fields are the shared observables and each activity's local state. Each tick is a method that updates those fields step by step, as the C loop body does. Each method is proved to have exactly the effect of the matching `ArmSpec` function.

Every call the controller makes on a motor, an LED or the LCD is appended to a `trace` as an `Event`. Writes of the correction flag are logged too. Sensor values, key states, motor encoder positions, the local time and the screen size are inputs of the ticks. `ArmProperties` proves what the controller guarantees, both for a single tick and for every schedule of ticks.

Modules:
- `Wrappers`: the `Option` type.
- `Devices`: motors, LEDs and the trace events.
- `Actions`: requested actions, keypad rules, duty cycles and limit thresholds.
- `LcdFormat`: the reporter's `HH:MM:SS` text and claw glyph.
- `ArmSpec`: the state and the ticks as functions.
- `ArmProperties`: the lemmas.
- `ArmController`: the class.

## Model

| member | source | states |
|---|---|---|
| Actions.RotationFromKeys | main.c:815-826 | LEFT alone gives ROTATE_LEFT and RIGHT alone gives ROTATE_RIGHT. Both or neither give ROTATE_STOP. Each direction is stated as an if-and-only-if. |
| Actions.ElevationFromKeys | main.c:828-839 | UP alone gives RISE and DOWN alone gives LOWER. Both or neither give ELEVATE_STOP. Each is an if-and-only-if. |
| Actions.IntentFromKeys | main.c:814-848 | The published intent combines the two key rules, and the claw request is ACTIVE exactly when CENTER is pressed. |
| Actions.RotationDuty | main.c:969-979 | The duty for a new rotation request is one of {30, -30, 0}. It is positive exactly for ROTATE_RIGHT and negative exactly for ROTATE_LEFT. |
| Actions.ElevationDuty | main.c:1050-1060 | The duty for a new elevation request is one of {-30, 20, 0}. It is negative exactly for RISE and positive exactly for LOWER. |
| LcdFormat.TwoDigits | main.c:1179 | `%02d` of a number below 100 is two digits that read back as that number. |
| LcdFormat.TimeString | main.c:1176-1179 | The time text has 8 characters, so it fits the 9-byte buffer. It has colons at positions 2 and 5 and parses back to the hour, minute and second it was made from. |
| LcdFormat.ClawGlyph | main.c:1182-1186 | The glyph is a filled circle exactly when the claw is closed, and an outline otherwise. It is centred on the screen, with radius 35 and colour 1. |
| LcdFormat.Frame | main.c:1167-1187 | A refresh is: clear, then the title at (20,10), then the claw glyph of `ClawGlyph`, then the time text at x = 60, 20 pixels above the bottom. It touches no motor and no LED. |
| ArmSpec.RecoveryMove | main.c:925-946 | A recovery raises the correction flag first and lowers it last. In between it gives the set-point, issues the move command in the given mode, waits for the move to complete, cuts the power to duty 0 and puts the motor back in RUN_DIRECT. Every motor call in it addresses the one motor, and its only duty cycle is 0. |
| ArmSpec.ClawCloseMove | main.c:1087-1092 | Closing the claw addresses only the claw motor. It sets duty -40, starts the motor in RUN_DIRECT and ends by cutting the power to duty 0. |
| ArmSpec.ClawOpenMove | main.c:1097-1106 | Opening the claw gives set-point 0, runs to that absolute position, waits for the move, cuts the power to duty 0 and puts the motor back in RUN_DIRECT. It addresses only the claw motor, and its only duty cycle is 0. |
| ArmSpec.LedsRed | main.c:1135-1139 | The rising-edge LED writes touch no motor. |
| ArmSpec.LedsGreen | main.c:1141-1145 | The falling-edge LED writes touch no motor. |
| ArmSpec.ButtonsTick | main.c:813-857 | A button sample changes only the intent and `close`. `close` is never lowered, and it is set after the tick exactly when it was already set or BACK is pressed. |
| ArmSpec.ColorTick | main.c:870-880 | A colour sample changes only the top-limit flag. The flag ends set exactly when it was already set or the reflectance is at least 30, unless the arm is closed. |
| ArmSpec.TouchTick | main.c:894-904 | A touch sample changes only the clockwise-limit flag. The flag ends set exactly when it was already set or the switch reads 1, unless the arm is closed. |
| ArmSpec.RotationTick | main.c:919-984 | A rotation tick changes nothing but the clockwise flag, the correction flag, `rotation_actual` and the trace. |
| ArmSpec.ElevationTick | main.c:1000-1065 | An elevation tick changes nothing but the top flag, the correction flag, `elevation_actual` and the trace. |
| ArmSpec.ClawTick | main.c:1080-1118 | A claw tick changes nothing but the claw request, `claw_used`, `claw_open` and the trace. |
| ArmSpec.LedTick | main.c:1130-1149 | An LED tick changes nothing but `previous` and the trace. |
| ArmSpec.ReporterTick | main.c:1166-1187 | An LCD tick changes nothing but the trace. |
| ArmController.Arm.constructor | main.c:578-582 | The activities start from the neutral intent with every flag down, both motors' actions STOP, the claw open, `previous` false and nothing commanded. |
| ArmController.Arm.IsClosePressed | main.c:671-677 | The getter returns the current `close`. |
| ArmController.Arm.IsClockwiseLimitReached | main.c:679-684 | The getter returns the current clockwise-limit flag. |
| ArmController.Arm.IsTopLimitReached | main.c:686-692 | The getter returns the current top-limit flag. |
| ArmController.Arm.SampleButtons | main.c:813-857 | The in-place button sample has exactly the effect of `ArmSpec.ButtonsTick`. |
| ArmController.Arm.SampleColor | main.c:870-880 | The in-place colour sample has exactly the effect of `ArmSpec.ColorTick`. |
| ArmController.Arm.SampleTouch | main.c:894-904 | The in-place touch sample has exactly the effect of `ArmSpec.TouchTick`. |
| ArmController.Arm.StartRecovery | main.c:925-934 | It raises the correction flag and appends: flag up, set-point, the move command, move completed. |
| ArmController.Arm.EndRecovery | main.c:939-946 | It lowers the correction flag and appends: duty 0, run-direct, flag down. |
| ArmController.Arm.RecoverRotationFromSwitch | main.c:924-946 | The touch-switch recovery appends the recovery move by -350 in RUN_REL_POS. It clears the switch flag, leaves the correction flag down and sets `rotation_actual` to STOP. |
| ArmController.Arm.RecoverRotationFromSoftLimit | main.c:948-966 | The left soft-limit recovery appends the move to absolute position 0. It leaves the correction flag down and sets `rotation_actual` to STOP. |
| ArmController.Arm.StartRotating | main.c:968-981 | It appends the one duty-cycle call for the new request and sets `rotation_actual` to it. |
| ArmController.Arm.RecoverElevationFromSensor | main.c:1005-1027 | The colour-sensor recovery appends the recovery move by +100 in RUN_REL_POS. It clears the top flag, leaves the correction flag down and sets `elevation_actual` to STOP. |
| ArmController.Arm.RecoverElevationFromSoftLimit | main.c:1029-1047 | The bottom soft-limit recovery appends the move to absolute position 0. It leaves the correction flag down and sets `elevation_actual` to STOP. |
| ArmController.Arm.StartElevating | main.c:1049-1062 | It appends the one duty-cycle call for the new request and sets `elevation_actual` to it. |
| ArmController.Arm.DriveRotation | main.c:919-984 | The in-place rotation tick has exactly the effect of `ArmSpec.RotationTick`. |
| ArmController.Arm.DriveElevation | main.c:1000-1065 | The in-place elevation tick has exactly the effect of `ArmSpec.ElevationTick`. |
| ArmController.Arm.DriveClaw | main.c:1080-1118 | The in-place claw tick has exactly the effect of `ArmSpec.ClawTick`. |
| ArmController.Arm.CloseClaw | main.c:1086-1095 | Closing appends the close move (duty -40, run-direct, duty 0) and publishes the claw as closed and in use. |
| ArmController.Arm.OpenClaw | main.c:1096-1110 | Opening appends the open move (set-point 0, RUN_ABS_POS, wait, duty 0, run-direct) and publishes the claw as open. |
| ArmController.Arm.ReportLeds | main.c:1130-1149 | The in-place LED tick has exactly the effect of `ArmSpec.LedTick`. |
| ArmController.Arm.Redraw | main.c:1167-1187 | One redraw appends exactly the calls of `LcdFormat.Frame` for the current `claw_used`. |
| ArmController.Arm.ReportLcd | main.c:1166-1187 | The in-place LCD tick has exactly the effect of `ArmSpec.ReporterTick`. |
| ArmProperties.ButtonsSample | main.c:816-855 | On an open arm, one sample publishes exactly the intent of the keypad rules (`IntentFromKeys`): both-or-neither gives STOP, and CENTER gives ACTIVE. It sets `close` to BACK and commands nothing. |
| ArmProperties.ClosedArmIsInert | main.c:813-1166 | Once `close` is set, every schedule of ticks leaves the whole state unchanged: every loop stops. |
| ArmProperties.ApplyClose | main.c:851-855 | After any tick, `close` is set exactly when it was before or the tick was a button sample with BACK pressed. |
| ArmProperties.CloseOnlyByBack | main.c:851-855 | If `close` becomes set over a schedule, that schedule contains a button sample with BACK pressed. |
| ArmProperties.SamplersIdempotent | main.c:873-901 | Sampling the same colour or touch reading twice has the effect of sampling it once. |
| ArmProperties.ApplyTopLimit | main.c:1016-1019 | A set top-limit flag survives every tick except an elevation tick. |
| ArmProperties.ApplyClockwiseLimit | main.c:935-938 | A set clockwise-limit flag survives every tick except a rotation tick. |
| ArmProperties.TopLimitClearedOnlyByElevation | main.c:1016-1019 | If a set top-limit flag is cleared over a schedule, that schedule contains an elevation tick. |
| ArmProperties.ClockwiseLimitClearedOnlyByRotation | main.c:935-938 | If a set clockwise-limit flag is cleared over a schedule, that schedule contains a rotation tick. |
| ArmProperties.RotationPrecedence | main.c:924-981 | The touch-limit recovery (relative move by -350, flag cleared, STOP) comes first, then the soft-limit recovery (absolute move to 0, flag still down, STOP) when the position is below -400. Otherwise the tick sets exactly one duty, or none when the intent is unchanged, and leaves the limit flag down and the correction flag as it was. |
| ArmProperties.RotationRecoveryIgnoresIntent | main.c:924-966 | During a rotation recovery, the requested rotation has no influence on what the tick does. |
| ArmProperties.ElevationPrecedence | main.c:1005-1062 | The colour-limit recovery (relative move by +100, flag cleared, STOP) comes first, then the soft-limit recovery (absolute move to 0, flag still down, STOP) when the position is above 200. Otherwise the tick sets exactly one duty, or none when the intent is unchanged, and leaves the limit flag down and the correction flag as it was. |
| ArmProperties.ElevationRecoveryIgnoresIntent | main.c:1005-1047 | During an elevation recovery, the requested elevation has no influence on what the tick does. |
| ArmProperties.HoldRotationStep | main.c:968-981 | One step of a held rotation request keeps the request, `close` and the switch flag as they were. A rotation tick sets `rotation_actual` to the request, with one duty call only if the request is new. Any other step commands nothing. |
| ArmProperties.HoldElevationStep | main.c:1049-1062 | One step of a held elevation request keeps the request, `close` and the top flag as they were. An elevation tick sets `elevation_actual` to the request, with one duty call only if the request is new. Any other step commands nothing. |
| ArmProperties.HeldRotationCommandsOnce | main.c:968-981 | Hold one rotation request over any schedule of rotation ticks within the soft limit, button samples giving the same rotation and touch samples that do not trip. The duty is set at most once, and only if the request is new. Once a rotation tick has run, `rotation_actual` equals the request.
| ArmProperties.HeldElevationCommandsOnce | main.c:1049-1062 | Hold one elevation request over any schedule of elevation ticks within the soft limit, button samples giving the same elevation and colour samples under the limit. The duty is set at most once, and only if the request is new. Once an elevation tick has run, `elevation_actual` equals the request.
| ArmProperties.ApplyCorrection | main.c:924-1047 | No tick leaves the correction flag raised. |
| ArmProperties.CorrectionDownBetweenTicks | main.c:924-1047 | Over every schedule, the correction flag is down at every tick boundary. |
| ArmProperties.RotationTickDevices | main.c:919-984 | A rotation tick only appends to the trace. It addresses only the base motor, sets duties only from {30, -30, 0} and writes no LED. |
| ArmProperties.ElevationTickDevices | main.c:1000-1065 | An elevation tick only appends to the trace. It addresses only the arm motor, sets duties only from {-30, 20, 0} and writes no LED. |
| ArmProperties.ClawTickDevices | main.c:1080-1118 | A claw tick only appends to the trace. It addresses only the claw motor, sets duties only from {-40, 0} and writes no LED. |
| ArmProperties.LedTickDevices | main.c:1130-1149 | An LED tick only appends to the trace and never touches a motor. |
| ArmProperties.ReporterTickDevices | main.c:1166-1187 | An LCD tick only appends to the trace and touches neither a motor nor an LED. |
| ArmProperties.DutiesAllowedExtend | main.c:969-1060 | Appending events with allowed duties to a trace with allowed duties keeps every duty allowed. |
| ArmProperties.NoMotorEventsNoDuty | main.c:1134-1145 | Events that touch no motor set no disallowed duty. |
| ArmProperties.ApplyKeepsDutiesAllowed | main.c:919-1118 | Every tick preserves "every duty so far is one its motor allows". |
| ArmProperties.RunKeepsDutiesAllowed | main.c:919-1118 | Every schedule preserves "every duty so far is one its motor allows". |
| ArmProperties.EveryDutyAllowed | main.c:919-1118 | From the start of operation, every duty ever commanded is in its motor's set: rotation {30,-30,0}, elevation {-30,20,0}, claw {-40,0}. |
| ArmProperties.ClawToggle | main.c:1085-1114 | An ACTIVE claw tick flips `claw_open` and publishes `claw_used == !claw_open`. It resets the request to INACTIVE and issues the close or the open move. |
| ArmProperties.ServeCenterPress | main.c:1085-1114 | A CENTER press that is sampled and then served toggles the claw once. It publishes the new state, acknowledges the request and appends the close or the open move. |
| ArmProperties.ClawIdle | main.c:1085 | An INACTIVE claw tick changes nothing. |
| ArmProperties.ApplyKeepsClawConsistent | main.c:1089-1109 | Every tick preserves `claw_used == !claw_open`. |
| ArmProperties.RunKeepsClawConsistent | main.c:1089-1109 | Every schedule preserves `claw_used == !claw_open`, so the reporter's glyph always tells the truth. |
| ArmProperties.ClawGripCycle | main.c:1085-1114 | Two CENTER presses, each sampled and served, close the claw and open it again. The claw ends open and reported open, with the request INACTIVE and last position setpoint 0. |
| ArmProperties.LastSetpointUnchanged | main.c:1097 | Appending events that give a motor no setpoint leaves its last setpoint unchanged. |
| ArmProperties.LedTickTracksCorrection | main.c:1130-1146 | After an LED tick `previous` equals the flag read. A rising edge writes the red pattern and a falling edge the green one; an unchanged flag writes nothing. |
| ArmProperties.LedLevelSnoc | main.c:1135-1145 | One more LED write sets the level of its own channel and side, and leaves every other level as it was. |
| ArmProperties.LedLevelUnchanged | main.c:1134-1146 | Events that write no LED leave every LED level unchanged. |
| ArmProperties.LedWritesShow | main.c:1135-1145 | The four writes of a transition leave both LEDs showing its colour at 255, with the other colour at 0. |
| ArmProperties.LedsConsistentUnchanged | main.c:1130-1149 | A tick that writes no LED and keeps `previous` keeps the LEDs consistent with `previous`. |
| ArmProperties.ApplyKeepsLedsConsistent | main.c:1130-1149 | Every tick keeps the LEDs consistent with `previous`: red when it is true, and green or never written when it is false. |
| ArmProperties.RunKeepsLedsConsistent | main.c:1130-1149 | Every schedule keeps the LEDs consistent with the reporter's `previous`. |
| ArmProperties.LedsReflectCorrection | main.c:1130-1149 | After an LED tick from a consistent state, the LEDs show red exactly when a correction is in progress. |
| ArmProperties.NoLedEventsExtend | main.c:1134-1145 | Appending events with no LED write to a trace with none leaves a trace with none. |
| ArmProperties.ApplyKeepsLedsDark | main.c:1130-1149 | From a boundary where the correction flag is down, `previous` is false and no LED was written, every tick reaches another such boundary. |
| ArmProperties.RunKeepsLedsDark | main.c:1130-1149 | Every schedule keeps the flag down, `previous` false and the LEDs unwritten. |
| ArmProperties.LedsNeverWrittenBetweenTicks | main.c:1130-1149 | Because ticks are atomic, no schedule from the start writes an LED, and `previous` stays false. This is a limit of the model, recorded under the `ArmSpec.LedTick` line of what is left out. |
| ArmProperties.ReporterDraws | main.c:1166-1187 | A refresh appends four calls: clear, the title, a filled circle exactly when the claw is closed, and a time text that parses back to the clock read. |

The model follows the code in `main.c` as written on these points:
- On an intent change, the rotation and elevation controllers only set the duty cycle. They do not re-issue RUN_DIRECT (main.c:969-979, 1050-1060).
- Closing the claw ends with duty 0 and no RUN_DIRECT (main.c:1092).
- The LED reporter's header comment says the LEDs are green in normal operation (main.c:263-267), but nothing in `main.c` turns them green before the reporter's first falling edge. `LedsConsistent` therefore also accepts LEDs that were never written.
- The return values of the device calls inside a tick are not checked, so a failing call does not set `close`.

## Left out

- Threads, SCHED_FIFO priorities, and mutex creation and destruction (main.c:434-631): ticks are atomic, and a schedule is any sequence of ticks. Interleavings inside a tick are not modelled, so no claim relates the single correction flag to "some controller is recovering" across threads.
- Periodic timing (`clock_nanosleep`, `incr_timespec`), `usleep(SUSPENSION_TIME)` and the 500 ms claw close sleep (main.c:1091): these are wall-clock behaviour and leave no trace event.
- The RUNNING polling loops (main.c:932-934, 956-958, 1013-1015, 1038-1040, 1101-1103): each is the single event `MoveCompleted(m)`, because only the hardware makes them terminate.
- The calibration threads (main.c:695-805) and device discovery, initialisation and shutdown in `main` (main.c:317-408, 634-666), including the null checks at main.c:341 and main.c:355: these are hardware wait loops and I/O error plumbing.
- `time`/`localtime`, and the LCD and LED drivers: the clock reading is an input (`WallClock`), and each driver call is a trace event.
- `EV3_X_LCD` and `EV3_Y_LCD` come from the device library's header, which is not part of this model. The screen width and height are therefore parameters of the LCD tick.
- The six keys are one `Keys` sample per tick. This is exact: in one iteration the button sampler reads each key at most once (RIGHT at main.c:817 or 822, DOWN at 830 or 835, BACK at 852).
- ArmProperties.CorrectionDownBetweenTicks: because ticks are atomic, the raised correction flag is visible only inside a tick, as a `CorrectionFlag(true)` event in the trace, not in any state between ticks.
- ArmSpec.LedTick: because ticks are atomic, the correction flag is down whenever the LED reporter runs. So in the model the reporter never writes an LED (`ArmProperties.LedsNeverWrittenBetweenTicks`). In the program it turns the LEDs red while a recovery waits for its move (main.c:930-934, 1134-1139). `ApplyKeepsLedsConsistent`, `RunKeepsLedsConsistent` and `LedsReflectCorrection` state what the reporter does from any state, including a raised flag, but no schedule of atomic ticks reaches one.
