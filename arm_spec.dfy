/**
 * The arm controller as values: the shared observables and each activity's local state
 * gathered in one `ArmState`, one function per activity giving the effect of one
 * iteration of its periodic loop, and `Run`, which plays a schedule of such iterations.
 *
 * Every iteration starts with the loop guard `!is_close_pressed()`: once `close` is set,
 * an activity does nothing more. The blocking "wait while the motor is RUNNING" of a
 * positioned move is the single event `MoveCompleted`, so an iteration is atomic.
 */
module ArmSpec {
  import opened Devices
  import opened Actions
  import opened LcdFormat

  datatype ArmState = ArmState(
    intent: Intent,                    // new_motors_status
    topLimitReached: bool,             // top_limit.top_limit_reached
    clockwiseLimitReached: bool,       // clockwise_limit.clockwise_limit_reached
    correctionInProgress: bool,        // correction.correction_in_progress
    clawUsed: bool,                    // claw_used.status (true while the claw is closed)
    close: bool,                       // close_condition.close
    rotationActual: RotationAction,    // rotation_actual, local to the rotation controller
    elevationActual: ElevationAction,  // elevation_actual, local to the elevation controller
    clawOpen: bool,                    // claw_open, local to the claw controller
    ledPrevious: bool,                 // previous, local to the LED reporter
    trace: seq<Event>)                 // the device calls made so far

  /** The state when the eight activities start, after calibration (main.c:578-582, 916, 997, 1077, 1123; the other shared flags start false as zero-initialised globals). */
  function Initial(): ArmState {
    ArmState(NEUTRAL_INTENT, false, false, false, false, false, RotateStop, ElevateStop, true, false, [])
  }

  /** Every duty cycle set in `events` is one its motor allows. */
  predicate DutiesAllowed(events: seq<Event>) {
    forall e | e in events && e.SetDutyCycle? :: AllowedDuty(e.motor, e.percent)
  }

  /** A recovery move: raise the correction flag, run to `setpoint` in `mode`, wait, cut power, lower the flag. */
  function RecoveryMove(m: Motor, setpoint: int, mode: MotorCommand): (move: seq<Event>)
    ensures OnlyCommands(move, m) && NoLedEvents(move)
    ensures |move| == 7 && move[0] == CorrectionFlag(true) && move[|move| - 1] == CorrectionFlag(false)
    ensures move[1] == SetPositionSp(m, setpoint) && move[2] == Command(m, mode) && move[3] == MoveCompleted(m)
    ensures move[4] == SetDutyCycle(m, 0) && move[5] == Command(m, RunDirect)
    ensures forall e | e in move && e.SetDutyCycle? :: e.percent == 0
  {
    [CorrectionFlag(true), SetPositionSp(m, setpoint), Command(m, mode), MoveCompleted(m),
     SetDutyCycle(m, 0), Command(m, RunDirect), CorrectionFlag(false)]
  }

  /** Closing the claw: drive it shut, then (after the timed sleep) cut power. */
  function ClawCloseMove(): (move: seq<Event>)
    ensures OnlyCommands(move, ClawMotor) && DutiesAllowed(move) && NoLedEvents(move)
    ensures |move| == 3 && move[0] == SetDutyCycle(ClawMotor, -CLAW_POWER) && move[|move| - 1] == SetDutyCycle(ClawMotor, 0)
    ensures move[1] == Command(ClawMotor, RunDirect)
  {
    [SetDutyCycle(ClawMotor, -CLAW_POWER), Command(ClawMotor, RunDirect), SetDutyCycle(ClawMotor, 0)]
  }

  /** Opening the claw: run to absolute position 0, wait, cut power. */
  function ClawOpenMove(): (move: seq<Event>)
    ensures OnlyCommands(move, ClawMotor) && DutiesAllowed(move) && NoLedEvents(move)
    ensures |move| == 5 && move[0] == SetPositionSp(ClawMotor, 0)
    ensures move[1] == Command(ClawMotor, RunAbsPos) && move[2] == MoveCompleted(ClawMotor)
    ensures move[3] == SetDutyCycle(ClawMotor, 0) && move[4] == Command(ClawMotor, RunDirect)
    ensures forall e | e in move && e.SetDutyCycle? :: e.percent == 0
  {
    [SetPositionSp(ClawMotor, 0), Command(ClawMotor, RunAbsPos), MoveCompleted(ClawMotor),
     SetDutyCycle(ClawMotor, 0), Command(ClawMotor, RunDirect)]
  }

  function LedsRed(): (writes: seq<Event>)
    ensures NoMotorEvents(writes)
  {
    [SetLed(LeftLed, RedLed, 255), SetLed(RightLed, RedLed, 255),
     SetLed(LeftLed, GreenLed, 0), SetLed(RightLed, GreenLed, 0)]
  }

  function LedsGreen(): (writes: seq<Event>)
    ensures NoMotorEvents(writes)
  {
    [SetLed(LeftLed, GreenLed, 255), SetLed(RightLed, GreenLed, 255),
     SetLed(LeftLed, RedLed, 0), SetLed(RightLed, RedLed, 0)]
  }

  /** Button sampler: publishes the intent of the keys, and latches `close` when BACK is down. */
  function ButtonsTick(s: ArmState, k: Keys): (r: ArmState)
    ensures r == s.(intent := r.intent, close := r.close)
    ensures s.close ==> r.close
    ensures r.close <==> s.close || k.back
  {
    if s.close then s
    else s.(intent := IntentFromKeys(k), close := if k.back then true else s.close)
  }

  /** Colour sampler: sets `topLimitReached` on a reflectance at or over the limit, never clears it. */
  function ColorTick(s: ArmState, reflection: int): (r: ArmState)
    ensures r == s.(topLimitReached := r.topLimitReached)
    ensures r.topLimitReached <==> s.topLimitReached || (!s.close && OverReflectionLimit(reflection))
  {
    if s.close then s
    else if OverReflectionLimit(reflection) then s.(topLimitReached := true)
    else s
  }

  /** Touch sampler: sets `clockwiseLimitReached` when the switch reads 1, never clears it. */
  function TouchTick(s: ArmState, touch: int): (r: ArmState)
    ensures r == s.(clockwiseLimitReached := r.clockwiseLimitReached)
    ensures r.clockwiseLimitReached <==> s.clockwiseLimitReached || (!s.close && TouchPressed(touch))
  {
    if s.close then s
    else if TouchPressed(touch) then s.(clockwiseLimitReached := true)
    else s
  }

  /**
   * Rotation controller, with the base at encoder `position`: a tripped touch switch
   * takes precedence, then the left soft limit, then a change of requested action.
   */
  function RotationTick(s: ArmState, position: int): (r: ArmState)
    ensures r == s.(clockwiseLimitReached := r.clockwiseLimitReached,
                    correctionInProgress := r.correctionInProgress,
                    rotationActual := r.rotationActual, trace := r.trace)
  {
    if s.close then s
    else if s.clockwiseLimitReached then
      s.(clockwiseLimitReached := false, correctionInProgress := false, rotationActual := RotateStop,
         trace := s.trace + RecoveryMove(RotationMotor, ROTATION_INIT_UNITS, RunRelPos))
    else if position < TOP_LEFT_POS then
      s.(correctionInProgress := false, rotationActual := RotateStop,
         trace := s.trace + RecoveryMove(RotationMotor, 0, RunAbsPos))
    else if s.rotationActual != s.intent.rotation then
      s.(rotationActual := s.intent.rotation,
         trace := s.trace + [SetDutyCycle(RotationMotor, RotationDuty(s.intent.rotation))])
    else s
  }

  /**
   * Elevation controller, with the arm at encoder `position`: a colour-sensor trip takes
   * precedence, then the bottom soft limit, then a change of requested action.
   */
  function ElevationTick(s: ArmState, position: int): (r: ArmState)
    ensures r == s.(topLimitReached := r.topLimitReached,
                    correctionInProgress := r.correctionInProgress,
                    elevationActual := r.elevationActual, trace := r.trace)
  {
    if s.close then s
    else if s.topLimitReached then
      s.(topLimitReached := false, correctionInProgress := false, elevationActual := ElevateStop,
         trace := s.trace + RecoveryMove(ElevationMotor, ELEVATION_INIT_UNITS, RunRelPos))
    else if position > TOP_BOTTOM_POS then
      s.(correctionInProgress := false, elevationActual := ElevateStop,
         trace := s.trace + RecoveryMove(ElevationMotor, 0, RunAbsPos))
    else if s.elevationActual != s.intent.elevation then
      s.(elevationActual := s.intent.elevation,
         trace := s.trace + [SetDutyCycle(ElevationMotor, ElevationDuty(s.intent.elevation))])
    else s
  }

  /** Claw controller: an ACTIVE request toggles the claw once and is acknowledged by resetting it to INACTIVE. */
  function ClawTick(s: ArmState): (r: ArmState)
    ensures r == s.(intent := s.intent.(claw := r.intent.claw), clawUsed := r.clawUsed,
                    clawOpen := r.clawOpen, trace := r.trace)
  {
    if s.close || s.intent.claw == Inactive then s
    else if s.clawOpen then
      s.(intent := s.intent.(claw := Inactive), clawOpen := false, clawUsed := true,
         trace := s.trace + ClawCloseMove())
    else
      s.(intent := s.intent.(claw := Inactive), clawOpen := true, clawUsed := false,
         trace := s.trace + ClawOpenMove())
  }

  /** LED reporter: on a change of the correction flag, turns both LEDs red (rising) or green (falling). */
  function LedTick(s: ArmState): (r: ArmState)
    ensures r == s.(ledPrevious := r.ledPrevious, trace := r.trace)
  {
    if s.close then s
    else if s.correctionInProgress && !s.ledPrevious then
      s.(ledPrevious := true, trace := s.trace + LedsRed())
    else if !s.correctionInProgress && s.ledPrevious then
      s.(ledPrevious := false, trace := s.trace + LedsGreen())
    else s
  }

  /** LCD reporter: redraws title, claw glyph and time on a screen of the given size. */
  function ReporterTick(s: ArmState, clock: WallClock, width: nat, height: nat): (r: ArmState)
    ensures r == s.(trace := r.trace)
  {
    if s.close then s
    else s.(trace := s.trace + Frame(s.clawUsed, clock, width, height))
  }

  /** One iteration of one activity, with the readings it takes from the hardware. */
  datatype Step =
    | SampleButtons(keys: Keys)
    | SampleColor(reflection: int)
    | SampleTouch(touch: int)
    | DriveRotation(rotationPosition: int)
    | DriveElevation(elevationPosition: int)
    | DriveClaw
    | ReportLeds
    | ReportLcd(clock: WallClock, width: nat, height: nat)

  function Apply(s: ArmState, step: Step): ArmState {
    match step
    case SampleButtons(k) => ButtonsTick(s, k)
    case SampleColor(v) => ColorTick(s, v)
    case SampleTouch(v) => TouchTick(s, v)
    case DriveRotation(p) => RotationTick(s, p)
    case DriveElevation(p) => ElevationTick(s, p)
    case DriveClaw => ClawTick(s)
    case ReportLeds => LedTick(s)
    case ReportLcd(c, w, h) => ReporterTick(s, c, w, h)
  }

  /** The state after a schedule of iterations, taken in order. */
  function Run(s: ArmState, steps: seq<Step>): ArmState
    decreases |steps|
  {
    if steps == [] then s else Run(Apply(s, steps[0]), steps[1..])
  }
}
