/**
 * What the arm controller guarantees, stated about single iterations and about every
 * schedule of iterations of the eight activities.
 */
module ArmProperties {
  import opened Devices
  import opened Wrappers
  import opened Actions
  import opened LcdFormat
  import opened ArmSpec

  // ---------------------------------------------------------------------------------
  // Observations of a trace
  // ---------------------------------------------------------------------------------

  /** The intensity last written to one channel of one LED, if it was ever written. */
  function LedLevel(trace: seq<Event>, side: LedSide, channel: LedColor): Option<int>
    decreases |trace|
  {
    if trace == [] then None
    else
      var e := trace[|trace| - 1];
      if e.SetLed? && e.side == side && e.channel == channel then Some(e.intensity)
      else LedLevel(trace[..|trace| - 1], side, channel)
  }

  /** Both LEDs are fully red (and not green), or fully green (and not red). */
  predicate LedsShow(trace: seq<Event>, red: bool) {
    forall side: LedSide, channel: LedColor ::
      LedLevel(trace, side, channel) == Some(if (channel == RedLed) == red then 255 else 0)
  }

  /** No LED has been written yet. */
  predicate LedsUntouched(trace: seq<Event>) {
    forall side: LedSide, channel: LedColor :: LedLevel(trace, side, channel) == None
  }

  /** The LED reporter's `previous` agrees with what the LEDs show. */
  predicate LedsConsistent(s: ArmState) {
    if s.ledPrevious then LedsShow(s.trace, true)
    else LedsShow(s.trace, false) || LedsUntouched(s.trace)
  }

  /** The position setpoint last given to motor `m`, if any. */
  function LastSetpoint(trace: seq<Event>, m: Motor): Option<int>
    decreases |trace|
  {
    if trace == [] then None
    else
      var e := trace[|trace| - 1];
      if e.SetPositionSp? && e.motor == m then Some(e.position)
      else LastSetpoint(trace[..|trace| - 1], m)
  }

  // ---------------------------------------------------------------------------------
  // Button sampler
  // ---------------------------------------------------------------------------------

  /** One sample publishes exactly the intent of the keys and touches nothing else but `close`. */
  lemma ButtonsSample(s: ArmState, k: Keys)
    requires !s.close
    ensures ButtonsTick(s, k).intent == IntentFromKeys(k)
    ensures ButtonsTick(s, k).intent.rotation == RotateStop <==> k.left == k.right
    ensures ButtonsTick(s, k).intent.elevation == ElevateStop <==> k.up == k.down
    ensures ButtonsTick(s, k).intent.claw == Active <==> k.center
    ensures ButtonsTick(s, k).close == k.back
    ensures ButtonsTick(s, k).trace == s.trace
  {
  }

  /** A closed arm ignores every iteration of every activity: `close` never reverts and nothing more is commanded. */
  lemma {:induction false} ClosedArmIsInert(s: ArmState, steps: seq<Step>)
    requires s.close
    ensures Run(s, steps) == s
    decreases |steps|
  {
    if steps != [] {
      var s1 := Apply(s, steps[0]);
      assert s1 == s;
      ClosedArmIsInert(s1, steps[1..]);
    }
  }

  /** Only a button sample with BACK pressed raises `close`; nothing lowers it. */
  lemma ApplyClose(s: ArmState, step: Step)
    ensures Apply(s, step).close <==> s.close || (step.SampleButtons? && step.keys.back)
  {
    match step
    case SampleButtons(k) =>
    case SampleColor(v) =>
    case SampleTouch(v) =>
    case DriveRotation(p) => assert RotationTick(s, p).close == s.close;
    case DriveElevation(p) => assert ElevationTick(s, p).close == s.close;
    case DriveClaw => assert ClawTick(s).close == s.close;
    case ReportLeds => assert LedTick(s).close == s.close;
    case ReportLcd(c, w, h) => assert ReporterTick(s, c, w, h).close == s.close;
  }

  /** `close` becomes true only through a button sample with BACK pressed. */
  lemma {:induction false} CloseOnlyByBack(s: ArmState, steps: seq<Step>)
    requires !s.close && Run(s, steps).close
    ensures exists i :: 0 <= i < |steps| && steps[i].SampleButtons? && steps[i].keys.back
    decreases |steps|
  {
    assert steps != [];
    var s1 := Apply(s, steps[0]);
    ApplyClose(s, steps[0]);
    if s1.close {
      assert steps[0].SampleButtons? && steps[0].keys.back;
    } else {
      CloseOnlyByBack(s1, steps[1..]);
      var i :| 0 <= i < |steps[1..]| && steps[1..][i].SampleButtons? && steps[1..][i].keys.back;
      assert steps[i + 1] == steps[1..][i];
    }
  }

  // ---------------------------------------------------------------------------------
  // Limit samplers
  // ---------------------------------------------------------------------------------

  /** Sampling the same reading twice has the effect of sampling it once. */
  lemma SamplersIdempotent(s: ArmState, reflection: int, touch: int)
    ensures ColorTick(ColorTick(s, reflection), reflection) == ColorTick(s, reflection)
    ensures TouchTick(TouchTick(s, touch), touch) == TouchTick(s, touch)
  {
  }

  /** Only the elevation controller clears the top-limit flag. */
  lemma ApplyTopLimit(s: ArmState, step: Step)
    requires s.topLimitReached && !step.DriveElevation?
    ensures Apply(s, step).topLimitReached
  {
    match step
    case SampleButtons(k) =>
    case SampleColor(v) =>
    case SampleTouch(v) =>
    case DriveRotation(p) => assert RotationTick(s, p).topLimitReached == s.topLimitReached;
    case DriveClaw => assert ClawTick(s).topLimitReached == s.topLimitReached;
    case ReportLeds => assert LedTick(s).topLimitReached == s.topLimitReached;
    case ReportLcd(c, w, h) => assert ReporterTick(s, c, w, h).topLimitReached == s.topLimitReached;
  }

  /** Only the rotation controller clears the clockwise-limit flag. */
  lemma ApplyClockwiseLimit(s: ArmState, step: Step)
    requires s.clockwiseLimitReached && !step.DriveRotation?
    ensures Apply(s, step).clockwiseLimitReached
  {
    match step
    case SampleButtons(k) =>
    case SampleColor(v) =>
    case SampleTouch(v) =>
    case DriveElevation(p) => assert ElevationTick(s, p).clockwiseLimitReached == s.clockwiseLimitReached;
    case DriveClaw => assert ClawTick(s).clockwiseLimitReached == s.clockwiseLimitReached;
    case ReportLeds => assert LedTick(s).clockwiseLimitReached == s.clockwiseLimitReached;
    case ReportLcd(c, w, h) => assert ReporterTick(s, c, w, h).clockwiseLimitReached == s.clockwiseLimitReached;
  }

  /** Once set, the top-limit flag is cleared by nothing but an iteration of the elevation controller. */
  lemma {:induction false} TopLimitClearedOnlyByElevation(s: ArmState, steps: seq<Step>)
    requires s.topLimitReached && !Run(s, steps).topLimitReached
    ensures exists i :: 0 <= i < |steps| && steps[i].DriveElevation?
    decreases |steps|
  {
    assert steps != [];
    var s1 := Apply(s, steps[0]);
    if !s1.topLimitReached {
      if !steps[0].DriveElevation? {
        ApplyTopLimit(s, steps[0]);
      }
    } else {
      TopLimitClearedOnlyByElevation(s1, steps[1..]);
      var i :| 0 <= i < |steps[1..]| && steps[1..][i].DriveElevation?;
      assert steps[i + 1] == steps[1..][i];
    }
  }

  /** Once set, the clockwise-limit flag is cleared by nothing but an iteration of the rotation controller. */
  lemma {:induction false} ClockwiseLimitClearedOnlyByRotation(s: ArmState, steps: seq<Step>)
    requires s.clockwiseLimitReached && !Run(s, steps).clockwiseLimitReached
    ensures exists i :: 0 <= i < |steps| && steps[i].DriveRotation?
    decreases |steps|
  {
    assert steps != [];
    var s1 := Apply(s, steps[0]);
    if !s1.clockwiseLimitReached {
      if !steps[0].DriveRotation? {
        ApplyClockwiseLimit(s, steps[0]);
      }
    } else {
      ClockwiseLimitClearedOnlyByRotation(s1, steps[1..]);
      var i :| 0 <= i < |steps[1..]| && steps[1..][i].DriveRotation?;
      assert steps[i + 1] == steps[1..][i];
    }
  }

  // ---------------------------------------------------------------------------------
  // Rotation and elevation controllers
  // ---------------------------------------------------------------------------------

  /** The three-way precedence of one rotation iteration. */
  lemma RotationPrecedence(s: ArmState, position: int)
    requires !s.close
    ensures s.clockwiseLimitReached ==>
      var r := RotationTick(s, position);
      r.trace == s.trace + RecoveryMove(RotationMotor, ROTATION_INIT_UNITS, RunRelPos) &&
      !r.clockwiseLimitReached && !r.correctionInProgress && r.rotationActual == RotateStop
    ensures !s.clockwiseLimitReached && position < TOP_LEFT_POS ==>
      var r := RotationTick(s, position);
      r.trace == s.trace + RecoveryMove(RotationMotor, 0, RunAbsPos) &&
      !r.clockwiseLimitReached && !r.correctionInProgress && r.rotationActual == RotateStop
    ensures !s.clockwiseLimitReached && position >= TOP_LEFT_POS ==>
      var r := RotationTick(s, position);
      !r.clockwiseLimitReached && r.correctionInProgress == s.correctionInProgress &&
      r.rotationActual == s.intent.rotation &&
      r.trace == s.trace + (if s.rotationActual == s.intent.rotation then []
                            else [SetDutyCycle(RotationMotor, RotationDuty(s.intent.rotation))])
  {
  }

  /** During a rotation recovery the requested action is observed but not applied. */
  lemma RotationRecoveryIgnoresIntent(s: ArmState, position: int, next: RotationAction)
    requires s.clockwiseLimitReached || position < TOP_LEFT_POS
    ensures RotationTick(s.(intent := s.intent.(rotation := next)), position)
         == RotationTick(s, position).(intent := s.intent.(rotation := next))
  {
  }

  /** The three-way precedence of one elevation iteration. */
  lemma ElevationPrecedence(s: ArmState, position: int)
    requires !s.close
    ensures s.topLimitReached ==>
      var r := ElevationTick(s, position);
      r.trace == s.trace + RecoveryMove(ElevationMotor, ELEVATION_INIT_UNITS, RunRelPos) &&
      !r.topLimitReached && !r.correctionInProgress && r.elevationActual == ElevateStop
    ensures !s.topLimitReached && position > TOP_BOTTOM_POS ==>
      var r := ElevationTick(s, position);
      r.trace == s.trace + RecoveryMove(ElevationMotor, 0, RunAbsPos) &&
      !r.topLimitReached && !r.correctionInProgress && r.elevationActual == ElevateStop
    ensures !s.topLimitReached && position <= TOP_BOTTOM_POS ==>
      var r := ElevationTick(s, position);
      !r.topLimitReached && r.correctionInProgress == s.correctionInProgress &&
      r.elevationActual == s.intent.elevation &&
      r.trace == s.trace + (if s.elevationActual == s.intent.elevation then []
                            else [SetDutyCycle(ElevationMotor, ElevationDuty(s.intent.elevation))])
  {
  }

  /** During an elevation recovery the requested action is observed but not applied. */
  lemma ElevationRecoveryIgnoresIntent(s: ArmState, position: int, next: ElevationAction)
    requires s.topLimitReached || position > TOP_BOTTOM_POS
    ensures ElevationTick(s.(intent := s.intent.(elevation := next)), position)
         == ElevationTick(s, position).(intent := s.intent.(elevation := next))
  {
  }

  /**
   * A step of a schedule in which the operator keeps holding the keys for `request`: a button
   * sample giving the same rotation without BACK, a touch sample that does not trip the
   * switch, or a rotation iteration within the soft limit.
   */
  predicate HoldsRotation(step: Step, request: RotationAction) {
    match step
    case SampleButtons(k) => RotationFromKeys(k.left, k.right) == request && !k.back
    case SampleTouch(t) => !TouchPressed(t)
    case DriveRotation(p) => p >= TOP_LEFT_POS
    case _ => false
  }

  /** The schedule contains an iteration of the rotation controller. */
  predicate RotationServed(steps: seq<Step>) {
    exists step | step in steps :: step.DriveRotation?
  }

  /** One step of a held rotation request. */
  lemma HoldRotationStep(s: ArmState, step: Step)
    requires !s.close && !s.clockwiseLimitReached && HoldsRotation(step, s.intent.rotation)
    ensures var r := Apply(s, step);
      !r.close && !r.clockwiseLimitReached && r.intent.rotation == s.intent.rotation &&
      r.rotationActual == (if step.DriveRotation? then s.intent.rotation else s.rotationActual) &&
      r.trace == s.trace + (if step.DriveRotation? && s.rotationActual != s.intent.rotation
                            then [SetDutyCycle(RotationMotor, RotationDuty(s.intent.rotation))] else [])
  {
    match step
    case DriveRotation(p) =>
    case SampleButtons(k) =>
    case SampleTouch(v) =>
  }

  /**
   * Holding one rotation request, with the samplers running in between, sets the duty cycle
   * at most once, at the first rotation iteration, and only if the request is new; once
   * served, `rotation_actual` is the request.
   */
  lemma {:induction false} HeldRotationCommandsOnce(s: ArmState, steps: seq<Step>)
    requires !s.close && !s.clockwiseLimitReached
    requires forall i | 0 <= i < |steps| :: HoldsRotation(steps[i], s.intent.rotation)
    ensures Run(s, steps).intent.rotation == s.intent.rotation
    ensures Run(s, steps).rotationActual == if RotationServed(steps) then s.intent.rotation else s.rotationActual
    ensures Run(s, steps).trace
         == s.trace + (if RotationServed(steps) && s.rotationActual != s.intent.rotation
                       then [SetDutyCycle(RotationMotor, RotationDuty(s.intent.rotation))] else [])
    decreases |steps|
  {
    if steps == [] {
      assert !RotationServed(steps);
    } else {
      var rest := steps[1..];
      assert steps == [steps[0]] + rest;
      assert forall i | 0 <= i < |rest| :: rest[i] == steps[i + 1];
      assert RotationServed(steps) <==> steps[0].DriveRotation? || RotationServed(rest) by {
        assert steps[0] in steps;
        if RotationServed(rest) {
          var step :| step in rest && step.DriveRotation?;
          assert step in steps;
        }
      }
      HoldRotationStep(s, steps[0]);
      HeldRotationCommandsOnce(Apply(s, steps[0]), rest);
    }
  }

  /**
   * A step of a schedule in which the operator keeps holding the keys for `request`: a button
   * sample giving the same elevation without BACK, a colour sample under the reflectance
   * limit, or an elevation iteration within the soft limit.
   */
  predicate HoldsElevation(step: Step, request: ElevationAction) {
    match step
    case SampleButtons(k) => ElevationFromKeys(k.up, k.down) == request && !k.back
    case SampleColor(v) => !OverReflectionLimit(v)
    case DriveElevation(p) => p <= TOP_BOTTOM_POS
    case _ => false
  }

  /** The schedule contains an iteration of the elevation controller. */
  predicate ElevationServed(steps: seq<Step>) {
    exists step | step in steps :: step.DriveElevation?
  }

  /** One step of a held elevation request. */
  lemma HoldElevationStep(s: ArmState, step: Step)
    requires !s.close && !s.topLimitReached && HoldsElevation(step, s.intent.elevation)
    ensures var r := Apply(s, step);
      !r.close && !r.topLimitReached && r.intent.elevation == s.intent.elevation &&
      r.elevationActual == (if step.DriveElevation? then s.intent.elevation else s.elevationActual) &&
      r.trace == s.trace + (if step.DriveElevation? && s.elevationActual != s.intent.elevation
                            then [SetDutyCycle(ElevationMotor, ElevationDuty(s.intent.elevation))] else [])
  {
    match step
    case DriveElevation(p) =>
    case SampleButtons(k) =>
    case SampleColor(v) =>
  }

  /**
   * Holding one elevation request, with the samplers running in between, sets the duty cycle
   * at most once, at the first elevation iteration, and only if the request is new; once
   * served, `elevation_actual` is the request.
   */
  lemma {:induction false} HeldElevationCommandsOnce(s: ArmState, steps: seq<Step>)
    requires !s.close && !s.topLimitReached
    requires forall i | 0 <= i < |steps| :: HoldsElevation(steps[i], s.intent.elevation)
    ensures Run(s, steps).intent.elevation == s.intent.elevation
    ensures Run(s, steps).elevationActual == if ElevationServed(steps) then s.intent.elevation else s.elevationActual
    ensures Run(s, steps).trace
         == s.trace + (if ElevationServed(steps) && s.elevationActual != s.intent.elevation
                       then [SetDutyCycle(ElevationMotor, ElevationDuty(s.intent.elevation))] else [])
    decreases |steps|
  {
    if steps == [] {
      assert !ElevationServed(steps);
    } else {
      var rest := steps[1..];
      assert steps == [steps[0]] + rest;
      assert forall i | 0 <= i < |rest| :: rest[i] == steps[i + 1];
      assert ElevationServed(steps) <==> steps[0].DriveElevation? || ElevationServed(rest) by {
        assert steps[0] in steps;
        if ElevationServed(rest) {
          var step :| step in rest && step.DriveElevation?;
          assert step in steps;
        }
      }
      HoldElevationStep(s, steps[0]);
      HeldElevationCommandsOnce(Apply(s, steps[0]), rest);
    }
  }

  /** No iteration leaves the correction flag raised. */
  lemma ApplyCorrection(s: ArmState, step: Step)
    requires !s.correctionInProgress
    ensures !Apply(s, step).correctionInProgress
  {
    match step
    case SampleButtons(k) =>
    case SampleColor(v) =>
    case SampleTouch(v) =>
    case DriveRotation(p) =>
    case DriveElevation(p) =>
    case DriveClaw => assert ClawTick(s).correctionInProgress == s.correctionInProgress;
    case ReportLeds => assert LedTick(s).correctionInProgress == s.correctionInProgress;
    case ReportLcd(c, w, h) => assert ReporterTick(s, c, w, h).correctionInProgress == s.correctionInProgress;
  }

  /** The correction flag is down at the end of every iteration, so it is down between any two. */
  lemma {:induction false} CorrectionDownBetweenTicks(s: ArmState, steps: seq<Step>)
    requires !s.correctionInProgress
    ensures !Run(s, steps).correctionInProgress
    decreases |steps|
  {
    if steps != [] {
      ApplyCorrection(s, steps[0]);
      CorrectionDownBetweenTicks(Apply(s, steps[0]), steps[1..]);
    }
  }

  // ---------------------------------------------------------------------------------
  // Which devices an iteration touches
  // ---------------------------------------------------------------------------------

  /** The rotation controller only appends calls on the base motor, at allowed duties, and never a LED write. */
  lemma RotationTickDevices(s: ArmState, position: int)
    ensures var r := RotationTick(s, position);
      s.trace <= r.trace && OnlyCommands(r.trace[|s.trace|..], RotationMotor) &&
      DutiesAllowed(r.trace[|s.trace|..]) && NoLedEvents(r.trace[|s.trace|..])
  {
    var r := RotationTick(s, position);
    if s.close || (!s.clockwiseLimitReached && position >= TOP_LEFT_POS && s.rotationActual == s.intent.rotation) {
      assert r.trace[|s.trace|..] == [];
    } else if s.clockwiseLimitReached {
      assert r.trace[|s.trace|..] == RecoveryMove(RotationMotor, ROTATION_INIT_UNITS, RunRelPos);
    } else if position < TOP_LEFT_POS {
      assert r.trace[|s.trace|..] == RecoveryMove(RotationMotor, 0, RunAbsPos);
    } else {
      assert r.trace[|s.trace|..] == [SetDutyCycle(RotationMotor, RotationDuty(s.intent.rotation))];
    }
  }

  /** The elevation controller only appends calls on the arm motor, at allowed duties, and never a LED write. */
  lemma ElevationTickDevices(s: ArmState, position: int)
    ensures var r := ElevationTick(s, position);
      s.trace <= r.trace && OnlyCommands(r.trace[|s.trace|..], ElevationMotor) &&
      DutiesAllowed(r.trace[|s.trace|..]) && NoLedEvents(r.trace[|s.trace|..])
  {
    var r := ElevationTick(s, position);
    if s.close || (!s.topLimitReached && position <= TOP_BOTTOM_POS && s.elevationActual == s.intent.elevation) {
      assert r.trace[|s.trace|..] == [];
    } else if s.topLimitReached {
      assert r.trace[|s.trace|..] == RecoveryMove(ElevationMotor, ELEVATION_INIT_UNITS, RunRelPos);
    } else if position > TOP_BOTTOM_POS {
      assert r.trace[|s.trace|..] == RecoveryMove(ElevationMotor, 0, RunAbsPos);
    } else {
      assert r.trace[|s.trace|..] == [SetDutyCycle(ElevationMotor, ElevationDuty(s.intent.elevation))];
    }
  }

  /** The claw controller only appends calls on the claw motor, at allowed duties, and never a LED write. */
  lemma ClawTickDevices(s: ArmState)
    ensures var r := ClawTick(s);
      s.trace <= r.trace && OnlyCommands(r.trace[|s.trace|..], ClawMotor) &&
      DutiesAllowed(r.trace[|s.trace|..]) && NoLedEvents(r.trace[|s.trace|..])
  {
    var r := ClawTick(s);
    if s.close || s.intent.claw == Inactive {
      assert r.trace[|s.trace|..] == [];
    } else if s.clawOpen {
      assert r.trace[|s.trace|..] == ClawCloseMove();
    } else {
      assert r.trace[|s.trace|..] == ClawOpenMove();
    }
  }

  /** The LED reporter never touches a motor. */
  lemma LedTickDevices(s: ArmState)
    ensures var r := LedTick(s);
      s.trace <= r.trace && NoMotorEvents(r.trace[|s.trace|..])
  {
    var r := LedTick(s);
    if s.close || s.correctionInProgress == s.ledPrevious {
      assert r.trace[|s.trace|..] == [];
    } else if s.correctionInProgress {
      assert r.trace[|s.trace|..] == LedsRed();
    } else {
      assert r.trace[|s.trace|..] == LedsGreen();
    }
  }

  /** The LCD reporter touches neither a motor nor a LED. */
  lemma ReporterTickDevices(s: ArmState, clock: WallClock, width: nat, height: nat)
    ensures var r := ReporterTick(s, clock, width, height);
      s.trace <= r.trace && NoMotorEvents(r.trace[|s.trace|..]) && NoLedEvents(r.trace[|s.trace|..])
  {
    var r := ReporterTick(s, clock, width, height);
    if s.close {
      assert r.trace[|s.trace|..] == [];
    } else {
      assert r.trace[|s.trace|..] == Frame(s.clawUsed, clock, width, height);
    }
  }

  // ---------------------------------------------------------------------------------
  // Duty cycles over a whole schedule
  // ---------------------------------------------------------------------------------

  lemma DutiesAllowedExtend(a: seq<Event>, b: seq<Event>)
    requires a <= b && DutiesAllowed(a) && DutiesAllowed(b[|a|..])
    ensures DutiesAllowed(b)
  {
    assert b == a + b[|a|..];
  }

  lemma NoMotorEventsNoDuty(events: seq<Event>)
    requires NoMotorEvents(events)
    ensures DutiesAllowed(events)
  {
  }

  /** No iteration of any activity sets a duty cycle outside its motor's allowed set. */
  lemma ApplyKeepsDutiesAllowed(s: ArmState, step: Step)
    requires DutiesAllowed(s.trace)
    ensures DutiesAllowed(Apply(s, step).trace)
  {
    match step
    case SampleButtons(k) =>
    case SampleColor(v) =>
    case SampleTouch(v) =>
    case DriveRotation(p) =>
      RotationTickDevices(s, p);
      DutiesAllowedExtend(s.trace, RotationTick(s, p).trace);
    case DriveElevation(p) =>
      ElevationTickDevices(s, p);
      DutiesAllowedExtend(s.trace, ElevationTick(s, p).trace);
    case DriveClaw =>
      ClawTickDevices(s);
      DutiesAllowedExtend(s.trace, ClawTick(s).trace);
    case ReportLeds =>
      var r := LedTick(s);
      LedTickDevices(s);
      NoMotorEventsNoDuty(r.trace[|s.trace|..]);
      DutiesAllowedExtend(s.trace, r.trace);
    case ReportLcd(c, w, h) =>
      var r := ReporterTick(s, c, w, h);
      ReporterTickDevices(s, c, w, h);
      NoMotorEventsNoDuty(r.trace[|s.trace|..]);
      DutiesAllowedExtend(s.trace, r.trace);
  }

  /** For every schedule, every duty cycle commanded is one its motor allows. */
  lemma {:induction false} RunKeepsDutiesAllowed(s: ArmState, steps: seq<Step>)
    requires DutiesAllowed(s.trace)
    ensures DutiesAllowed(Run(s, steps).trace)
    decreases |steps|
  {
    if steps != [] {
      ApplyKeepsDutiesAllowed(s, steps[0]);
      RunKeepsDutiesAllowed(Apply(s, steps[0]), steps[1..]);
    }
  }

  /** From the start of operation, every duty cycle ever commanded is one its motor allows. */
  lemma EveryDutyAllowed(steps: seq<Step>)
    ensures forall e | e in Run(Initial(), steps).trace && e.SetDutyCycle? :: AllowedDuty(e.motor, e.percent)
  {
    RunKeepsDutiesAllowed(Initial(), steps);
  }

  // ---------------------------------------------------------------------------------
  // Claw controller
  // ---------------------------------------------------------------------------------

  /** An ACTIVE iteration toggles the claw, publishes its new state and acknowledges the request. */
  lemma ClawToggle(s: ArmState)
    requires !s.close && s.intent.claw == Active
    ensures ClawTick(s).clawOpen == !s.clawOpen
    ensures ClawTick(s).clawUsed == !ClawTick(s).clawOpen
    ensures ClawTick(s).intent == s.intent.(claw := Inactive)
    ensures ClawTick(s).trace == s.trace + (if s.clawOpen then ClawCloseMove() else ClawOpenMove())
  {
  }

  /** An INACTIVE iteration changes nothing. */
  lemma ClawIdle(s: ArmState)
    requires s.intent.claw == Inactive
    ensures ClawTick(s) == s
  {
  }

  lemma ApplyKeepsClawConsistent(s: ArmState, step: Step)
    requires s.clawUsed == !s.clawOpen
    ensures Apply(s, step).clawUsed == !Apply(s, step).clawOpen
  {
    match step
    case SampleButtons(k) =>
    case SampleColor(v) =>
    case SampleTouch(v) =>
    case DriveRotation(p) => assert RotationTick(s, p).clawOpen == s.clawOpen;
    case DriveElevation(p) => assert ElevationTick(s, p).clawOpen == s.clawOpen;
    case DriveClaw =>
    case ReportLeds => assert LedTick(s).clawOpen == s.clawOpen;
    case ReportLcd(c, w, h) => assert ReporterTick(s, c, w, h).clawOpen == s.clawOpen;
  }

  /** `clawUsed` (the reporter's glyph) always says the claw is closed exactly when it is not open. */
  lemma {:induction false} RunKeepsClawConsistent(s: ArmState, steps: seq<Step>)
    requires s.clawUsed == !s.clawOpen
    ensures Run(s, steps).clawUsed == !Run(s, steps).clawOpen
    decreases |steps|
  {
    if steps != [] {
      ApplyKeepsClawConsistent(s, steps[0]);
      RunKeepsClawConsistent(Apply(s, steps[0]), steps[1..]);
    }
  }

  /** A CENTER press, sampled and then served by the claw controller, toggles the claw once. */
  lemma ServeCenterPress(s: ArmState, k: Keys)
    requires !s.close && k.center && !k.back
    ensures var r := Run(s, [SampleButtons(k), DriveClaw]);
      !r.close && r.clawOpen == !s.clawOpen && r.clawUsed == !r.clawOpen && r.intent.claw == Inactive &&
      r.trace == s.trace + (if s.clawOpen then ClawCloseMove() else ClawOpenMove())
  {
    var s1 := ButtonsTick(s, k);
    assert Run(s1, [DriveClaw]) == Run(ClawTick(s1), []);
    assert Run(s, [SampleButtons(k), DriveClaw]) == Run(s1, [DriveClaw]);
  }

  /** Playing one schedule after another is playing their concatenation. */
  lemma {:induction false} RunConcat(s: ArmState, a: seq<Step>, b: seq<Step>)
    ensures Run(s, a + b) == Run(Run(s, a), b)
    decreases |a|
  {
    if a != [] {
      assert (a + b)[0] == a[0] && (a + b)[1..] == a[1..] + b;
      RunConcat(Apply(s, a[0]), a[1..], b);
    } else {
      assert a + b == b;
    }
  }

  /**
   * A grip cycle: with the claw open, two CENTER presses each sampled and served close the
   * claw and open it again; it ends open, reported open, with position setpoint 0.
   */
  lemma ClawGripCycle(s: ArmState, k: Keys)
    requires !s.close && s.clawOpen && k.center && !k.back
    ensures var r := Run(s, [SampleButtons(k), DriveClaw, SampleButtons(k), DriveClaw]);
      r.clawOpen && !r.clawUsed && r.intent.claw == Inactive &&
      r.trace == s.trace + ClawCloseMove() + ClawOpenMove() &&
      LastSetpoint(r.trace, ClawMotor) == Some(0)
  {
    var press := [SampleButtons(k), DriveClaw];
    assert [SampleButtons(k), DriveClaw, SampleButtons(k), DriveClaw] == press + press;
    RunConcat(s, press, press);
    ServeCenterPress(s, k);
    ServeCenterPress(Run(s, press), k);
    var open := ClawOpenMove();
    var t := s.trace + ClawCloseMove() + [open[0]];
    assert s.trace + ClawCloseMove() + open == t + open[1..];
    assert t[..|t| - 1] + [open[0]] == t;
    assert LastSetpoint(t, ClawMotor) == Some(0);
    LastSetpointUnchanged(t, open[1..], ClawMotor);
  }

  /** Appending events that give `m` no setpoint leaves its last setpoint as it was. */
  lemma {:induction false} LastSetpointUnchanged(t: seq<Event>, e: seq<Event>, m: Motor)
    requires forall x | x in e :: !(x.SetPositionSp? && x.motor == m)
    ensures LastSetpoint(t + e, m) == LastSetpoint(t, m)
    decreases |e|
  {
    if e != [] {
      var front := e[..|e| - 1];
      assert e == front + [e[|e| - 1]];
      assert t + e == (t + front) + [e[|e| - 1]];
      assert ((t + front) + [e[|e| - 1]])[..|t + front|] == t + front;
      assert e[|e| - 1] in e;
      forall x | x in front ensures x in e {
      }
      LastSetpointUnchanged(t, front, m);
    } else {
      assert t + e == t;
    }
  }

  // ---------------------------------------------------------------------------------
  // LED reporter
  // ---------------------------------------------------------------------------------

  /** After an iteration `previous` equals the flag read; LEDs are written only on a change. */
  lemma LedTickTracksCorrection(s: ArmState)
    requires !s.close
    ensures LedTick(s).ledPrevious == s.correctionInProgress
    ensures s.correctionInProgress && !s.ledPrevious ==> LedTick(s).trace == s.trace + LedsRed()
    ensures !s.correctionInProgress && s.ledPrevious ==> LedTick(s).trace == s.trace + LedsGreen()
    ensures s.correctionInProgress == s.ledPrevious ==> LedTick(s) == s
  {
  }

  /** The level after one more event. */
  lemma LedLevelSnoc(t: seq<Event>, e: Event, side: LedSide, channel: LedColor)
    ensures LedLevel(t + [e], side, channel)
         == if e.SetLed? && e.side == side && e.channel == channel then Some(e.intensity)
            else LedLevel(t, side, channel)
  {
    assert (t + [e])[..|t|] == t;
  }

  /** Appending events that write no LED leaves every LED level as it was. */
  lemma {:induction false} LedLevelUnchanged(t: seq<Event>, e: seq<Event>, side: LedSide, channel: LedColor)
    requires NoLedEvents(e)
    ensures LedLevel(t + e, side, channel) == LedLevel(t, side, channel)
    decreases |e|
  {
    if e != [] {
      var front := e[..|e| - 1];
      assert e == front + [e[|e| - 1]];
      assert t + e == (t + front) + [e[|e| - 1]];
      assert e[|e| - 1] in e;
      forall x | x in front ensures x in e {
      }
      LedLevelSnoc(t + front, e[|e| - 1], side, channel);
      LedLevelUnchanged(t, front, side, channel);
    } else {
      assert t + e == t;
    }
  }

  /** The four writes of a transition leave both LEDs showing its colour. */
  lemma LedWritesShow(t: seq<Event>, red: bool)
    ensures LedsShow(t + (if red then LedsRed() else LedsGreen()), red)
  {
    var w := if red then LedsRed() else LedsGreen();
    assert t + w == t + [w[0]] + [w[1]] + [w[2]] + [w[3]];
    forall side: LedSide, channel: LedColor
      ensures LedLevel(t + w, side, channel) == Some(if (channel == RedLed) == red then 255 else 0)
    {
      LedLevelSnoc(t, w[0], side, channel);
      LedLevelSnoc(t + [w[0]], w[1], side, channel);
      LedLevelSnoc(t + [w[0]] + [w[1]], w[2], side, channel);
      LedLevelSnoc(t + [w[0]] + [w[1]] + [w[2]], w[3], side, channel);
    }
  }

  /** Leaving the LEDs as they were keeps them consistent with `previous`. */
  lemma LedsConsistentUnchanged(s: ArmState, r: ArmState)
    requires LedsConsistent(s) && r.ledPrevious == s.ledPrevious
    requires s.trace <= r.trace && NoLedEvents(r.trace[|s.trace|..])
    ensures LedsConsistent(r)
  {
    assert r.trace == s.trace + r.trace[|s.trace|..];
    forall side: LedSide, channel: LedColor
      ensures LedLevel(r.trace, side, channel) == LedLevel(s.trace, side, channel)
    {
      LedLevelUnchanged(s.trace, r.trace[|s.trace|..], side, channel);
    }
  }

  /** Every iteration of every activity keeps the LEDs consistent with the reporter's `previous`. */
  lemma ApplyKeepsLedsConsistent(s: ArmState, step: Step)
    requires LedsConsistent(s)
    ensures LedsConsistent(Apply(s, step))
  {
    var r := Apply(s, step);
    match step
    case ReportLeds =>
      if s.close || s.correctionInProgress == s.ledPrevious {
        assert r == s;
      } else {
        LedWritesShow(s.trace, s.correctionInProgress);
      }
    case SampleButtons(k) =>
      LedsConsistentUnchanged(s, r);
    case SampleColor(v) =>
      LedsConsistentUnchanged(s, r);
    case SampleTouch(v) =>
      LedsConsistentUnchanged(s, r);
    case DriveRotation(p) =>
      RotationTickDevices(s, p);
      LedsConsistentUnchanged(s, r);
    case DriveElevation(p) =>
      ElevationTickDevices(s, p);
      LedsConsistentUnchanged(s, r);
    case DriveClaw =>
      ClawTickDevices(s);
      LedsConsistentUnchanged(s, r);
    case ReportLcd(c, w, h) =>
      ReporterTickDevices(s, c, w, h);
      LedsConsistentUnchanged(s, r);
  }

  /** For every schedule, the LEDs show red exactly when the reporter last saw a correction. */
  lemma {:induction false} RunKeepsLedsConsistent(s: ArmState, steps: seq<Step>)
    requires LedsConsistent(s)
    ensures LedsConsistent(Run(s, steps))
    decreases |steps|
  {
    if steps != [] {
      ApplyKeepsLedsConsistent(s, steps[0]);
      RunKeepsLedsConsistent(Apply(s, steps[0]), steps[1..]);
    }
  }

  /** An LED iteration from a consistent state leaves the LEDs red exactly when a correction is in progress. */
  lemma LedsReflectCorrection(s: ArmState)
    requires !s.close && LedsConsistent(s)
    ensures s.correctionInProgress ==> LedsShow(LedTick(s).trace, true)
    ensures !s.correctionInProgress ==> LedsShow(LedTick(s).trace, false) || LedsUntouched(LedTick(s).trace)
  {
    ApplyKeepsLedsConsistent(s, ReportLeds);
  }

  /** Appending events that write no LED to a trace that has none keeps it free of LED writes. */
  lemma NoLedEventsExtend(a: seq<Event>, b: seq<Event>)
    requires a <= b && NoLedEvents(a) && NoLedEvents(b[|a|..])
    ensures NoLedEvents(b)
  {
    assert b == a + b[|a|..];
  }

  /** Between iterations the correction flag is down, `previous` is false and no LED was ever written. */
  predicate LedsDark(s: ArmState) {
    !s.correctionInProgress && !s.ledPrevious && NoLedEvents(s.trace)
  }

  lemma ApplyKeepsLedsDark(s: ArmState, step: Step)
    requires LedsDark(s)
    ensures LedsDark(Apply(s, step))
  {
    ApplyCorrection(s, step);
    var r := Apply(s, step);
    match step
    case SampleButtons(k) =>
    case SampleColor(v) =>
    case SampleTouch(v) =>
    case DriveRotation(p) =>
      RotationTickDevices(s, p);
      NoLedEventsExtend(s.trace, r.trace);
    case DriveElevation(p) =>
      ElevationTickDevices(s, p);
      NoLedEventsExtend(s.trace, r.trace);
    case DriveClaw =>
      ClawTickDevices(s);
      NoLedEventsExtend(s.trace, r.trace);
    case ReportLeds =>
      assert r == s;
    case ReportLcd(c, w, h) =>
      ReporterTickDevices(s, c, w, h);
      NoLedEventsExtend(s.trace, r.trace);
  }

  lemma {:induction false} RunKeepsLedsDark(s: ArmState, steps: seq<Step>)
    requires LedsDark(s)
    ensures LedsDark(Run(s, steps))
    decreases |steps|
  {
    if steps != [] {
      ApplyKeepsLedsDark(s, steps[0]);
      RunKeepsLedsDark(Apply(s, steps[0]), steps[1..]);
    }
  }

  /**
   * Iterations are atomic, so the LED reporter only ever reads the correction flag down: from
   * the start of operation, no schedule writes a LED. The red LEDs that the program shows
   * while a recovery waits for its move lie between the two halves of one iteration.
   */
  lemma LedsNeverWrittenBetweenTicks(steps: seq<Step>)
    ensures !Run(Initial(), steps).ledPrevious
    ensures NoLedEvents(Run(Initial(), steps).trace)
  {
    RunKeepsLedsDark(Initial(), steps);
  }

  // ---------------------------------------------------------------------------------
  // LCD reporter
  // ---------------------------------------------------------------------------------

  /** A refresh draws the title, a filled circle exactly when the claw is closed, and the time. */
  lemma ReporterDraws(s: ArmState, clock: WallClock, width: nat, height: nat)
    requires !s.close
    ensures var r := ReporterTick(s, clock, width, height);
      |r.trace| == |s.trace| + 4 &&
      r.trace[|s.trace|] == ClearLcd &&
      r.trace[|s.trace| + 1] == LcdText(X_TITLE, Y_TITLE, TITLE) &&
      (r.trace[|s.trace| + 2].LcdCircle? <==> s.clawUsed) &&
      ParseTime(r.trace[|s.trace| + 3].text) == Some((clock.hour, clock.minute, clock.second))
  {
  }
}
