/**
 * The controller as the program runs it: the shared observables and each activity's local
 * state are fields updated in place, and each method is one iteration of one activity's
 * periodic loop, doing its work step by step as main.c does. Each method is proved to
 * have exactly the effect the matching function of ArmSpec gives.
 */
module ArmController {
  import opened Devices
  import opened Actions
  import opened LcdFormat
  import ArmSpec

  class Arm {
    // Shared observables
    var intent: Intent
    var topLimitReached: bool
    var clockwiseLimitReached: bool
    var correctionInProgress: bool
    var clawUsed: bool
    var close: bool
    // Local state of the activities
    var rotationActual: RotationAction
    var elevationActual: ElevationAction
    var clawOpen: bool
    var ledPrevious: bool
    // Device calls made so far
    var trace: seq<Event>

    function State(): ArmSpec.ArmState
      reads this
    {
      ArmSpec.ArmState(intent, topLimitReached, clockwiseLimitReached, correctionInProgress, clawUsed,
                       close, rotationActual, elevationActual, clawOpen, ledPrevious, trace)
    }

    /** The state in which the eight activities start, after calibration. */
    constructor ()
      ensures State() == ArmSpec.Initial()
    {
      intent := NEUTRAL_INTENT;
      topLimitReached, clockwiseLimitReached, correctionInProgress := false, false, false;
      clawUsed, close := false, false;
      rotationActual, elevationActual := RotateStop, ElevateStop;
      clawOpen, ledPrevious := true, false;
      trace := [];
    }

    /** Records one device call. */
    method Emit(e: Event)
      modifies this`trace
      ensures trace == old(trace) + [e]
    {
      trace := trace + [e];
    }

    method IsClosePressed() returns (pressed: bool)
      ensures pressed == close
    {
      pressed := close;
    }

    method IsClockwiseLimitReached() returns (reached: bool)
      ensures reached == clockwiseLimitReached
    {
      reached := clockwiseLimitReached;
    }

    method IsTopLimitReached() returns (reached: bool)
      ensures reached == topLimitReached
    {
      reached := topLimitReached;
    }

    /** One iteration of the button sampler, with the keys as sampled. */
    method SampleButtons(keys: Keys)
      modifies this
      ensures State() == ArmSpec.ButtonsTick(old(State()), keys)
    {
      var closed := IsClosePressed();
      if closed {
        return;
      }
      intent := Intent(RotationFromKeys(keys.left, keys.right),
                       ElevationFromKeys(keys.up, keys.down),
                       if keys.center then Active else Inactive);
      if keys.back {
        close := true;
      }
    }

    /** One iteration of the colour sampler, with the reflectance read. */
    method SampleColor(reflection: int)
      modifies this
      ensures State() == ArmSpec.ColorTick(old(State()), reflection)
    {
      var closed := IsClosePressed();
      if closed {
        return;
      }
      if reflection >= REFLECTION_LIMIT {
        topLimitReached := true;
      }
    }

    /** One iteration of the touch sampler, with the switch value read. */
    method SampleTouch(touch: int)
      modifies this
      ensures State() == ArmSpec.TouchTick(old(State()), touch)
    {
      var closed := IsClosePressed();
      if closed {
        return;
      }
      if touch == TOUCH_SENSOR_ACTIVE {
        clockwiseLimitReached := true;
      }
    }

    /** Raises the correction flag, starts a positioned move of `m` and waits for it to finish. */
    method StartRecovery(m: Motor, setpoint: int, mode: MotorCommand)
      modifies this`trace, this`correctionInProgress
      ensures correctionInProgress
      ensures trace == old(trace) + ArmSpec.RecoveryMove(m, setpoint, mode)[..4]
    {
      correctionInProgress := true;
      Emit(CorrectionFlag(true));
      Emit(SetPositionSp(m, setpoint));
      Emit(Command(m, mode));
      Emit(MoveCompleted(m));
    }

    /** Cuts the power of `m` and lowers the correction flag. */
    method EndRecovery(m: Motor)
      modifies this`trace, this`correctionInProgress
      ensures !correctionInProgress
      ensures trace == old(trace) + [SetDutyCycle(m, 0), Command(m, RunDirect), CorrectionFlag(false)]
    {
      Emit(SetDutyCycle(m, 0));
      Emit(Command(m, RunDirect));
      correctionInProgress := false;
      Emit(CorrectionFlag(false));
    }

    /** The touch-switch recovery: back the base off, clear the switch flag, stop. */
    method RecoverRotationFromSwitch()
      modifies this`trace, this`correctionInProgress, this`clockwiseLimitReached, this`rotationActual
      ensures !clockwiseLimitReached && !correctionInProgress && rotationActual == RotateStop
      ensures trace == old(trace) + ArmSpec.RecoveryMove(RotationMotor, ROTATION_INIT_UNITS, RunRelPos)
    {
      ghost var t0 := trace;
      StartRecovery(RotationMotor, ROTATION_INIT_UNITS, RunRelPos);
      clockwiseLimitReached := false;
      EndRecovery(RotationMotor);
      rotationActual := RotateStop;
      assert trace == t0 + ArmSpec.RecoveryMove(RotationMotor, ROTATION_INIT_UNITS, RunRelPos);
    }

    /** The left soft-limit recovery: run the base back to position 0, stop. */
    method RecoverRotationFromSoftLimit()
      modifies this`trace, this`correctionInProgress, this`rotationActual
      ensures !correctionInProgress && rotationActual == RotateStop
      ensures trace == old(trace) + ArmSpec.RecoveryMove(RotationMotor, 0, RunAbsPos)
    {
      ghost var t0 := trace;
      StartRecovery(RotationMotor, 0, RunAbsPos);
      EndRecovery(RotationMotor);
      rotationActual := RotateStop;
      assert trace == t0 + ArmSpec.RecoveryMove(RotationMotor, 0, RunAbsPos);
    }

    /** Sets the base motor's duty cycle for a newly requested action. */
    method StartRotating(next: RotationAction)
      modifies this`trace, this`rotationActual
      ensures rotationActual == next
      ensures trace == old(trace) + [SetDutyCycle(RotationMotor, RotationDuty(next))]
    {
      match next {
        case RotateRight => Emit(SetDutyCycle(RotationMotor, ROTATION_POWER));
        case RotateLeft => Emit(SetDutyCycle(RotationMotor, -ROTATION_POWER));
        case RotateStop => Emit(SetDutyCycle(RotationMotor, 0));
      }
      rotationActual := next;
    }

    /** One iteration of the rotation controller, with the base motor at encoder `position`. */
    method DriveRotation(position: int)
      modifies this
      ensures State() == ArmSpec.RotationTick(old(State()), position)
    {
      var closed := IsClosePressed();
      if closed {
        return;
      }
      var next := intent.rotation;
      var limit := IsClockwiseLimitReached();
      if limit {
        RecoverRotationFromSwitch();
      } else if position < TOP_LEFT_POS {
        RecoverRotationFromSoftLimit();
      } else if rotationActual != next {
        StartRotating(next);
      }
    }

    /** The colour-sensor recovery: lower the arm back, clear the top flag, stop. */
    method RecoverElevationFromSensor()
      modifies this`trace, this`correctionInProgress, this`topLimitReached, this`elevationActual
      ensures !topLimitReached && !correctionInProgress && elevationActual == ElevateStop
      ensures trace == old(trace) + ArmSpec.RecoveryMove(ElevationMotor, ELEVATION_INIT_UNITS, RunRelPos)
    {
      ghost var t0 := trace;
      StartRecovery(ElevationMotor, ELEVATION_INIT_UNITS, RunRelPos);
      topLimitReached := false;
      EndRecovery(ElevationMotor);
      elevationActual := ElevateStop;
      assert trace == t0 + ArmSpec.RecoveryMove(ElevationMotor, ELEVATION_INIT_UNITS, RunRelPos);
    }

    /** The bottom soft-limit recovery: run the arm back to position 0, stop. */
    method RecoverElevationFromSoftLimit()
      modifies this`trace, this`correctionInProgress, this`elevationActual
      ensures !correctionInProgress && elevationActual == ElevateStop
      ensures trace == old(trace) + ArmSpec.RecoveryMove(ElevationMotor, 0, RunAbsPos)
    {
      ghost var t0 := trace;
      StartRecovery(ElevationMotor, 0, RunAbsPos);
      EndRecovery(ElevationMotor);
      elevationActual := ElevateStop;
      assert trace == t0 + ArmSpec.RecoveryMove(ElevationMotor, 0, RunAbsPos);
    }

    /** Sets the arm motor's duty cycle for a newly requested action. */
    method StartElevating(next: ElevationAction)
      modifies this`trace, this`elevationActual
      ensures elevationActual == next
      ensures trace == old(trace) + [SetDutyCycle(ElevationMotor, ElevationDuty(next))]
    {
      match next {
        case Rise => Emit(SetDutyCycle(ElevationMotor, ELEVATION_UP_POWER));
        case Lower => Emit(SetDutyCycle(ElevationMotor, ELEVATION_DOWN_POWER));
        case ElevateStop => Emit(SetDutyCycle(ElevationMotor, 0));
      }
      elevationActual := next;
    }

    /** One iteration of the elevation controller, with the arm motor at encoder `position`. */
    method DriveElevation(position: int)
      modifies this
      ensures State() == ArmSpec.ElevationTick(old(State()), position)
    {
      var closed := IsClosePressed();
      if closed {
        return;
      }
      var next := intent.elevation;
      var limit := IsTopLimitReached();
      if limit {
        RecoverElevationFromSensor();
      } else if position > TOP_BOTTOM_POS {
        RecoverElevationFromSoftLimit();
      } else if elevationActual != next {
        StartElevating(next);
      }
    }

    /** Drives the open claw shut, then cuts its power, and publishes it as closed. */
    method CloseClaw()
      modifies this`trace, this`clawOpen, this`clawUsed
      ensures !clawOpen && clawUsed
      ensures trace == old(trace) + ArmSpec.ClawCloseMove()
    {
      Emit(SetDutyCycle(ClawMotor, -CLAW_POWER));
      Emit(Command(ClawMotor, RunDirect));
      clawOpen := false;
      Emit(SetDutyCycle(ClawMotor, 0));
      clawUsed := true;
    }

    /** Runs the closed claw back to position 0, waits, cuts its power, and publishes it as open. */
    method OpenClaw()
      modifies this`trace, this`clawOpen, this`clawUsed
      ensures clawOpen && !clawUsed
      ensures trace == old(trace) + ArmSpec.ClawOpenMove()
    {
      Emit(SetPositionSp(ClawMotor, 0));
      Emit(Command(ClawMotor, RunAbsPos));
      Emit(MoveCompleted(ClawMotor));
      Emit(SetDutyCycle(ClawMotor, 0));
      Emit(Command(ClawMotor, RunDirect));
      clawOpen := true;
      clawUsed := false;
    }

    /** One iteration of the claw controller. */
    method DriveClaw()
      modifies this
      ensures State() == ArmSpec.ClawTick(old(State()))
    {
      var closed := IsClosePressed();
      if closed {
        return;
      }
      var request := intent.claw;
      if request == Active {
        if clawOpen {
          CloseClaw();
        } else {
          OpenClaw();
        }
        intent := intent.(claw := Inactive);
      }
    }

    /** One iteration of the LED reporter. */
    method ReportLeds()
      modifies this
      ensures State() == ArmSpec.LedTick(old(State()))
    {
      var closed := IsClosePressed();
      if closed {
        return;
      }
      var actual := correctionInProgress;
      if actual && !ledPrevious {
        Emit(SetLed(LeftLed, RedLed, 255));
        Emit(SetLed(RightLed, RedLed, 255));
        Emit(SetLed(LeftLed, GreenLed, 0));
        Emit(SetLed(RightLed, GreenLed, 0));
        ledPrevious := true;
      } else if !actual && ledPrevious {
        Emit(SetLed(LeftLed, GreenLed, 255));
        Emit(SetLed(RightLed, GreenLed, 255));
        Emit(SetLed(LeftLed, RedLed, 0));
        Emit(SetLed(RightLed, RedLed, 0));
        ledPrevious := false;
      }
    }

    /** Clears the screen and draws the title, the claw glyph and the time. */
    method Redraw(clock: WallClock, width: nat, height: nat)
      modifies this`trace
      ensures trace == old(trace) + Frame(clawUsed, clock, width, height)
    {
      ghost var t0 := trace;
      Emit(ClearLcd);
      var clawClosed := clawUsed;
      var timeText := TimeString(clock);
      Emit(LcdText(X_TITLE, Y_TITLE, TITLE));
      if clawClosed {
        Emit(LcdCircle(width / 2, height / 2, RADIUS, COLOR_CIRCLE));
      } else {
        Emit(LcdCircleOutline(width / 2, height / 2, RADIUS, COLOR_CIRCLE));
      }
      Emit(LcdText(X_TIME, height - TIME_BOTTOM_MARGIN, timeText));
      assert trace == t0 + Frame(clawClosed, clock, width, height);
    }

    /** One iteration of the LCD reporter, with the local time read and the screen size of the brick. */
    method ReportLcd(clock: WallClock, width: nat, height: nat)
      modifies this
      ensures State() == ArmSpec.ReporterTick(old(State()), clock, width, height)
    {
      var closed := IsClosePressed();
      if closed {
        return;
      }
      Redraw(clock, width, height);
    }
  }
}
