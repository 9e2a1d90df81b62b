/**
 * The EV3 brick as the arm controller sees it. The controller never reads a device
 * result except sensor values, button states and motor positions (which are inputs of
 * the ticks); every call it makes on a motor, a LED or the LCD is recorded as one
 * `Event` of a trace, in the order the calls are made.
 */
module Devices {

  /** The three motors: base rotation (port C), arm elevation (port B), gripper claw (port A). */
  datatype Motor = RotationMotor | ElevationMotor | ClawMotor

  /** Command names understood by the motor driver (COMMANDS_STRING). */
  datatype MotorCommand = RunForever | RunAbsPos | RunRelPos | RunTimed | RunDirect | Stop | Reset

  datatype LedSide = LeftLed | RightLed

  datatype LedColor = RedLed | GreenLed

  datatype Event =
    | SetDutyCycle(motor: Motor, percent: int)          // ev3_set_duty_cycle_sp
    | SetPositionSp(motor: Motor, position: int)        // ev3_set_position_sp
    | Command(motor: Motor, command: MotorCommand)      // ev3_command_motor_by_name
    | MoveCompleted(motor: Motor)                       // the RUNNING bit of the motor state has cleared
    | CorrectionFlag(inProgress: bool)                  // write of the shared correction flag
    | SetLed(side: LedSide, channel: LedColor, intensity: int)  // ev3_set_led
    | ClearLcd                                          // ev3_clear_lcd
    | LcdText(x: int, y: int, text: string)             // ev3_text_lcd_normal
    | LcdCircle(x: int, y: int, radius: int, ink: int)        // ev3_circle_lcd (filled)
    | LcdCircleOutline(x: int, y: int, radius: int, ink: int) // ev3_circle_lcd_out
  {
    /** True of the events that act on (or wait for) a motor. */
    predicate IsMotorEvent() {
      SetDutyCycle? || SetPositionSp? || Command? || MoveCompleted?
    }
  }

  /** Every motor event in `events` is addressed to `m`. */
  predicate OnlyCommands(events: seq<Event>, m: Motor) {
    forall e | e in events && e.IsMotorEvent() :: e.motor == m
  }

  /** No event in `events` touches a motor. */
  predicate NoMotorEvents(events: seq<Event>) {
    forall e | e in events :: !e.IsMotorEvent()
  }

  /** No event in `events` writes a LED. */
  predicate NoLedEvents(events: seq<Event>) {
    forall e | e in events :: !e.SetLed?
  }
}
