/**
 * What the operator asks of the arm, and how a request becomes motor power: the keypad
 * rules of the button sampler, the run-direct duty cycles of the three motors and the
 * thresholds of the two limit sensors (main.c:22-118, 813-857).
 */
module Actions {
  import opened Devices

  // Run-direct duty cycles, in percent of full power (main.c:43-46)
  const ROTATION_POWER: int := 30
  const ELEVATION_UP_POWER: int := -30
  const ELEVATION_DOWN_POWER: int := 20
  const CLAW_POWER: int := 40

  // Relative recovery offsets, in encoder units (main.c:49-50)
  const ROTATION_INIT_UNITS: int := -350
  const ELEVATION_INIT_UNITS: int := 100

  // Sensor readings that signal a physical limit (main.c:54, 58)
  const TOUCH_SENSOR_ACTIVE: int := 1
  const REFLECTION_LIMIT: int := 30

  // Soft limits not covered by a sensor, in encoder units (main.c:69-70)
  const TOP_BOTTOM_POS: int := 200
  const TOP_LEFT_POS: int := -400

  datatype RotationAction = RotateRight | RotateLeft | RotateStop

  datatype ElevationAction = Rise | Lower | ElevateStop

  datatype ClawAction = Active | Inactive

  /** The shared `new_motors_status` record: the latest request for each motor. */
  datatype Intent = Intent(rotation: RotationAction, elevation: ElevationAction, claw: ClawAction)

  /** The value the main thread stores before the activities start (main.c:579-581). */
  const NEUTRAL_INTENT: Intent := Intent(RotateStop, ElevateStop, Inactive)

  /** One sample of the keypad. */
  datatype Keys = Keys(left: bool, right: bool, up: bool, down: bool, center: bool, back: bool)

  /** LEFT and RIGHT together cancel; one of them alone selects its direction. */
  function RotationFromKeys(left: bool, right: bool): (a: RotationAction)
    ensures a == RotateLeft <==> left && !right
    ensures a == RotateRight <==> right && !left
    ensures a == RotateStop <==> left == right
  {
    if left then
      if right then RotateStop else RotateLeft
    else if right then RotateRight
    else RotateStop
  }

  /** UP and DOWN together cancel; one of them alone selects RISE or LOWER. */
  function ElevationFromKeys(up: bool, down: bool): (a: ElevationAction)
    ensures a == Rise <==> up && !down
    ensures a == Lower <==> down && !up
    ensures a == ElevateStop <==> up == down
  {
    if up then
      if down then ElevateStop else Rise
    else if down then Lower
    else ElevateStop
  }

  /** The intent published by one tick of the button sampler. */
  function IntentFromKeys(k: Keys): (i: Intent)
    ensures i.rotation == RotationFromKeys(k.left, k.right)
    ensures i.elevation == ElevationFromKeys(k.up, k.down)
    ensures i.claw == Active <==> k.center
  {
    Intent(RotationFromKeys(k.left, k.right),
           ElevationFromKeys(k.up, k.down),
           if k.center then Active else Inactive)
  }

  /** The duty cycles each motor may ever be given. */
  predicate AllowedDuty(m: Motor, percent: int) {
    match m
    case RotationMotor => percent in {ROTATION_POWER, -ROTATION_POWER, 0}
    case ElevationMotor => percent in {ELEVATION_UP_POWER, ELEVATION_DOWN_POWER, 0}
    case ClawMotor => percent in {-CLAW_POWER, 0}
  }

  /** The duty cycle the rotation controller sets for a newly requested action. */
  function RotationDuty(a: RotationAction): (percent: int)
    ensures AllowedDuty(RotationMotor, percent)
    ensures percent > 0 <==> a == RotateRight
    ensures percent < 0 <==> a == RotateLeft
  {
    match a
    case RotateRight => ROTATION_POWER
    case RotateLeft => -ROTATION_POWER
    case RotateStop => 0
  }

  /** The duty cycle the elevation controller sets; a negative power raises the arm. */
  function ElevationDuty(a: ElevationAction): (percent: int)
    ensures AllowedDuty(ElevationMotor, percent)
    ensures percent < 0 <==> a == Rise
    ensures percent > 0 <==> a == Lower
  {
    match a
    case Rise => ELEVATION_UP_POWER
    case Lower => ELEVATION_DOWN_POWER
    case ElevateStop => 0
  }

  /** A colour-sensor reflectance that means the arm has reached the top of its travel. */
  predicate OverReflectionLimit(reflection: int) {
    reflection >= REFLECTION_LIMIT
  }

  /** A touch-sensor value that means the base has reached its clockwise end. */
  predicate TouchPressed(touch: int) {
    touch == TOUCH_SENSOR_ACTIVE
  }
}
