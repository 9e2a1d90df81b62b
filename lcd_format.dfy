/**
 * The choices the LCD reporter makes on each refresh: which claw glyph to draw and the
 * "HH:MM:SS" text of the wall-clock time (main.c:75-84, 1166-1187). The screen size comes
 * from the device library header, which is not part of this model, so it is a parameter.
 */
module LcdFormat {
  import opened Devices
  import opened Wrappers

  const X_TITLE: int := 20
  const Y_TITLE: int := 10
  const TITLE: string := "LEGO - ROBOTIC ARM"
  const RADIUS: int := 35
  const COLOR_CIRCLE: int := 1
  const X_TIME: int := 60
  const TIME_BOTTOM_MARGIN: int := 20

  // The ranges `localtime` guarantees for the fields the reporter prints.
  type Hour = h: int | 0 <= h < 24
  type Minute = m: int | 0 <= m < 60
  type Second = s: int | 0 <= s <= 60  // 60 allows a leap second

  datatype WallClock = WallClock(hour: Hour, minute: Minute, second: Second)

  predicate IsDigit(c: char) {
    '0' <= c <= '9'
  }

  function DigitValue(c: char): int
    requires IsDigit(c)
  {
    c as int - '0' as int
  }

  function DigitChar(d: int): (c: char)
    requires 0 <= d < 10
    ensures IsDigit(c) && DigitValue(c) == d
  {
    ('0' as int + d) as char
  }

  /** The decimal reading of a two-character field, if both characters are digits. */
  function ParsePair(p: string): (r: Option<int>)
    ensures r.Some? ==> 0 <= r.value < 100
  {
    if |p| == 2 && IsDigit(p[0]) && IsDigit(p[1]) then Some(DigitValue(p[0]) * 10 + DigitValue(p[1]))
    else None
  }

  /** Reads "HH:MM:SS" back into its three numbers; the reference the formatter is checked against. */
  function ParseTime(t: string): Option<(int, int, int)> {
    if |t| != 8 || t[2] != ':' || t[5] != ':' then None
    else
      match (ParsePair(t[0..2]), ParsePair(t[3..5]), ParsePair(t[6..8]))
      case (Some(h), Some(m), Some(s)) => Some((h, m, s))
      case _ => None
  }

  /** `%02d` of a number below 100: two digits, with a leading zero when needed. */
  function TwoDigits(n: int): (t: string)
    requires 0 <= n < 100
    ensures ParsePair(t) == Some(n)
  {
    [DigitChar(n / 10), DigitChar(n % 10)]
  }

  /**
   * `sprintf(time_str, "%02d:%02d:%02d", hour, minute, second)`. The text always has eight
   * characters, so it fits the nine-byte buffer with its terminating NUL, and it reads back
   * as the time it was made from.
   */
  function TimeString(c: WallClock): (t: string)
    ensures |t| == 8
    ensures t[2] == ':' && t[5] == ':'
    ensures ParseTime(t) == Some((c.hour, c.minute, c.second))
  {
    var h, m, s := TwoDigits(c.hour), TwoDigits(c.minute), TwoDigits(c.second);
    var t := h + ":" + m + ":" + s;
    assert t[0..2] == h && t[3..5] == m && t[6..8] == s;
    t
  }

  /** The claw glyph: a filled circle while the claw is closed, an outline while it is open. */
  function ClawGlyph(clawClosed: bool, width: nat, height: nat): (e: Event)
    ensures e.LcdCircle? || e.LcdCircleOutline?
    ensures e.LcdCircle? <==> clawClosed
    ensures e.x == width / 2 && e.y == height / 2
    ensures e.radius == RADIUS && e.ink == COLOR_CIRCLE
  {
    if clawClosed then LcdCircle(width / 2, height / 2, RADIUS, COLOR_CIRCLE)
    else LcdCircleOutline(width / 2, height / 2, RADIUS, COLOR_CIRCLE)
  }

  /** The drawing calls of one refresh, in the order the reporter makes them. */
  function Frame(clawClosed: bool, clock: WallClock, width: nat, height: nat): (f: seq<Event>)
    ensures |f| == 4 && f[0] == ClearLcd
    ensures f[1] == LcdText(X_TITLE, Y_TITLE, TITLE)
    ensures f[2] == ClawGlyph(clawClosed, width, height)
    ensures f[3].LcdText? && f[3].x == X_TIME && f[3].y == height - TIME_BOTTOM_MARGIN
    ensures ParseTime(f[3].text) == Some((clock.hour, clock.minute, clock.second))
    ensures NoMotorEvents(f) && NoLedEvents(f)
  {
    [ClearLcd,
     LcdText(X_TITLE, Y_TITLE, TITLE),
     ClawGlyph(clawClosed, width, height),
     LcdText(X_TIME, height - TIME_BOTTOM_MARGIN, TimeString(clock))]
  }
}
