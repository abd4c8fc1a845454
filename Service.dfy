/** The remote thermal-control API as the control client sees it: every call
    either succeeds with a value or fails (transport error, non-success status,
    unparseable payload), and the actuator commands it accepts. */
module Service {

  datatype Option<+T> = None | Some(value: T)

  /** Outcome of one remote call. */
  datatype Reply<+T> = Ok(value: T) | Fail

  /** An actuator command, POSTed to api/heat/{heaterId} or api/fans/{fanId}. */
  datatype Command = SetHeater(heaterId: int, level: int) | SetFan(fanId: int, on: bool)

  /** The message of the exception that ends a cycle early. */
  datatype Error =
    | TemperatureUnavailable(sensorId: int)
    | SystemStateUnavailable
    | SensorConfigsUnavailable
    | FanConfigsUnavailable
    | Rejected(command: Command)

  /** What the remote service answers during one poll cycle: the reading of each
      sensor, whether each display-only fetch succeeds, and whether it accepts
      each actuator command. */
  datatype Poll = Poll(
    sensor: int -> Reply<real>,
    systemState: Reply<()>,
    sensorConfigs: Reply<()>,
    fanConfigs: Reply<()>,
    accepts: Command -> bool)

  /** The sensor the controller reads. */
  const PrimarySensor: int := 1

  // ---------------------------------------------------------------------------
  // Request bodies: `level.ToString()` and `isOn.ToString().ToLower()`

  function Digit(d: nat): (c: char)
    requires d < 10
    ensures '0' <= c <= '9'
  {
    ('0' as int + d) as char
  }

  /** Decimal rendering of a natural number, most significant digit first. */
  function NatText(n: nat): (s: string)
    ensures |s| > 0
    ensures forall k :: 0 <= k < |s| ==> '0' <= s[k] <= '9'
    decreases n
  {
    if n < 10 then [Digit(n)] else NatText(n / 10) + [Digit(n % 10)]
  }

  /** Decimal rendering of an integer, as `int.ToString()` writes it. */
  function IntText(n: int): string {
    if n < 0 then "-" + NatText(-n) else NatText(n)
  }

  /** Value of a string of decimal digits (the inverse of NatText). */
  function DigitsValue(s: string): int
    decreases |s|
  {
    if s == [] then 0 else 10 * DigitsValue(s[..|s| - 1]) + (s[|s| - 1] as int - '0' as int)
  }

  lemma {:induction false} NatTextRoundTrip(n: nat)
    ensures DigitsValue(NatText(n)) == n
    decreases n
  {
    if n >= 10 {
      var s := NatText(n);
      assert s[..|s| - 1] == NatText(n / 10);
      NatTextRoundTrip(n / 10);
    }
  }

  /** `bool.ToString()` in .NET: a capitalised word, which is why the program
      lower-cases it before sending. */
  function BoolText(b: bool): (r: string)
    ensures |r| > 0 && 'A' <= r[0] <= 'Z'
    ensures forall k :: 1 <= k < |r| ==> 'a' <= r[k] <= 'z'
    ensures r[0] == 'T' <==> b
  {
    if b then "True" else "False"
  }

  /** ASCII lower-casing, as `string.ToLower()` does on these strings: no
      upper-case letter is left, letters keep their place in the alphabet and
      every other character is kept. */
  function Lower(s: string): (r: string)
    ensures |r| == |s|
    ensures forall k :: 0 <= k < |r| ==> !('A' <= r[k] <= 'Z')
    ensures forall k :: 0 <= k < |s| && 'A' <= s[k] <= 'Z' ==>
              'a' <= r[k] <= 'z' && r[k] as int - 'a' as int == s[k] as int - 'A' as int
    ensures forall k :: 0 <= k < |s| && !('A' <= s[k] <= 'Z') ==> r[k] == s[k]
  {
    seq(|s|, k requires 0 <= k < |s| => if 'A' <= s[k] <= 'Z' then (s[k] as int + 32) as char else s[k])
  }

  /** Lower-casing twice is lower-casing once. */
  lemma LowerIdempotent(s: string)
    ensures Lower(Lower(s)) == Lower(s)
  {
  }

  /** The text body POSTed with a command: `level.ToString()` for a heater,
      `isOn.ToString().ToLower()` for a fan. A fan body is the lower-case
      literal "true" or "false"; a heater body with a level of 0 or more is
      all digits and reads back as that level. */
  function Body(c: Command): (r: string)
    ensures c.SetFan? ==> r == (if c.on then "true" else "false")
    ensures c.SetHeater? && c.level >= 0 ==>
              DigitsValue(r) == c.level && forall k :: 0 <= k < |r| ==> '0' <= r[k] <= '9'
  {
    match c
    case SetHeater(_, level) =>
      if level >= 0 then NatTextRoundTrip(level); IntText(level) else IntText(level)
    case SetFan(_, on) => Lower(BoolText(on))
  }
}
