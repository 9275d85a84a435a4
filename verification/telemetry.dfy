/**
 * The server's synthetic telemetry: generate_random_number and the integer
 * fields and text of generate_telemetry_data.  Each value rand() returns is an
 * input draw (any non-negative integer); the float pressure reading is kept
 * only as its integer base, and its printed form is an input string.
 */
module Telemetry {
  import opened Text

  function Abs(x: int): nat {
    if x < 0 then -x else x
  }

  /** The C++ `/` operator on integers: the exact quotient truncated toward zero. */
  function CQuotient(a: int, b: int): int
    requires b != 0
  {
    if (a >= 0) == (b > 0) then Abs(a) / Abs(b) else -(Abs(a) / Abs(b))
  }

  /**
   * The C++ `%` operator: quotient times divisor plus remainder gives back
   * the dividend, and the remainder takes the sign of the dividend and is
   * smaller than the divisor in magnitude.
   */
  function CRemainder(a: int, b: int): (r: int)
    requires b != 0
    ensures CQuotient(a, b) * b + r == a
    ensures a >= 0 ==> 0 <= r < Abs(b)
    ensures a < 0 ==> -(Abs(b) as int) < r <= 0
  {
    var m := Abs(a) % Abs(b);
    CDivision(a, b);
    if a >= 0 then m else -m
  }

  lemma CDivision(a: int, b: int)
    requires b != 0
    ensures CQuotient(a, b) * b + (if a >= 0 then 1 else -1) * (Abs(a) % Abs(b)) == a
  {
    var x: int, y: int := Abs(a), Abs(b);
    var q: int, m: int := x / y, x % y;
    assert x == q * y + m;
    if a >= 0 && b > 0 {
      assert CQuotient(a, b) * b == q * y;
    } else if a >= 0 {
      assert CQuotient(a, b) * b == (-q) * (-y) == q * y;
    } else if b > 0 {
      assert CQuotient(a, b) * b == (-q) * y == -(q * y);
    } else {
      assert CQuotient(a, b) * b == q * (-y) == -(q * y);
    }
  }

  /**
   * generate_random_number(min, max) with `draw` for rand(): min plus the
   * draw reduced modulo the width of the range.  The source divides by
   * (max + 1) - min, so that width must not be zero.
   */
  function RandomInRange(min: int, max: int, draw: nat): (r: int)
    requires (max + 1) - min != 0
    ensures min <= max ==> min <= r <= max
  {
    min + CRemainder(draw, (max + 1) - min)
  }

  /** Every value of a non-empty range is produced by some draw. */
  lemma RandomInRangeReaches(min: int, max: int, v: int)
    requires min <= v <= max
    ensures RandomInRange(min, max, v - min) == v
  {
    var width := (max + 1) - min;
    assert 0 <= v - min < width;
    assert (v - min) % width == v - min;
  }

  /** The four values of rand() that generate_random_number consumes, one per reading. */
  datatype Draws = Draws(temperature: nat, humidity: nat, pressure: nat, windSpeed: nat)

  /** The integer part of one generated reading. */
  datatype Reading = Reading(temperature: int, humidity: int, pressureBase: int, windSpeed: int)

  /** generate_telemetry_data's four calls of generate_random_number. */
  function Generate(d: Draws): (r: Reading)
    ensures -40 <= r.temperature <= 50
    ensures 0 <= r.humidity <= 100
    ensures 950 <= r.pressureBase <= 1050
    ensures 0 <= r.windSpeed <= 20
  {
    Reading(
      RandomInRange(-40, 50, d.temperature),
      RandomInRange(0, 100, d.humidity),
      RandomInRange(950, 1050, d.pressure),
      RandomInRange(0, 20, d.windSpeed))
  }

  function TemperatureLine(r: Reading): string {
    "Temperature: " + IntToString(r.temperature) + " C"
  }

  function HumidityLine(r: Reading): string {
    "Humidity: " + IntToString(r.humidity) + " %"
  }

  function PressureLine(pressureText: string): string {
    "Pressure: " + pressureText + " mmHg"
  }

  function WindSpeedLine(r: Reading): string {
    "Wind speed: " + IntToString(r.windSpeed) + " m/s"
  }

  /** The text generate_telemetry_data returns: four lines, each ended by a newline. */
  function Report(r: Reading, pressureText: string): (report: string)
    ensures report
         == TemperatureLine(r) + "\n" + HumidityLine(r) + "\n"
          + PressureLine(pressureText) + "\n" + WindSpeedLine(r) + "\n"
  {
    var lines := ReportLineTexts(r, pressureText);
    JoinLinesCons(lines[0], lines[1..]);
    JoinLinesCons(lines[1], lines[2..]);
    JoinLinesCons(lines[2], lines[3..]);
    JoinLinesCons(lines[3], []);
    assert [lines[3]] + [] == lines[3..];
    assert [lines[2]] + lines[3..] == lines[2..];
    assert [lines[1]] + lines[2..] == lines[1..];
    assert [lines[0]] + lines[1..] == lines;
    JoinLines(lines)
  }

  function ReportLineTexts(r: Reading, pressureText: string): seq<string> {
    [TemperatureLine(r), HumidityLine(r), PressureLine(pressureText), WindSpeedLine(r)]
  }

  lemma IntToStringHasNo(n: int, c: char)
    requires c != '-' && !IsDigit(c)
    ensures c !in IntToString(n)
  {
    var s := IntToString(n);
    forall i | 0 <= i < |s|
      ensures s[i] != c
    {
    }
  }

  /** None of the four report lines holds a newline of its own. */
  lemma ReportLinesUnbroken(r: Reading, pressureText: string)
    requires '\n' !in pressureText
    ensures '\n' !in TemperatureLine(r) && '\n' !in HumidityLine(r)
    ensures '\n' !in PressureLine(pressureText) && '\n' !in WindSpeedLine(r)
  {
    IntToStringHasNo(r.temperature, '\n');
    IntToStringHasNo(r.humidity, '\n');
    IntToStringHasNo(r.windSpeed, '\n');
  }

  /**
   * The report is exactly four lines, temperature, humidity, pressure and
   * wind speed, when the printed pressure holds no newline.
   */
  lemma ReportLines(r: Reading, pressureText: string)
    requires '\n' !in pressureText
    ensures SplitLines(Report(r, pressureText))
         == [TemperatureLine(r), HumidityLine(r), PressureLine(pressureText), WindSpeedLine(r)]
  {
    ReportLinesUnbroken(r, pressureText);
    SplitJoinLines(ReportLineTexts(r, pressureText));
  }

  /** The temperature line carries the generated temperature, readable back as an integer. */
  lemma TemperatureReadsBack(r: Reading)
    ensures var line := TemperatureLine(r);
            |line| >= 15 && ParseInt(line[13..|line| - 2]) == Some(r.temperature)
  {
    var line := TemperatureLine(r);
    assert line[13..|line| - 2] == IntToString(r.temperature);
    IntToStringRoundTrip(r.temperature);
  }
}
