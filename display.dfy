/**
 * The small rules the station display applies to the state: the pressure
 * trend marker, the battery icon, the metric to imperial conversions and the
 * weekday labels under the seven-day temperature chart.
 */
module DisplayRules {

  // ---------------------------------------------------------------------
  // Pressure trend
  // ---------------------------------------------------------------------

  /** The marker after the pressure reading: "(+)", "(-)" or nothing. */
  datatype Trend = Rising | Falling | Steady

  /**
   * This hour's pressure average against last hour's: a change of more than
   * one hPa either way shows as a trend, anything within one hPa is steady.
   */
  function PressureTrend(thisHour: real, lastHour: real): (t: Trend)
    ensures t == Rising <==> thisHour - lastHour > 1.0
    ensures t == Falling <==> lastHour - thisHour > 1.0
    ensures t == Steady <==> -1.0 <= thisHour - lastHour <= 1.0
  {
    if thisHour > lastHour + 1.0 then Rising
    else if thisHour < lastHour - 1.0 then Falling
    else Steady
  }

  /** The suffix the metric pressure label carries for a trend. */
  function TrendSuffix(t: Trend): (s: string)
    ensures t == Rising <==> s == " (+)"
    ensures t == Falling <==> s == " (-)"
    ensures t == Steady <==> s == ""
  {
    match t
    case Rising => " (+)"
    case Falling => " (-)"
    case Steady => ""
  }

  /** Swapping the two hours turns a rise into a fall and back, and keeps a steady reading steady. */
  lemma TrendReverses(a: real, b: real)
    ensures PressureTrend(a, b) == Rising <==> PressureTrend(b, a) == Falling
    ensures PressureTrend(a, b) == Steady <==> PressureTrend(b, a) == Steady
  {
  }

  /** A higher average this hour never shows a weaker trend: the marker is monotone in this hour's average. */
  lemma TrendMonotone(a: real, a': real, last: real)
    requires a <= a'
    ensures PressureTrend(a, last) == Rising ==> PressureTrend(a', last) == Rising
    ensures PressureTrend(a', last) == Falling ==> PressureTrend(a, last) == Falling
  {
  }

  /** An average of 1007 hPa this hour after 1015 hPa last hour shows a falling trend; 1015.5 after 1015 is steady. */
  lemma TrendExamples()
    ensures PressureTrend(1007.0, 1015.0) == Falling
    ensures PressureTrend(1015.5, 1015.0) == Steady
    ensures PressureTrend(1016.5, 1015.0) == Rising
  {
  }

  // ---------------------------------------------------------------------
  // Battery icon
  // ---------------------------------------------------------------------

  datatype BatteryIcon = BattHigh | BattMid | BattLow

  /** The icon for the outdoor unit's battery: above 12.5 V high, above 11.5 V middle, otherwise low. */
  function BatteryLevel(volts: real): (b: BatteryIcon)
    ensures b == BattHigh <==> volts > 12.5
    ensures b == BattMid <==> 11.5 < volts <= 12.5
    ensures b == BattLow <==> volts <= 11.5
  {
    if volts > 12.5 then BattHigh
    else if volts > 11.5 then BattMid
    else BattLow
  }

  /** How full an icon shows the battery: low 0, middle 1, high 2. */
  function IconRank(b: BatteryIcon): nat
  {
    match b
    case BattLow => 0
    case BattMid => 1
    case BattHigh => 2
  }

  /** A higher voltage never shows an emptier icon. */
  lemma BatteryMonotone(v: real, w: real)
    requires v <= w
    ensures IconRank(BatteryLevel(v)) <= IconRank(BatteryLevel(w))
  {
  }

  /** A status frame that failed to parse leaves the voltage at 0, which shows as low. */
  lemma MissingVoltageShowsLow()
    ensures BatteryLevel(0.0) == BattLow
  {
  }

  // ---------------------------------------------------------------------
  // Metric to imperial
  // ---------------------------------------------------------------------

  /** Degrees Celsius to degrees Fahrenheit, computed as the display does: divide by 5, times 9, plus 32. */
  function CelsiusToFahrenheit(c: real): (f: real)
    ensures FahrenheitToCelsius(f) == c
  {
    c / 5.0 * 9.0 + 32.0
  }

  /** The inverse conversion, as a reference for what the display's formula means. */
  function FahrenheitToCelsius(f: real): (c: real)
  {
    (f - 32.0) * 5.0 / 9.0
  }

  /** Hectopascals to inches of mercury with the display's factor 0.03. */
  function HectopascalsToInches(hpa: int): (inHg: real)
    ensures inHg * 100.0 == hpa as real * 3.0
  {
    hpa as real * 0.03
  }

  /** Millimetres of rain to inches. */
  function MillimetresToInches(mm: real): (inches: real)
    ensures inches * 25.4 == mm
  {
    mm / 25.4
  }

  /** Every conversion keeps order, so a converted maximum is never below the converted minimum. */
  lemma ConversionsKeepOrder(lo: real, hi: real, plo: int, phi: int)
    requires lo <= hi && plo <= phi
    ensures CelsiusToFahrenheit(lo) <= CelsiusToFahrenheit(hi)
    ensures HectopascalsToInches(plo) <= HectopascalsToInches(phi)
    ensures MillimetresToInches(lo) <= MillimetresToInches(hi)
  {
  }

  /** Freezing and boiling water, and the one temperature both scales agree on. */
  lemma CelsiusToFahrenheitExamples()
    ensures CelsiusToFahrenheit(0.0) == 32.0
    ensures CelsiusToFahrenheit(100.0) == 212.0
    ensures CelsiusToFahrenheit(-40.0) == -40.0
  {
  }

  /**
   * The imperial branch of the display converts every slot of a seven-day
   * ring into its Fahrenheit mirror, one index at a time.
   */
  method MirrorToFahrenheit(celsius: array<real>, fahrenheit: array<real>)
    requires celsius.Length == fahrenheit.Length && celsius != fahrenheit
    modifies fahrenheit
    ensures forall i :: 0 <= i < fahrenheit.Length ==> fahrenheit[i] == CelsiusToFahrenheit(celsius[i])
  {
    var index := 0;
    while index < fahrenheit.Length
      invariant 0 <= index <= fahrenheit.Length
      invariant forall i :: 0 <= i < index ==> fahrenheit[i] == CelsiusToFahrenheit(celsius[i])
    {
      fahrenheit[index] := CelsiusToFahrenheit(celsius[index]);
      index := index + 1;
    }
  }

  // ---------------------------------------------------------------------
  // Weekday labels of the temperature chart
  // ---------------------------------------------------------------------

  /** Python's weekday numbering: Monday is 0, Sunday is 6. */
  const DayNames: seq<string> := ["Mo", "Tu", "We", "Th", "Fr", "Sa", "Su"]

  /**
   * The weekday the chart starts at: six days ago, which is the weekday
   * after today (Sunday wraps round to Monday).
   */
  function HistoryStart(weekday: nat): (start: nat)
    requires weekday < 7
    ensures start < 7 && (start + 6) % 7 == weekday
  {
    if weekday == 6 then 0 else weekday + 1
  }

  /** The list turned left by k places: the element at k comes first, the first k go to the end. */
  function RotateLeft<T>(s: seq<T>, k: nat): (r: seq<T>)
    requires k <= |s|
    ensures |r| == |s|
    ensures forall i :: 0 <= i < |s| - k ==> r[i] == s[k + i]
    ensures forall i :: |s| - k <= i < |s| ==> r[i] == s[i - (|s| - k)]
  {
    s[k..] + s[..k]
  }

  /** The six labels under the chart's six points, oldest day first. */
  function WeekdayLabels(weekday: nat): (labels: seq<string>)
    requires weekday < 7
    ensures |labels| == 6
  {
    RotateLeft(DayNames, HistoryStart(weekday))[..6]
  }

  /**
   * The label under point k names the weekday of the day k + 1 slots into
   * the history ring, 6 - k days before today: the last label is yesterday
   * and today's name never appears.
   */
  lemma LabelNamesDay(weekday: nat, k: nat)
    requires weekday < 7 && k < 6
    ensures WeekdayLabels(weekday)[k] == DayNames[(weekday + 1 + k) % 7]
    ensures (weekday + 1 + k) % 7 == (weekday + 7 - (6 - k)) % 7
    ensures WeekdayLabels(weekday)[k] != DayNames[weekday]
  {
    var start := HistoryStart(weekday);
    var rotated := RotateLeft(DayNames, start);
    var n := weekday + 1 + k;
    var j := if n < 7 then n else n - 7;
    assert n % 7 == j;
    if k < 7 - start {
      assert rotated[k] == DayNames[start + k];
      assert start + k == j;
    } else {
      assert rotated[k] == DayNames[k - (7 - start)];
      assert k - (7 - start) == j;
    }
    DayNamesDistinct(j, weekday);
  }

  /** No two weekdays share a name. */
  lemma DayNamesDistinct(i: nat, j: nat)
    requires i < 7 && j < 7 && i != j
    ensures DayNames[i] != DayNames[j]
  {
    assert DayNames[i][0] != DayNames[j][0] || DayNames[i][1] != DayNames[j][1];
  }

  /** On a Wednesday the chart is labelled Thursday to Tuesday. */
  lemma WednesdayLabels()
    ensures WeekdayLabels(2) == ["Th", "Fr", "Sa", "Su", "Mo", "Tu"]
  {
  }
}
