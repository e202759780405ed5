/**
 * The indoor sensor filter: three humidity/temperature samples, each of which
 * may fail, reduced to one calibrated humidity and one calibrated
 * temperature by taking the middle of each sorted triple.
 */
module IndoorSensor {
  import opened Wrappers

  /** One read of the indoor sensor: (humidity in %, temperature in C), or None when the read raised. */
  type Reading = Option<(real, real)>

  /** Humidity correction applied to the middle read. */
  const HumidityScale: real := 0.925
  /** Temperature correction: scale, then offset. */
  const TemperatureScale: real := 1.09
  const TemperatureOffset: real := 1.50

  /** The humidity a read contributes; a failed read contributes 0. */
  function HumidityOf(r: Reading): real
  {
    match r
    case Some(v) => v.0
    case None => 0.0
  }

  /** The temperature a read contributes; a failed read contributes 0. */
  function TemperatureOf(r: Reading): real
  {
    match r
    case Some(v) => v.1
    case None => 0.0
  }

  /** m sits in the middle of a, b, c: at least two of them are at most m and at least two are at least m. */
  predicate IsMiddle(m: real, a: real, b: real, c: real)
  {
    (m == a || m == b || m == c) &&
    ((a <= m && b <= m) || (a <= m && c <= m) || (b <= m && c <= m)) &&
    ((a >= m && b >= m) || (a >= m && c >= m) || (b >= m && c >= m))
  }

  /** The median of three samples. */
  function Median3(a: real, b: real, c: real): (m: real)
    ensures IsMiddle(m, a, b, c)
  {
    if a <= b then
      if b <= c then b else if a <= c then c else a
    else
      if a <= c then a else if b <= c then c else b
  }

  /** The middle of three samples is unique, so any way of finding it gives Median3. */
  lemma MiddleIsMedian(m: real, a: real, b: real, c: real)
    requires IsMiddle(m, a, b, c)
    ensures m == Median3(a, b, c)
  {
  }

  /** One bad sample cannot drag the median outside the range of the other two. */
  lemma MedianWithinGoodPair(bad: real, x: real, y: real)
    ensures (if x <= y then x else y) <= Median3(bad, x, y) <= (if x <= y then y else x)
    ensures Median3(bad, x, y) == Median3(x, bad, y) == Median3(x, y, bad)
  {
  }

  /** What the filter reports: (calibrated humidity, calibrated temperature). */
  function IndoorFilter(samples: seq<Reading>): (r: (real, real))
    requires |samples| == 3
    ensures IsMiddle(r.0 / HumidityScale, HumidityOf(samples[0]), HumidityOf(samples[1]), HumidityOf(samples[2]))
    ensures IsMiddle((r.1 + TemperatureOffset) / TemperatureScale, TemperatureOf(samples[0]), TemperatureOf(samples[1]), TemperatureOf(samples[2]))
  {
    var h := Median3(HumidityOf(samples[0]), HumidityOf(samples[1]), HumidityOf(samples[2]));
    var t := Median3(TemperatureOf(samples[0]), TemperatureOf(samples[1]), TemperatureOf(samples[2]));
    (h * HumidityScale, t * TemperatureScale - TemperatureOffset)
  }

  /** With every read failed the filter reports 0 % and -1.5 C. */
  lemma AllReadsFailed(samples: seq<Reading>)
    requires |samples| == 3 && samples[0] == None && samples[1] == None && samples[2] == None
    ensures IndoorFilter(samples) == (0.0, -1.5)
  {
  }

  /** A single failed read is outvoted when the two good reads agree. */
  lemma OneFailedReadOutvoted(samples: seq<Reading>, k: nat, good: (real, real))
    requires |samples| == 3 && k < 3 && samples[k] == None
    requires forall i :: 0 <= i < 3 && i != k ==> samples[i] == Some(good)
    ensures IndoorFilter(samples) == (good.0 * HumidityScale, good.1 * TemperatureScale - TemperatureOffset)
  {
    assert k != 0 ==> samples[0] == Some(good);
    assert k != 1 ==> samples[1] == Some(good);
    assert k != 2 ==> samples[2] == Some(good);
  }

  /** Sorts a three-element list in place (list.sort() on three elements), here by three compare-and-swap steps. */
  method SortThree(a: array<real>)
    requires a.Length == 3
    modifies a
    ensures a[0] <= a[1] <= a[2]
    ensures multiset(a[..]) == multiset(old(a[..]))
    ensures a[1] == Median3(old(a[0]), old(a[1]), old(a[2]))
  {
    ghost var a0, a1, a2 := a[0], a[1], a[2];
    var x, y, z := a[0], a[1], a[2];
    if x > y { x, y := y, x; }
    if y > z { y, z := z, y; }
    if x > y { x, y := y, x; }
    assert multiset{x, y, z} == multiset{a0, a1, a2};
    a[0], a[1], a[2] := x, y, z;
    assert a[..] == [x, y, z] && old(a[..]) == [a0, a1, a2];
    MiddleIsMedian(y, a0, a1, a2);
  }

  /**
   * Takes three reads, fills a humidity list and a temperature list with
   * them (0 for a failed read), sorts both and calibrates their middle
   * elements.
   */
  method GetInsideTempHumid(samples: seq<Reading>) returns (humidIn: real, tempIn: real)
    requires |samples| == 3
    ensures (humidIn, tempIn) == IndoorFilter(samples)
  {
    var humid := new real[3] [0.0, 0.0, 0.0];
    var temp := new real[3] [0.0, 0.0, 0.0];
    for attempt := 0 to 3
      invariant forall i :: 0 <= i < attempt ==> humid[i] == HumidityOf(samples[i]) && temp[i] == TemperatureOf(samples[i])
    {
      match samples[attempt]
      case Some(v) =>
        humid[attempt], temp[attempt] := v.0, v.1;
      case None =>
        humid[attempt], temp[attempt] := 0.0, 0.0;
    }
    SortThree(humid);
    SortThree(temp);
    humidIn := humid[1] * HumidityScale;
    tempIn := temp[1] * TemperatureScale - TemperatureOffset;
  }
}
