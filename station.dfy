/**
 * The station's state and its per-tick update.
 *
 * Every tick either receives a frame from the outdoor unit or is idle. A
 * received frame refreshes the indoor readings and extremes, then either the
 * weather readings (with the outdoor and pressure extremes, the pressure
 * average and a throttled upload) or the battery voltage, and marks the link
 * alive. An idle tick freezes the pressure average when the hour changes,
 * rolls the seven-day temperature rings over when the day changes, and
 * marks the link lost after 25 seconds of silence.
 *
 * The state is described twice: as the fields of StationState, which the
 * methods update step by step, and as a Snapshot value, on which the
 * functions Receive and Idle say what one tick does. Each method's
 * postcondition ties the two together; the lemmas state the properties of
 * Receive and Idle.
 *
 * Clock readings are parameters: `now` is the wall clock in seconds, and a
 * Stamp holds the calendar day of the month and hour of the day.
 */
module Station {
  import opened Wrappers
  import opened Payload
  import IndoorSensor

  /** The calendar fields an idle tick compares: day of the month and hour of the day. */
  datatype Stamp = Stamp(day: int, hour: int)

  /** The eight values one upload carries, in the order of its fields 1 to 8. */
  datatype Upload = Upload(
    tempOut: real,
    humidOut: int,
    pressure: int,
    windSpeed: int,
    windGust: int,
    windDir: int,
    rainDay: real,
    rainHour: real)

  /** The six history days of both temperature rings, oldest first, as the history file keeps them. */
  datatype History = History(maxes: seq<real>, mins: seq<real>)

  /** Slot 0 is today; slots 1..6 are the six days before, oldest first. */
  const RingSize: nat := 7

  /** Sentinels that the first real reading of a day always replaces. */
  const MaxReset: real := -99.0
  const MinReset: real := 99.0
  const PressMaxReset: int := 0
  const PressMinReset: int := 9999

  /** The signal icon: full while frames arrive, empty once the link is lost. */
  const SignalFull: int := 5
  const SignalLost: int := 0

  /** Seconds of silence after which the link counts as lost. */
  const LinkTimeout: real := 25.0
  /** Seconds that must pass between two uploads. */
  const UploadInterval: real := 60.0

  /** Everything the station keeps between ticks. */
  datatype Snapshot = Snapshot(
    tempOut: real,
    humidOut: int,
    pressure: int,
    rainDay: real,
    rainHour: real,
    windSpeed: int,
    windGust: int,
    windDir: int,
    battery: real,
    tempIn: real,
    humidIn: int,
    outMax: seq<real>,
    outMin: seq<real>,
    inMax: real,
    inMin: real,
    pressMax: int,
    pressMin: int,
    pressLast: int,
    avgThisHour: real,
    avgLastHour: real,
    startDay: int,
    startHour: int,
    lastReceive: real,
    lastUpload: real,
    signal: int)

  /** Both temperature rings hold seven days. */
  predicate Shaped(s: Snapshot)
  {
    |s.outMax| == RingSize && |s.outMin| == RingSize
  }

  /** A running maximum and minimum either still hold their reset sentinels or bracket some reading. */
  predicate Bracketing(max: real, min: real)
  {
    (max == MaxReset && min == MinReset) || min <= max
  }

  /** The invariant every tick keeps: seven-day rings, and today's extremes either reset or in order. */
  predicate Sane(s: Snapshot)
  {
    Shaped(s) &&
    Bracketing(s.outMax[0], s.outMin[0]) &&
    Bracketing(s.inMax, s.inMin) &&
    ((s.pressMax == PressMaxReset && s.pressMin == PressMinReset) || s.pressMin <= s.pressMax)
  }

  /** The state at start-up, before the history file is read. */
  function Initial(now: real, today: Stamp): (s: Snapshot)
    ensures Sane(s)
    ensures s.outMax[1..] == [1.0, 1.0, 1.0, 1.0, 1.0, 1.0] && s.outMin[1..] == [-1.0, -1.0, -1.0, -1.0, -1.0, -1.0]
  {
    Snapshot(
      tempOut := 0.0, humidOut := 0, pressure := 0, rainDay := 0.0, rainHour := 0.0,
      windSpeed := 0, windGust := 0, windDir := 0, battery := 0.0,
      tempIn := 0.0, humidIn := 0,
      outMax := [MaxReset, 1.0, 1.0, 1.0, 1.0, 1.0, 1.0],
      outMin := [MinReset, -1.0, -1.0, -1.0, -1.0, -1.0, -1.0],
      inMax := MaxReset, inMin := MinReset,
      pressMax := PressMaxReset, pressMin := PressMinReset, pressLast := 0,
      avgThisHour := 0.0, avgLastHour := 0.0,
      startDay := today.day, startHour := today.hour,
      lastReceive := now, lastUpload := 0.0, signal := SignalLost)
  }

  // ---------------------------------------------------------------------
  // Compare-and-replace and the conversions the update applies
  // ---------------------------------------------------------------------

  /** A running maximum after seeing x: replaced only when x exceeds it. */
  function Raise(max: real, x: real): (r: real)
    ensures r >= max && r >= x && (r == max || r == x)
    ensures r != max ==> x > max
  {
    if x > max then x else max
  }

  /** A running minimum after seeing x: replaced only when x undercuts it. */
  function Lower(min: real, x: real): (r: real)
    ensures r <= min && r <= x && (r == min || r == x)
    ensures r != min ==> x < min
  {
    if x < min then x else min
  }

  /** Raise on whole hectopascals: the pressure and its extremes are integers in the program, so the rule is stated for int as well. */
  function RaiseInt(max: int, x: int): (r: int)
    ensures r >= max && r >= x && (r == max || r == x)
    ensures r != max ==> x > max
  {
    if x > max then x else max
  }

  /** Lower on whole hectopascals, for the same reason. */
  function LowerInt(min: int, x: int): (r: int)
    ensures r <= min && r <= x && (r == min || r == x)
    ensures r != min ==> x < min
  {
    if x < min then x else min
  }

  /** Python's int() on a float: the integer part, truncated toward zero. */
  function Truncate(x: real): (n: int)
    ensures 0.0 <= x ==> 0 <= n && n as real <= x < n as real + 1.0
    ensures x < 0.0 ==> n <= 0 && n as real - 1.0 < x <= n as real
  {
    if x >= 0.0 then x.Floor else -((-x).Floor)
  }

  /** Python's true division of the two whole pressures. */
  function Average(a: int, b: int): (avg: real)
    ensures avg + avg == (a + b) as real
  {
    (a + b) as real / 2.0
  }

  // ---------------------------------------------------------------------
  // One received frame
  // ---------------------------------------------------------------------

  /** The indoor part of every received frame: the filtered readings, humidity truncated, and the indoor extremes. */
  function ApplyIndoor(s: Snapshot, humid: real, temp: real): (r: Snapshot)
    ensures r.inMin <= r.tempIn <= r.inMax
    ensures r.(tempIn := s.tempIn, humidIn := s.humidIn, inMax := s.inMax, inMin := s.inMin) == s
  {
    s.(tempIn := temp, humidIn := Truncate(humid), inMax := Raise(s.inMax, temp), inMin := Lower(s.inMin, temp))
  }

  /** The outdoor temperature of a weather frame; today's extremes move only on a parsed reading. */
  function ApplyTemperature(s: Snapshot, reading: Option<real>): (r: Snapshot)
    requires Shaped(s)
    ensures Shaped(r) && r.outMax[1..] == s.outMax[1..] && r.outMin[1..] == s.outMin[1..]
    ensures reading.Some? ==> r.outMin[0] <= r.tempOut <= r.outMax[0]
    ensures reading.None? ==> r == s.(tempOut := 0.0)
  {
    match reading
    case Some(t) =>
      s.(tempOut := t,
         outMax := s.outMax[0 := Raise(s.outMax[0], t)],
         outMin := s.outMin[0 := Lower(s.outMin[0], t)])
    case None => s.(tempOut := 0.0)
  }

  /** The pressure of a weather frame: a parsed reading moves the extremes and the two-sample average. */
  function ApplyPressure(s: Snapshot, reading: Option<int>): (r: Snapshot)
    ensures reading.Some? ==> r.pressMin <= r.pressure <= r.pressMax && r.pressLast == r.pressure
    ensures reading.None? ==> r == s.(pressure := 0)
  {
    match reading
    case Some(p) =>
      s.(pressure := p,
         pressMax := RaiseInt(s.pressMax, p),
         pressMin := LowerInt(s.pressMin, p),
         avgThisHour := Average(s.pressLast, p),
         pressLast := p)
    case None => s.(pressure := 0)
  }

  /** The outdoor humidity: a reading that failed to parse keeps the previous value, because its fallback assigns an unrelated variable. */
  function ApplyHumidity(s: Snapshot, reading: Option<int>): (r: Snapshot)
    ensures reading.None? ==> r == s
    ensures reading.Some? ==> r == s.(humidOut := reading.value)
  {
    s.(humidOut := reading.GetOr(s.humidOut))
  }

  /** Rain and wind: each field that failed to parse reads as 0. */
  function ApplyRainAndWind(s: Snapshot, w: WeatherFields): (r: Snapshot)
    ensures w.rainDay.None? ==> r.rainDay == 0.0
    ensures w.rainHour.None? ==> r.rainHour == 0.0
    ensures w.windSpeed.None? ==> r.windSpeed == 0
    ensures w.windGust.None? ==> r.windGust == 0
    ensures w.windDir.None? ==> r.windDir == 0
    ensures r.(rainDay := s.rainDay, rainHour := s.rainHour, windSpeed := s.windSpeed, windGust := s.windGust, windDir := s.windDir) == s
  {
    s.(rainDay := w.rainDay.GetOr(0.0),
       rainHour := w.rainHour.GetOr(0.0),
       windSpeed := w.windSpeed.GetOr(0),
       windGust := w.windGust.GetOr(0),
       windDir := w.windDir.GetOr(0))
  }

  /** An upload of the current readings is sent, and its time stamped, when more than a minute has passed since the last one. */
  function Throttle(s: Snapshot, now: real): (r: (Snapshot, Option<Upload>))
    ensures r.1.Some? <==> now - s.lastUpload > UploadInterval
    ensures r.0 == s.(lastUpload := r.0.lastUpload)
    ensures r.0.lastUpload == (if r.1.Some? then now else s.lastUpload)
  {
    if now - s.lastUpload > UploadInterval then
      (s.(lastUpload := now),
       Some(Upload(s.tempOut, s.humidOut, s.pressure, s.windSpeed, s.windGust, s.windDir, s.rainDay, s.rainHour)))
    else
      (s, None)
  }

  /** A weather frame, field by field in the frame's order, then the throttled upload. */
  function ApplyWeather(s: Snapshot, w: WeatherFields, now: real): (r: (Snapshot, Option<Upload>))
    requires Shaped(s)
    ensures Shaped(r.0) && r.0.battery == s.battery
  {
    Throttle(ApplyRainAndWind(ApplyPressure(ApplyHumidity(ApplyTemperature(s, w.tempOut), w.humidOut), w.pressure), w), now)
  }

  /** A status frame: the battery voltage, or 0 when it failed to parse. */
  function ApplyStatus(s: Snapshot, battery: Option<real>): (r: Snapshot)
    ensures r.(battery := s.battery) == s
    ensures battery.None? ==> r.battery == 0.0
  {
    s.(battery := battery.GetOr(0.0))
  }

  /** Every received frame stamps the receive time and shows a full signal. */
  function MarkAlive(s: Snapshot, now: real): (r: Snapshot)
    ensures r.lastReceive == now && r.signal == SignalFull
    ensures r.(lastReceive := s.lastReceive, signal := s.signal) == s
  {
    s.(lastReceive := now, signal := SignalFull)
  }

  /**
   * One received frame, once decoded, with the filtered indoor readings
   * (humidity, temperature) taken on the same tick.
   */
  function ApplyFrame(s: Snapshot, frame: Frame, indoor: (real, real), now: real): (r: (Snapshot, Option<Upload>))
    requires Shaped(s)
    ensures Shaped(r.0) && r.0.lastReceive == now && r.0.signal == SignalFull
    ensures r.1.Some? ==> frame.Weather?
  {
    var s1 := ApplyIndoor(s, indoor.0, indoor.1);
    var (s2, upload) :=
      match frame
      case Weather(w) => ApplyWeather(s1, w, now)
      case Status(b) => (ApplyStatus(s1, b), None);
    (MarkAlive(s2, now), upload)
  }

  /** One tick on which a frame arrived, with the three indoor sensor reads taken on that tick. */
  function Receive(s: Snapshot, payload: string, samples: seq<IndoorSensor.Reading>, now: real): (r: (Snapshot, Option<Upload>))
    requires Shaped(s) && |payload| >= 1 && |samples| == 3
    ensures Shaped(r.0) && r.0.lastReceive == now && r.0.signal == SignalFull
    ensures r.1.Some? ==> payload[0] == 'T'
    ensures (r.0.tempIn, r.0.inMax, r.0.inMin) == (IndoorSensor.IndoorFilter(samples).1, Raise(s.inMax, r.0.tempIn), Lower(s.inMin, r.0.tempIn))
  {
    ApplyFrame(s, DecodeFrame(payload), IndoorSensor.IndoorFilter(samples), now)
  }

  // ---------------------------------------------------------------------
  // One idle tick
  // ---------------------------------------------------------------------

  /** The history rings as the file stores them: slots 1..6. */
  function Saved(s: Snapshot): (h: History)
    requires Shaped(s)
    ensures |h.maxes| == 6 && |h.mins| == 6
  {
    History(s.outMax[1..], s.outMin[1..])
  }

  /** The history read back from the file into slots 1..6 of both rings; today's slots are kept. */
  function Restore(s: Snapshot, h: History): (r: Snapshot)
    requires Shaped(s) && |h.maxes| == 6 && |h.mins| == 6
    ensures Shaped(r)
  {
    s.(outMax := s.outMax[..1] + h.maxes, outMin := s.outMin[..1] + h.mins)
  }

  /**
   * The history file round trip: what is read back is what was written,
   * and reading back what the rings hold changes nothing.
   */
  lemma SaveRestore(s: Snapshot, h: History)
    requires Shaped(s) && |h.maxes| == 6 && |h.mins| == 6
    ensures Saved(Restore(s, h)) == h
    ensures Restore(s, Saved(s)) == s
  {
    assert s.outMax[..1] + s.outMax[1..] == s.outMax;
    assert s.outMin[..1] + s.outMin[1..] == s.outMin;
  }

  /** A ring at midnight: turned left by one place, then today's slot reset. */
  function Rollover(ring: seq<real>, reset: real): (r: seq<real>)
    requires |ring| == RingSize
    ensures |r| == RingSize && r[0] == reset
    ensures forall i :: 1 <= i < RingSize - 1 ==> r[i] == ring[i + 1]
    ensures r[RingSize - 1] == ring[0]
  {
    (ring[1..] + ring[..1])[0 := reset]
  }

  /** A new hour freezes this hour's pressure average into last hour's. */
  function NewHour(s: Snapshot, today: Stamp): (r: Snapshot)
    ensures r.startHour == today.hour
    ensures r.avgLastHour == (if today.hour != s.startHour then s.avgThisHour else s.avgLastHour)
    ensures r.(startHour := s.startHour, avgLastHour := s.avgLastHour) == s
  {
    if today.hour != s.startHour then s.(startHour := today.hour, avgLastHour := s.avgThisHour) else s
  }

  /** A new day rolls both rings over, resets today's extremes and hands out the history to save. */
  function NewDay(s: Snapshot, today: Stamp): (r: (Snapshot, Option<History>))
    requires Shaped(s)
    ensures Shaped(r.0) && r.0.startDay == today.day
    ensures r.1.Some? <==> today.day != s.startDay
    ensures r.1.Some? ==> r.1.value == Saved(r.0) && r.0.outMax[0] == MaxReset && r.0.outMin[0] == MinReset
    ensures r.1.None? ==> r.0 == s
  {
    if today.day != s.startDay then
      var r := s.(
        outMax := Rollover(s.outMax, MaxReset),
        outMin := Rollover(s.outMin, MinReset),
        inMax := MaxReset,
        inMin := MinReset,
        pressMax := PressMaxReset,
        pressMin := PressMinReset,
        startDay := today.day);
      (r, Some(Saved(r)))
    else
      (s, None)
  }

  /** More than 25 seconds without a frame shows the link as lost. */
  function LinkCheck(s: Snapshot, now: real): (r: Snapshot)
    ensures r.signal == (if now - s.lastReceive > LinkTimeout then SignalLost else s.signal)
    ensures r.(signal := s.signal) == s
  {
    if now - s.lastReceive > LinkTimeout then s.(signal := SignalLost) else s
  }

  /**
   * One tick on which no frame arrived. Returns the history to be written
   * to the file when the day rolled over.
   */
  function Idle(s: Snapshot, today: Stamp, now: real): (r: (Snapshot, Option<History>))
    requires Shaped(s)
    ensures Shaped(r.0) && r.0.startDay == today.day && r.0.startHour == today.hour
    ensures r.1.Some? <==> today.day != s.startDay
  {
    var (s2, saved) := NewDay(NewHour(s, today), today);
    (LinkCheck(s2, now), saved)
  }

  // ---------------------------------------------------------------------
  // Properties of a received frame
  // ---------------------------------------------------------------------

  /**
   * Tag dispatch: a weather frame leaves the battery voltage alone, and any
   * other frame changes nothing but the battery voltage among the outdoor
   * readings (the indoor part and the link are refreshed by every frame).
   */
  lemma FrameDispatch(s: Snapshot, frame: Frame, indoor: (real, real), now: real)
    requires Shaped(s)
    ensures var (r, upload) := ApplyFrame(s, frame, indoor, now);
      (frame.Weather? ==> r.battery == s.battery) &&
      (frame.Status? ==>
        r.battery == frame.battery.GetOr(0.0) && upload == None &&
        r.(battery := s.battery, tempIn := s.tempIn, humidIn := s.humidIn, inMax := s.inMax, inMin := s.inMin,
           lastReceive := s.lastReceive, signal := s.signal) == s)
  {
  }

  /**
   * Per-field fault tolerance: each weather reading comes from its own
   * slice; a slice that fails to parse gives 0, or the previous humidity,
   * and never disturbs the other fields.
   */
  lemma WeatherFieldsApplied(s: Snapshot, w: WeatherFields, indoor: (real, real), now: real)
    requires Shaped(s)
    ensures var (r, _) := ApplyFrame(s, Weather(w), indoor, now);
      r.tempOut == w.tempOut.GetOr(0.0) &&
      r.humidOut == w.humidOut.GetOr(s.humidOut) &&
      r.pressure == w.pressure.GetOr(0) &&
      r.rainDay == w.rainDay.GetOr(0.0) &&
      r.rainHour == w.rainHour.GetOr(0.0) &&
      r.windSpeed == w.windSpeed.GetOr(0) &&
      r.windGust == w.windGust.GetOr(0) &&
      r.windDir == w.windDir.GetOr(0)
  {
  }

  /**
   * Outdoor extremes: a parsed temperature ends up between today's maximum
   * and minimum, each of which moves only when the reading passes it; an
   * unparsed one moves nothing; the history slots are never touched.
   */
  lemma OutdoorExtremes(s: Snapshot, w: WeatherFields, indoor: (real, real), now: real)
    requires Shaped(s)
    ensures var (r, _) := ApplyFrame(s, Weather(w), indoor, now);
      Shaped(r) && r.outMax[1..] == s.outMax[1..] && r.outMin[1..] == s.outMin[1..] &&
      match w.tempOut
      case Some(t) =>
        r.outMin[0] <= t <= r.outMax[0] &&
        (r.outMax[0] != s.outMax[0] ==> t > s.outMax[0] && r.outMax[0] == t) &&
        (r.outMin[0] != s.outMin[0] ==> t < s.outMin[0] && r.outMin[0] == t)
      case None => r.outMax == s.outMax && r.outMin == s.outMin
  {
    var (r, _) := ApplyFrame(s, Weather(w), indoor, now);
    assert r.outMax[1..] == s.outMax[1..];
    assert r.outMin[1..] == s.outMin[1..];
  }

  /** Indoor extremes: every frame brackets the new indoor temperature, moving a bound only when it is passed. */
  lemma IndoorExtremes(s: Snapshot, frame: Frame, indoor: (real, real), now: real)
    requires Shaped(s)
    ensures var (r, _) := ApplyFrame(s, frame, indoor, now);
      r.tempIn == indoor.1 && r.humidIn == Truncate(indoor.0) &&
      r.inMin <= r.tempIn <= r.inMax &&
      (r.inMax != s.inMax ==> r.tempIn > s.inMax) &&
      (r.inMin != s.inMin ==> r.tempIn < s.inMin)
  {
  }

  /**
   * Pressure: a parsed reading ends up between the pressure extremes, sets
   * this hour's average to the mean of the previous reading and this one,
   * and becomes the previous reading; an unparsed one reads as 0 and
   * leaves the extremes, the average and the previous reading alone.
   */
  lemma PressureTracking(s: Snapshot, w: WeatherFields, indoor: (real, real), now: real)
    requires Shaped(s)
    ensures var (r, _) := ApplyFrame(s, Weather(w), indoor, now);
      match w.pressure
      case Some(p) =>
        r.pressMin <= p <= r.pressMax &&
        (r.pressMax != s.pressMax ==> p > s.pressMax) &&
        (r.pressMin != s.pressMin ==> p < s.pressMin) &&
        r.avgThisHour + r.avgThisHour == (s.pressLast + p) as real &&
        r.pressLast == p
      case None =>
        r.pressure == 0 && r.pressMax == s.pressMax && r.pressMin == s.pressMin &&
        r.avgThisHour == s.avgThisHour && r.pressLast == s.pressLast
  {
  }

  /**
   * Upload throttle: an upload goes out, carrying the frame's readings, and
   * its time is stamped exactly when the frame is a weather frame and more
   * than a minute has passed since the last upload.
   */
  lemma UploadThrottle(s: Snapshot, frame: Frame, indoor: (real, real), now: real)
    requires Shaped(s)
    ensures var (r, upload) := ApplyFrame(s, frame, indoor, now);
      (upload.Some? <==> frame.Weather? && now - s.lastUpload > UploadInterval) &&
      r.lastUpload == (if upload.Some? then now else s.lastUpload) &&
      (upload.Some? ==> upload.value == Upload(r.tempOut, r.humidOut, r.pressure, r.windSpeed, r.windGust, r.windDir, r.rainDay, r.rainHour))
  {
  }

  /** Any received frame stamps the receive time and shows a full signal. */
  lemma FrameMarksLinkAlive(s: Snapshot, frame: Frame, indoor: (real, real), now: real)
    requires Shaped(s)
    ensures var (r, _) := ApplyFrame(s, frame, indoor, now);
      r.lastReceive == now && r.signal == SignalFull &&
      r.startDay == s.startDay && r.startHour == s.startHour && r.avgLastHour == s.avgLastHour
  {
  }

  /** A received frame keeps the invariant. */
  lemma FrameKeepsSane(s: Snapshot, frame: Frame, indoor: (real, real), now: real)
    requires Sane(s)
    ensures Sane(ApplyFrame(s, frame, indoor, now).0)
  {
    var (r, _) := ApplyFrame(s, frame, indoor, now);
    if frame.Weather? {
      OutdoorExtremes(s, frame.fields, indoor, now);
      PressureTracking(s, frame.fields, indoor, now);
    }
  }

  // ---------------------------------------------------------------------
  // Properties of an idle tick
  // ---------------------------------------------------------------------

  /** Hour rollover: on a new hour this hour's pressure average becomes last hour's; otherwise neither changes. */
  lemma HourRollover(s: Snapshot, today: Stamp, now: real)
    requires Shaped(s)
    ensures var (r, _) := Idle(s, today, now);
      r.startHour == today.hour && r.avgThisHour == s.avgThisHour &&
      r.avgLastHour == (if today.hour != s.startHour then s.avgThisHour else s.avgLastHour)
  {
  }

  /**
   * Day rollover: on a new day both rings turn left by one place (yesterday
   * lands in slot 6, the oldest day is dropped), today's slots and the
   * indoor and pressure extremes are reset, the day is stamped and the
   * history is handed out for saving. On the same day nothing of this changes.
   */
  lemma DayRollover(s: Snapshot, today: Stamp, now: real)
    requires Shaped(s)
    ensures var (r, saved) := Idle(s, today, now);
      Shaped(r) && r.startDay == today.day &&
      if today.day != s.startDay then
        r.outMax[0] == MaxReset && r.outMin[0] == MinReset &&
        r.outMax[6] == s.outMax[0] && r.outMin[6] == s.outMin[0] &&
        (forall i :: 1 <= i < 6 ==> r.outMax[i] == s.outMax[i + 1] && r.outMin[i] == s.outMin[i + 1]) &&
        r.inMax == MaxReset && r.inMin == MinReset &&
        r.pressMax == PressMaxReset && r.pressMin == PressMinReset &&
        saved == Some(Saved(r))
      else
        r.outMax == s.outMax && r.outMin == s.outMin &&
        r.inMax == s.inMax && r.inMin == s.inMin &&
        r.pressMax == s.pressMax && r.pressMin == s.pressMin &&
        saved == None
  {
  }

  /** Once the day has rolled over, a second idle tick on the same day and hour rotates and resets nothing. */
  lemma SecondTickSameDay(s: Snapshot, today: Stamp, now: real, later: real)
    requires Shaped(s)
    ensures var (r, _) := Idle(s, today, now);
      var (r2, saved2) := Idle(r, today, later);
      saved2 == None && r2.(signal := r.signal) == r
  {
    var (r, _) := Idle(s, today, now);
    DayRollover(s, today, now);
    HourRollover(s, today, now);
    DayRollover(r, today, later);
  }

  /**
   * Liveness: an idle tick shows the link lost exactly when more than 25
   * seconds have passed since the last frame; at 25 seconds or less the
   * signal is left as it was.
   */
  lemma IdleLiveness(s: Snapshot, today: Stamp, now: real)
    requires Shaped(s)
    ensures var (r, _) := Idle(s, today, now);
      r.lastReceive == s.lastReceive &&
      r.signal == (if now - s.lastReceive > LinkTimeout then SignalLost else s.signal)
  {
  }

  /** An idle tick never touches the readings or the time stamps of receiving and uploading. */
  lemma IdleKeepsReadings(s: Snapshot, today: Stamp, now: real)
    requires Shaped(s)
    ensures var (r, _) := Idle(s, today, now);
      r.tempOut == s.tempOut && r.humidOut == s.humidOut && r.pressure == s.pressure &&
      r.rainDay == s.rainDay && r.rainHour == s.rainHour && r.windSpeed == s.windSpeed &&
      r.windGust == s.windGust && r.windDir == s.windDir && r.battery == s.battery &&
      r.tempIn == s.tempIn && r.humidIn == s.humidIn && r.pressLast == s.pressLast &&
      r.lastUpload == s.lastUpload
  {
  }

  /** An idle tick keeps the invariant. */
  lemma IdleKeepsSane(s: Snapshot, today: Stamp, now: real)
    requires Sane(s)
    ensures Sane(Idle(s, today, now).0)
  {
    DayRollover(s, today, now);
  }

  // ---------------------------------------------------------------------
  // The station's state, updated in place
  // ---------------------------------------------------------------------

  class StationState {
    var tempOut: real
    var humidOut: int
    var pressure: int
    var rainDay: real
    var rainHour: real
    var windSpeed: int
    var windGust: int
    var windDir: int
    var battery: real
    var tempIn: real
    var humidIn: int
    /** Daily outdoor maxima and minima; slot 0 is today, slots 1..6 the history. */
    var tempOutMax: seq<real>
    var tempOutMin: seq<real>
    var tempInMax: real
    var tempInMin: real
    var pressMax: int
    var pressMin: int
    var pressLast: int
    var pressAvThisHour: real
    var pressAvLastHour: real
    var startDay: int
    var startHour: int
    var lastReceive: real
    var lastUpload: real
    var signal: int

    predicate Valid()
      reads this
    {
      |tempOutMax| == RingSize && |tempOutMin| == RingSize
    }

    /** The state as a value. */
    function Current(): (s: Snapshot)
      reads this
      requires Valid()
      ensures Shaped(s)
    {
      Snapshot(
        tempOut, humidOut, pressure, rainDay, rainHour, windSpeed, windGust, windDir, battery,
        tempIn, humidIn, tempOutMax, tempOutMin, tempInMax, tempInMin,
        pressMax, pressMin, pressLast, pressAvThisHour, pressAvLastHour,
        startDay, startHour, lastReceive, lastUpload, signal)
    }

    /** The globals as the program sets them up at start-up. */
    constructor (now: real, today: Stamp)
      ensures Valid()
      ensures Current() == Initial(now, today)
    {
      tempOut, humidOut, pressure, rainDay, rainHour := 0.0, 0, 0, 0.0, 0.0;
      windSpeed, windGust, windDir, battery := 0, 0, 0, 0.0;
      tempIn, humidIn := 0.0, 0;
      tempOutMax := [MaxReset, 1.0, 1.0, 1.0, 1.0, 1.0, 1.0];
      tempOutMin := [MinReset, -1.0, -1.0, -1.0, -1.0, -1.0, -1.0];
      tempInMax, tempInMin := MaxReset, MinReset;
      pressMax, pressMin, pressLast := PressMaxReset, PressMinReset, 0;
      pressAvThisHour, pressAvLastHour := 0.0, 0.0;
      startDay, startHour := today.day, today.hour;
      lastReceive, lastUpload, signal := now, 0.0, SignalLost;
    }

    /** Reading the history file: slots 1..6 of both rings take the stored days, one slot at a time; today's slot is untouched. */
    method LoadHistory(h: History)
      requires Valid() && |h.maxes| == 6 && |h.mins| == 6
      modifies this`tempOutMax, this`tempOutMin
      ensures Valid()
      ensures Current() == Restore(old(Current()), h)
    {
      var maxes, mins := tempOutMax, tempOutMin;
      for index := 1 to RingSize
        invariant |maxes| == RingSize && |mins| == RingSize
        invariant maxes[0] == tempOutMax[0] && mins[0] == tempOutMin[0]
        invariant forall i :: 1 <= i < index ==> maxes[i] == h.maxes[i - 1] && mins[i] == h.mins[i - 1]
      {
        maxes := maxes[index := h.maxes[index - 1]];
        mins := mins[index := h.mins[index - 1]];
      }
      assert maxes == [tempOutMax[0]] + h.maxes;
      assert mins == [tempOutMin[0]] + h.mins;
      tempOutMax, tempOutMin := maxes, mins;
    }

    /** Today's outdoor temperature reading, compared into slot 0 of both rings. */
    method TakeTemperature(reading: Option<real>)
      requires Valid()
      modifies this`tempOut, this`tempOutMax, this`tempOutMin
      ensures Valid()
      ensures Current() == ApplyTemperature(old(Current()), reading)
    {
      match reading {
        case Some(t) =>
          tempOut := t;
          CompareOutdoor();
        case None =>
          tempOut := 0.0;
      }
    }

    /** The outdoor temperature, compared into today's slot of both rings. */
    method CompareOutdoor()
      requires Valid()
      modifies this`tempOutMax, this`tempOutMin
      ensures Valid()
      ensures Current() == old(Current()).(
        outMax := old(tempOutMax)[0 := Raise(old(tempOutMax)[0], tempOut)],
        outMin := old(tempOutMin)[0 := Lower(old(tempOutMin)[0], tempOut)])
    {
      if tempOut > tempOutMax[0] {
        tempOutMax := tempOutMax[0 := tempOut];
      }
      if tempOut < tempOutMin[0] {
        tempOutMin := tempOutMin[0 := tempOut];
      }
    }

    /** The outdoor humidity; a reading that failed to parse changes nothing. */
    method TakeHumidity(reading: Option<int>)
      requires Valid()
      modifies this`humidOut
      ensures Valid()
      ensures Current() == ApplyHumidity(old(Current()), reading)
    {
      if reading.Some? {
        humidOut := reading.value;
      }
    }

    /** A parsed pressure reading, compared into the pressure extremes. */
    method ComparePressure(p: int)
      requires Valid()
      modifies this`pressure, this`pressMax, this`pressMin
      ensures Valid()
      ensures Current() == old(Current()).(pressure := p, pressMax := RaiseInt(old(pressMax), p), pressMin := LowerInt(old(pressMin), p))
    {
      pressure := p;
      if pressure > pressMax {
        pressMax := pressure;
      }
      if pressure < pressMin {
        pressMin := pressure;
      }
    }

    /** This hour's pressure average: the mean of the previous reading and the current one, which then becomes the previous. */
    method AveragePressure()
      requires Valid()
      modifies this`pressAvThisHour, this`pressLast
      ensures Valid()
      ensures Current() == old(Current()).(avgThisHour := Average(old(pressLast), old(pressure)), pressLast := old(pressure))
    {
      pressAvThisHour := (pressLast + pressure) as real / 2.0;
      pressLast := pressure;
    }

    /** The pressure reading, its extremes, and the two-sample average of this hour. */
    method TakePressure(reading: Option<int>)
      requires Valid()
      modifies this`pressure, this`pressMax, this`pressMin, this`pressAvThisHour, this`pressLast
      ensures Valid()
      ensures Current() == ApplyPressure(old(Current()), reading)
    {
      match reading {
        case Some(p) =>
          ComparePressure(p);
          AveragePressure();
        case None =>
          pressure := 0;
      }
    }

    /** Rain today and this hour, each 0 when its slice failed to parse. */
    method TakeRain(w: WeatherFields)
      requires Valid()
      modifies this`rainDay, this`rainHour
      ensures Valid()
      ensures Current() == old(Current()).(rainDay := w.rainDay.GetOr(0.0), rainHour := w.rainHour.GetOr(0.0))
    {
      rainDay := w.rainDay.GetOr(0.0);
      rainHour := w.rainHour.GetOr(0.0);
    }

    /** Wind speed, gust and direction, each 0 when its slice failed to parse. */
    method TakeWind(w: WeatherFields)
      requires Valid()
      modifies this`windSpeed, this`windGust, this`windDir
      ensures Valid()
      ensures Current() == old(Current()).(windSpeed := w.windSpeed.GetOr(0), windGust := w.windGust.GetOr(0), windDir := w.windDir.GetOr(0))
    {
      windSpeed := w.windSpeed.GetOr(0);
      windGust := w.windGust.GetOr(0);
      windDir := w.windDir.GetOr(0);
    }

    /** The upload decision after a weather frame. */
    method ThrottleUpload(now: real) returns (upload: Option<Upload>)
      requires Valid()
      modifies this`lastUpload
      ensures Valid()
      ensures (Current(), upload) == Throttle(old(Current()), now)
    {
      upload := None;
      if now - lastUpload > UploadInterval {
        lastUpload := now;
        upload := Some(Upload(tempOut, humidOut, pressure, windSpeed, windGust, windDir, rainDay, rainHour));
      }
    }

    /** A weather frame's fields, in the order the frame lists them, then the throttled upload. */
    method TakeWeather(w: WeatherFields, now: real) returns (upload: Option<Upload>)
      requires Valid()
      modifies this
      ensures Valid()
      ensures (Current(), upload) == ApplyWeather(old(Current()), w, now)
    {
      TakeTemperature(w.tempOut);
      TakeHumidity(w.humidOut);
      TakePressure(w.pressure);
      TakeRain(w);
      TakeWind(w);
      upload := ThrottleUpload(now);
    }

    /** The indoor readings of every received frame: humidity truncated to whole percent. */
    method TakeIndoorReadings(humid: real, temp: real)
      requires Valid()
      modifies this`humidIn, this`tempIn
      ensures Valid()
      ensures Current() == old(Current()).(humidIn := Truncate(humid), tempIn := temp)
    {
      humidIn := Truncate(humid);
      tempIn := temp;
    }

    /** The indoor temperature, compared into the indoor extremes. */
    method CompareIndoor()
      requires Valid()
      modifies this`tempInMax, this`tempInMin
      ensures Valid()
      ensures Current() == old(Current()).(inMax := Raise(old(tempInMax), tempIn), inMin := Lower(old(tempInMin), tempIn))
    {
      if tempIn > tempInMax {
        tempInMax := tempIn;
      }
      if tempIn < tempInMin {
        tempInMin := tempIn;
      }
    }

    /** The indoor part of every received frame. */
    method TakeIndoor(humid: real, temp: real)
      requires Valid()
      modifies this`humidIn, this`tempIn, this`tempInMax, this`tempInMin
      ensures Valid()
      ensures Current() == ApplyIndoor(old(Current()), humid, temp)
    {
      TakeIndoorReadings(humid, temp);
      CompareIndoor();
    }

    /** The status part of a frame: the battery voltage, or 0 when it failed to parse. */
    method TakeStatus(b: Option<real>)
      requires Valid()
      modifies this`battery
      ensures Valid()
      ensures Current() == ApplyStatus(old(Current()), b)
    {
      battery := b.GetOr(0.0);
    }

    /** The receive time stamped and the signal shown full. */
    method MarkLinkAlive(now: real)
      requires Valid()
      modifies this`lastReceive, this`signal
      ensures Valid()
      ensures Current() == MarkAlive(old(Current()), now)
    {
      lastReceive := now;
      signal := SignalFull;
    }

    /** A tick on which a frame arrived. */
    method ReceiveFrame(payload: string, samples: seq<IndoorSensor.Reading>, now: real) returns (upload: Option<Upload>)
      requires Valid() && |payload| >= 1 && |samples| == 3
      modifies this
      ensures Valid()
      ensures (Current(), upload) == Receive(old(Current()), payload, samples, now)
    {
      var humid, temp := IndoorSensor.GetInsideTempHumid(samples);
      TakeIndoor(humid, temp);
      upload := None;
      match DecodeFrame(payload) {
        case Weather(w) =>
          upload := TakeWeather(w, now);
        case Status(b) =>
          TakeStatus(b);
      }
      MarkLinkAlive(now);
    }

    /** The hour check of an idle tick. */
    method RollHour(today: Stamp)
      requires Valid()
      modifies this`startHour, this`pressAvLastHour
      ensures Valid()
      ensures Current() == NewHour(old(Current()), today)
    {
      if today.hour != startHour {
        startHour := today.hour;
        pressAvLastHour := pressAvThisHour;
      }
    }

    /** Both rings rebuilt turned left by one place, then today's slots reset. */
    method RotateRings()
      requires Valid()
      modifies this`tempOutMax, this`tempOutMin
      ensures Valid()
      ensures Current() == old(Current()).(outMax := Rollover(old(tempOutMax), MaxReset), outMin := Rollover(old(tempOutMin), MinReset))
    {
      var maxes := tempOutMax[1..] + tempOutMax[..1];
      var mins := tempOutMin[1..] + tempOutMin[..1];
      maxes := maxes[0 := MaxReset];
      mins := mins[0 := MinReset];
      tempOutMax, tempOutMin := maxes, mins;
    }

    /** Today's indoor extremes back to their sentinels. */
    method ResetIndoorExtremes()
      requires Valid()
      modifies this`tempInMax, this`tempInMin
      ensures Valid()
      ensures Current() == old(Current()).(inMax := MaxReset, inMin := MinReset)
    {
      tempInMax, tempInMin := MaxReset, MinReset;
    }

    /** Today's pressure extremes back to their sentinels. */
    method ResetPressureExtremes()
      requires Valid()
      modifies this`pressMax, this`pressMin
      ensures Valid()
      ensures Current() == old(Current()).(pressMax := PressMaxReset, pressMin := PressMinReset)
    {
      pressMax, pressMin := PressMaxReset, PressMinReset;
    }

    /** The day check of an idle tick; returns the history the file is to receive. */
    method RollDay(today: Stamp) returns (saved: Option<History>)
      requires Valid()
      modifies this`tempOutMax, this`tempOutMin, this`tempInMax, this`tempInMin, this`pressMax, this`pressMin, this`startDay
      ensures Valid()
      ensures (Current(), saved) == NewDay(old(Current()), today)
    {
      saved := None;
      if today.day != startDay {
        RotateRings();
        ResetIndoorExtremes();
        ResetPressureExtremes();
        startDay := today.day;
        saved := Some(History(tempOutMax[1..], tempOutMin[1..]));
      }
    }

    /** The link check of an idle tick. */
    method CheckLink(now: real)
      requires Valid()
      modifies this`signal
      ensures Valid()
      ensures Current() == LinkCheck(old(Current()), now)
    {
      if now - lastReceive > LinkTimeout {
        signal := SignalLost;
      }
    }

    /** A tick on which no frame arrived; returns the history to save when the day rolled over. */
    method IdleTick(today: Stamp, now: real) returns (saved: Option<History>)
      requires Valid()
      modifies this
      ensures Valid()
      ensures (Current(), saved) == Idle(old(Current()), today, now)
    {
      RollHour(today);
      saved := RollDay(today);
      CheckLink(now);
    }
  }
}
