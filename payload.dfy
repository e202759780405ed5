/**
 * The radio frame decoder. A frame is a short ASCII text; its first
 * character selects the kind: 'T' is a weather frame cut into fixed slices,
 * anything else is a status frame carrying the battery voltage. Every field
 * is parsed on its own: a field that does not parse is reported as None and
 * the others are still read.
 *
 * Weather layout (0-based, half-open):
 *   T tt.t H hh P pppp R rrr.r r hh.h W ss gg ddd
 *   tag [0,1)  outdoor temperature [1,5)  humidity [6,8)  pressure [9,13)
 *   rain today [14,19)  rain this hour [20,24)
 *   wind speed [25,27)  wind gust [27,29)  wind direction [29,32)
 * Status layout: tag [0,1), battery voltage [1,6).
 */
module Payload {
  import opened Wrappers
  import opened Numerals

  /** Each field of a weather frame, as parsed from its own slice. */
  datatype WeatherFields = WeatherFields(
    tempOut: Option<real>,
    humidOut: Option<int>,
    pressure: Option<int>,
    rainDay: Option<real>,
    rainHour: Option<real>,
    windSpeed: Option<int>,
    windGust: Option<int>,
    windDir: Option<int>)

  datatype Frame =
    | Weather(fields: WeatherFields)
    | Status(battery: Option<real>)

  /**
   * Python's s[lo:hi] for 0 <= lo <= hi: the characters at lo..hi-1 that
   * exist, so a slice reaching past the end is shorter, possibly empty.
   */
  function Slice(s: string, lo: nat, hi: nat): (r: string)
    requires lo <= hi
    ensures |r| == (if hi <= |s| then hi - lo else if lo <= |s| then |s| - lo else 0)
  {
    if |s| <= lo then [] else if |s| <= hi then s[lo..] else s[lo..hi]
  }

  /** The contents of a slice: character i of s[lo:hi] is character lo + i of s. */
  lemma SliceContents(s: string, lo: nat, hi: nat)
    requires lo <= hi
    ensures forall i :: 0 <= i < |Slice(s, lo, hi)| ==> Slice(s, lo, hi)[i] == s[lo + i]
  {
  }

  /** The eight fields of a weather frame, in the order the layout lists them. */
  datatype Field = Temp | Humid | Press | RainDay | RainHour | Speed | Gust | Dir

  /** Where each field's slice starts and ends in a weather frame. */
  function Span(f: Field): (span: (nat, nat))
    ensures span.0 < span.1 <= 32
  {
    match f
    case Temp => (1, 5)
    case Humid => (6, 8)
    case Press => (9, 13)
    case RainDay => (14, 19)
    case RainHour => (20, 24)
    case Speed => (25, 27)
    case Gust => (27, 29)
    case Dir => (29, 32)
  }

  /** The slice of a payload that holds field f. */
  function FieldSlice(payload: string, f: Field): string
  {
    Slice(payload, Span(f).0, Span(f).1)
  }

  /** Each field of a weather frame parsed from its own slice: float() for the decimals, int() for the rest. */
  function DecodeWeather(payload: string): (w: WeatherFields)
    ensures w.tempOut.Some? ==> |payload| > 1
    ensures w.humidOut.Some? ==> |payload| > 6
    ensures w.pressure.Some? ==> |payload| > 9
    ensures w.rainDay.Some? ==> |payload| > 14
    ensures w.rainHour.Some? ==> |payload| > 20
    ensures w.windSpeed.Some? ==> |payload| > 25
    ensures w.windGust.Some? ==> |payload| > 27
    ensures w.windDir.Some? ==> |payload| > 29
  {
    WeatherFields(
      tempOut := ParseFloat(FieldSlice(payload, Temp)),
      humidOut := ParseInt(FieldSlice(payload, Humid)),
      pressure := ParseInt(FieldSlice(payload, Press)),
      rainDay := ParseFloat(FieldSlice(payload, RainDay)),
      rainHour := ParseFloat(FieldSlice(payload, RainHour)),
      windSpeed := ParseInt(FieldSlice(payload, Speed)),
      windGust := ParseInt(FieldSlice(payload, Gust)),
      windDir := ParseInt(FieldSlice(payload, Dir)))
  }

  /** The battery voltage of a status frame, parsed from characters 1..5. */
  function DecodeStatus(payload: string): (v: Option<real>)
    ensures v.Some? ==> |payload| > 1
  {
    ParseFloat(Slice(payload, 1, 6))
  }

  /**
   * The frame a received payload carries. The tag is read outside any
   * fault handling, so an empty payload is not a frame at all.
   */
  function DecodeFrame(payload: string): (f: Frame)
    requires |payload| >= 1
    ensures f.Weather? <==> payload[0] == 'T'
    ensures f.Status? ==> f.battery == ParseFloat(Slice(payload, 1, 6))
  {
    if payload[0] == 'T' then Weather(DecodeWeather(payload)) else Status(DecodeStatus(payload))
  }

  /** Two payloads agree on positions lo..hi-1: the same positions exist in both, holding the same characters. */
  predicate AgreeOn(p: string, q: string, lo: nat, hi: nat)
  {
    forall i :: lo <= i < hi ==> SameAt(p, q, i)
  }

  predicate SameAt(p: string, q: string, i: nat)
  {
    (i < |p| <==> i < |q|) && (i < |p| ==> p[i] == q[i])
  }

  lemma SliceLocal(p: string, q: string, lo: nat, hi: nat)
    requires lo <= hi && AgreeOn(p, q, lo, hi)
    ensures Slice(p, lo, hi) == Slice(q, lo, hi)
  {
    var a, b := Slice(p, lo, hi), Slice(q, lo, hi);
    // the end of p's slice is also the end of q's slice
    var end := lo + |a|;
    if end < hi {
      assert SameAt(p, q, end);
    }
    if lo < end {
      assert SameAt(p, q, end - 1);
    }
    forall i | 0 <= i < |a| ensures a[i] == b[i] {
      assert SameAt(p, q, lo + i);
    }
  }

  /**
   * Field independence: a field's value depends only on the characters of
   * its own slice, so a corrupted or truncated neighbour never changes it.
   */
  lemma FieldsAreLocal(p: string, q: string)
    ensures AgreeOn(p, q, 1, 5) ==> DecodeWeather(p).tempOut == DecodeWeather(q).tempOut
    ensures AgreeOn(p, q, 6, 8) ==> DecodeWeather(p).humidOut == DecodeWeather(q).humidOut
    ensures AgreeOn(p, q, 9, 13) ==> DecodeWeather(p).pressure == DecodeWeather(q).pressure
    ensures AgreeOn(p, q, 14, 19) ==> DecodeWeather(p).rainDay == DecodeWeather(q).rainDay
    ensures AgreeOn(p, q, 20, 24) ==> DecodeWeather(p).rainHour == DecodeWeather(q).rainHour
    ensures AgreeOn(p, q, 25, 27) ==> DecodeWeather(p).windSpeed == DecodeWeather(q).windSpeed
    ensures AgreeOn(p, q, 27, 29) ==> DecodeWeather(p).windGust == DecodeWeather(q).windGust
    ensures AgreeOn(p, q, 29, 32) ==> DecodeWeather(p).windDir == DecodeWeather(q).windDir
    ensures AgreeOn(p, q, 1, 6) ==> DecodeStatus(p) == DecodeStatus(q)
  {
    assert AgreeOn(p, q, 1, 5) ==> DecodeWeather(p).tempOut == DecodeWeather(q).tempOut by {
      if AgreeOn(p, q, 1, 5) { SliceLocal(p, q, 1, 5); }
    }
    assert AgreeOn(p, q, 6, 8) ==> DecodeWeather(p).humidOut == DecodeWeather(q).humidOut by {
      if AgreeOn(p, q, 6, 8) { SliceLocal(p, q, 6, 8); }
    }
    assert AgreeOn(p, q, 9, 13) ==> DecodeWeather(p).pressure == DecodeWeather(q).pressure by {
      if AgreeOn(p, q, 9, 13) { SliceLocal(p, q, 9, 13); }
    }
    assert AgreeOn(p, q, 14, 19) ==> DecodeWeather(p).rainDay == DecodeWeather(q).rainDay by {
      if AgreeOn(p, q, 14, 19) { SliceLocal(p, q, 14, 19); }
    }
    assert AgreeOn(p, q, 20, 24) ==> DecodeWeather(p).rainHour == DecodeWeather(q).rainHour by {
      if AgreeOn(p, q, 20, 24) { SliceLocal(p, q, 20, 24); }
    }
    assert AgreeOn(p, q, 25, 27) ==> DecodeWeather(p).windSpeed == DecodeWeather(q).windSpeed by {
      if AgreeOn(p, q, 25, 27) { SliceLocal(p, q, 25, 27); }
    }
    assert AgreeOn(p, q, 27, 29) ==> DecodeWeather(p).windGust == DecodeWeather(q).windGust by {
      if AgreeOn(p, q, 27, 29) { SliceLocal(p, q, 27, 29); }
    }
    assert AgreeOn(p, q, 29, 32) ==> DecodeWeather(p).windDir == DecodeWeather(q).windDir by {
      if AgreeOn(p, q, 29, 32) { SliceLocal(p, q, 29, 32); }
    }
    assert AgreeOn(p, q, 1, 6) ==> DecodeStatus(p) == DecodeStatus(q) by {
      if AgreeOn(p, q, 1, 6) { SliceLocal(p, q, 1, 6); }
    }
  }

  /** A frame cut off early: every field whose slice starts at or past the end is missing. */
  lemma TruncatedFieldsFail(payload: string)
    ensures |payload| <= 1 ==> DecodeWeather(payload).tempOut == None && DecodeStatus(payload) == None
    ensures |payload| <= 6 ==> DecodeWeather(payload).humidOut == None
    ensures |payload| <= 9 ==> DecodeWeather(payload).pressure == None
    ensures |payload| <= 14 ==> DecodeWeather(payload).rainDay == None
    ensures |payload| <= 20 ==> DecodeWeather(payload).rainHour == None
    ensures |payload| <= 25 ==> DecodeWeather(payload).windSpeed == None
    ensures |payload| <= 27 ==> DecodeWeather(payload).windGust == None
    ensures |payload| <= 29 ==> DecodeWeather(payload).windDir == None
  {
  }

  /**
   * A frame cut off inside the pressure field is not caught: the digits
   * that arrived still parse, so the pressure reads a wrong value rather
   * than the fallback ("...P10" reads 10 hPa), while every later field fails.
   */
  lemma CutOffPressureMisread(p: string)
    requires 9 < |p| < 13 && AllDigits(p[9..])
    ensures DecodeWeather(p).pressure == Some(DigitsValue(p[9..]))
    ensures DecodeWeather(p).rainDay == None
  {
    assert FieldSlice(p, Press) == p[9..];
    ParseIntDigits(p[9..]);
  }

  /**
   * A night-mode weather frame, tagged 't', is not recognised: only 'T'
   * selects the weather branch, so it is read as a status frame whose
   * voltage slice ends in the humidity tag 'H'. float() fails on it, the
   * battery reads 0 and the frame's readings are dropped.
   */
  lemma NightFrameReadAsStatus(p: string)
    requires |p| >= 6 && p[0] == 't' && p[5] == 'H'
    ensures DecodeFrame(p) == Status(None)
  {
    assert Slice(p, 1, 6) == p[1..6];
    TrailingLetterFails(p[1..6]);
  }

  // ---------------------------------------------------------------------
  // The layout written out: what the outdoor unit sends for one reading.
  // ---------------------------------------------------------------------

  /** One outdoor reading in the units the frame carries; temperatures and rain in tenths. */
  datatype Sample = Sample(
    tempTenths: int,
    humidity: nat,
    pressure: nat,
    rainDayTenths: nat,
    rainHourTenths: nat,
    windSpeed: nat,
    windGust: nat,
    windDir: nat)

  /** The readings each fixed-width field can hold: -9.9..99.9 C, 0..99 %, 0..9999 hPa, 0..999.9 mm, 0..99.9 mm/h, two and three wind digits. */
  predicate Encodable(s: Sample)
  {
    -99 <= s.tempTenths < 1000 && s.humidity < 100 && s.pressure < 10000 &&
    s.rainDayTenths < 10000 && s.rainHourTenths < 1000 &&
    s.windSpeed < 100 && s.windGust < 100 && s.windDir < 1000
  }

  /** The four-character temperature field: "dd.d" at or above zero, "-d.d" below. */
  function TempText(tenths: int): (s: string)
    requires -99 <= tenths < 1000
    ensures |s| == 4
  {
    if tenths >= 0 then FormatTenths(tenths, 2) else "-" + FormatTenths(-tenths, 1)
  }

  /** The weather frame the outdoor unit sends for a reading, laid out as the module comment shows. */
  function EncodeWeather(s: Sample): (p: string)
    requires Encodable(s)
    ensures |p| == 32 && p[0] == 'T'
  {
    WeatherHead(s) + WeatherTail(s)
  }

  /** The first 13 characters of a weather frame: the tag, the temperature, the humidity and the pressure. */
  function WeatherHead(s: Sample): (p: string)
    requires Encodable(s)
    ensures |p| == 13
  {
    "T" + TempText(s.tempTenths) + "H" + ZeroPad(s.humidity, 2) + "P" + ZeroPad(s.pressure, 4)
  }

  /** The last 19 characters: the rain fields, then the wind fields. */
  function WeatherTail(s: Sample): (p: string)
    requires Encodable(s)
    ensures |p| == 19
  {
    WeatherRain(s) + WeatherWind(s)
  }

  /** Characters 13 to 23 of a weather frame: rain today and rain this hour. */
  function WeatherRain(s: Sample): (p: string)
    requires Encodable(s)
    ensures |p| == 11
  {
    "R" + FormatTenths(s.rainDayTenths, 3) + "r" + FormatTenths(s.rainHourTenths, 2)
  }

  /** The last 8 characters of a weather frame: wind speed, gust and direction. */
  function WeatherWind(s: Sample): (p: string)
    requires Encodable(s)
    ensures |p| == 8
  {
    "W" + ZeroPad(s.windSpeed, 2) + ZeroPad(s.windGust, 2) + ZeroPad(s.windDir, 3)
  }

  /** The temperature field reads back as the tenths written, divided by ten, on both sides of zero. */
  lemma TempTextValue(tenths: int)
    requires -99 <= tenths < 1000
    ensures ParseFloat(TempText(tenths)) == Some(Tenths(tenths))
  {
    if tenths >= 0 {
      assert TempText(tenths) == FormatTenths(tenths, 2);
      ParseFloatTenths(tenths, 2);
    } else {
      var t: nat := -tenths;
      assert TempText(tenths) == "-" + FormatTenths(t, 1);
      ParseFloatNegatedTenths(t);
      assert -Tenths(t) == Tenths(tenths);
    }
  }

  /** The text the outdoor unit writes for one field of a reading. */
  function FieldText(s: Sample, f: Field): string
    requires Encodable(s)
  {
    match f
    case Temp => TempText(s.tempTenths)
    case Humid => ZeroPad(s.humidity, 2)
    case Press => ZeroPad(s.pressure, 4)
    case RainDay => FormatTenths(s.rainDayTenths, 3)
    case RainHour => FormatTenths(s.rainHourTenths, 2)
    case Speed => ZeroPad(s.windSpeed, 2)
    case Gust => ZeroPad(s.windGust, 2)
    case Dir => ZeroPad(s.windDir, 3)
  }

  /** A slice that ends inside the first part of a concatenation is a slice of that part. */
  lemma SliceOfHead(q: string, r: string, lo: nat, hi: nat)
    requires lo <= hi <= |q|
    ensures Slice(q + r, lo, hi) == q[lo..hi]
  {
    assert (q + r)[lo..hi] == q[lo..hi];
  }

  /** A slice that starts after the first part of a concatenation is a slice of the second part. */
  lemma SliceOfTail(q: string, r: string, lo: nat, hi: nat)
    requires |q| <= lo <= hi <= |q| + |r|
    ensures Slice(q + r, lo, hi) == r[lo - |q|..hi - |q|]
  {
    assert (q + r)[lo..hi] == r[lo - |q|..hi - |q|];
  }

  /** Each slice of the written frame holds the text of its own field. */
  lemma EncodedFieldText(s: Sample, f: Field)
    requires Encodable(s)
    ensures Slice(EncodeWeather(s), Span(f).0, Span(f).1) == FieldText(s, f)
  {
    if f == Temp || f == Humid || f == Press {
      SliceOfHead(WeatherHead(s), WeatherTail(s), Span(f).0, Span(f).1);
      HeadFieldText(s, f);
    } else {
      SliceOfTail(WeatherHead(s), WeatherTail(s), Span(f).0, Span(f).1);
      TailFieldText(s, f);
    }
  }

  /** Where the temperature, humidity and pressure sit in the first part of the frame. */
  lemma HeadFieldText(s: Sample, f: Field)
    requires Encodable(s) && (f == Temp || f == Humid || f == Press)
    ensures WeatherHead(s)[Span(f).0..Span(f).1] == FieldText(s, f)
  {
    var head := WeatherHead(s);
    match f
    case Temp => assert head[1..5] == TempText(s.tempTenths);
    case Humid => assert head[6..8] == ZeroPad(s.humidity, 2);
    case Press => assert head[9..13] == ZeroPad(s.pressure, 4);
  }

  /** Where the rain and wind fields sit in the second part of the frame, which starts at position 13. */
  lemma TailFieldText(s: Sample, f: Field)
    requires Encodable(s) && !(f == Temp || f == Humid || f == Press)
    ensures WeatherTail(s)[Span(f).0 - 13..Span(f).1 - 13] == FieldText(s, f)
  {
    var tail, rain, wind := WeatherTail(s), WeatherRain(s), WeatherWind(s);
    var lo, hi := Span(f).0 - 13, Span(f).1 - 13;
    if f == RainDay || f == RainHour {
      assert tail[lo..hi] == rain[lo..hi];
      if f == RainDay {
        assert rain[1..6] == FormatTenths(s.rainDayTenths, 3);
      } else {
        assert rain[7..11] == FormatTenths(s.rainHourTenths, 2);
      }
    } else {
      assert tail[lo..hi] == wind[lo - 11..hi - 11];
      if f == Speed {
        assert wind[1..3] == ZeroPad(s.windSpeed, 2);
      } else if f == Gust {
        assert wind[3..5] == ZeroPad(s.windGust, 2);
      } else {
        assert wind[5..8] == ZeroPad(s.windDir, 3);
      }
    }
  }

  /** The reading a weather frame carries when each slice holds the text of its field. */
  function Expected(s: Sample): WeatherFields
  {
    WeatherFields(
      tempOut := Some(Tenths(s.tempTenths)),
      humidOut := Some(s.humidity),
      pressure := Some(s.pressure),
      rainDay := Some(Tenths(s.rainDayTenths)),
      rainHour := Some(Tenths(s.rainHourTenths)),
      windSpeed := Some(s.windSpeed),
      windGust := Some(s.windGust),
      windDir := Some(s.windDir))
  }

  /** The decimal fields of a weather frame and the integer fields. */
  predicate IsDecimal(f: Field) { f == Temp || f == RainDay || f == RainHour }

  /** The value a reading holds for a decimal field. */
  function DecimalOf(s: Sample, f: Field): real
    requires IsDecimal(f)
  {
    match f
    case Temp => Tenths(s.tempTenths)
    case RainDay => Tenths(s.rainDayTenths)
    case RainHour => Tenths(s.rainHourTenths)
  }

  /** The value a reading holds for an integer field. */
  function IntegerOf(s: Sample, f: Field): int
    requires !IsDecimal(f)
  {
    match f
    case Humid => s.humidity
    case Press => s.pressure
    case Speed => s.windSpeed
    case Gust => s.windGust
    case Dir => s.windDir
  }

  /** A decimal field of the written frame parses back to the reading's value. */
  lemma DecimalFieldRoundTrip(s: Sample, f: Field)
    requires Encodable(s) && IsDecimal(f)
    ensures ParseFloat(FieldSlice(EncodeWeather(s), f)) == Some(DecimalOf(s, f))
  {
    EncodedFieldText(s, f);
    match f
    case Temp => TempTextValue(s.tempTenths);
    case RainDay => ParseFloatTenths(s.rainDayTenths, 3);
    case RainHour => ParseFloatTenths(s.rainHourTenths, 2);
  }

  /** An integer field of the written frame parses back to the reading's value. */
  lemma IntegerFieldRoundTrip(s: Sample, f: Field)
    requires Encodable(s) && !IsDecimal(f)
    ensures ParseInt(FieldSlice(EncodeWeather(s), f)) == Some(IntegerOf(s, f))
  {
    EncodedFieldText(s, f);
    match f
    case Humid => ParseIntZeroPad(s.humidity, 2);
    case Press => ParseIntZeroPad(s.pressure, 4);
    case Speed => ParseIntZeroPad(s.windSpeed, 2);
    case Gust => ParseIntZeroPad(s.windGust, 2);
    case Dir => ParseIntZeroPad(s.windDir, 3);
  }

  /** Field f of payload p parses to the value reading s holds for it. */
  predicate FieldParses(p: string, s: Sample, f: Field)
  {
    if IsDecimal(f) then ParseFloat(FieldSlice(p, f)) == Some(DecimalOf(s, f))
    else ParseInt(FieldSlice(p, f)) == Some(IntegerOf(s, f))
  }

  /** The per-field facts, one field at a time. */
  lemma ParsedAtSpans(p: string, s: Sample)
    requires forall f :: FieldParses(p, s, f)
    ensures ParseFloat(FieldSlice(p, Temp)) == Some(Tenths(s.tempTenths))
    ensures ParseInt(FieldSlice(p, Humid)) == Some(s.humidity)
    ensures ParseInt(FieldSlice(p, Press)) == Some(s.pressure)
    ensures ParseFloat(FieldSlice(p, RainDay)) == Some(Tenths(s.rainDayTenths))
    ensures ParseFloat(FieldSlice(p, RainHour)) == Some(Tenths(s.rainHourTenths))
    ensures ParseInt(FieldSlice(p, Speed)) == Some(s.windSpeed)
    ensures ParseInt(FieldSlice(p, Gust)) == Some(s.windGust)
    ensures ParseInt(FieldSlice(p, Dir)) == Some(s.windDir)
  {
    assert FieldParses(p, s, Temp);
    assert FieldParses(p, s, Humid);
    assert FieldParses(p, s, Press);
    assert FieldParses(p, s, RainDay);
    assert FieldParses(p, s, RainHour);
    assert FieldParses(p, s, Speed);
    assert FieldParses(p, s, Gust);
    assert FieldParses(p, s, Dir);
  }

  /** A payload whose eight slices parse to a reading's values decodes to that reading. */
  lemma DecodeParsedFields(p: string, s: Sample)
    requires ParseFloat(FieldSlice(p, Temp)) == Some(Tenths(s.tempTenths))
    requires ParseInt(FieldSlice(p, Humid)) == Some(s.humidity)
    requires ParseInt(FieldSlice(p, Press)) == Some(s.pressure)
    requires ParseFloat(FieldSlice(p, RainDay)) == Some(Tenths(s.rainDayTenths))
    requires ParseFloat(FieldSlice(p, RainHour)) == Some(Tenths(s.rainHourTenths))
    requires ParseInt(FieldSlice(p, Speed)) == Some(s.windSpeed)
    requires ParseInt(FieldSlice(p, Gust)) == Some(s.windGust)
    requires ParseInt(FieldSlice(p, Dir)) == Some(s.windDir)
    ensures DecodeWeather(p) == Expected(s)
  {
  }

  /** The frame round trip: every weather frame written for an encodable reading decodes to exactly that reading. */
  lemma DecodeEncodeWeather(s: Sample)
    requires Encodable(s)
    ensures DecodeFrame(EncodeWeather(s)) == Weather(Expected(s))
  {
    forall f ensures FieldParses(EncodeWeather(s), s, f) {
      if IsDecimal(f) {
        DecimalFieldRoundTrip(s, f);
      } else {
        IntegerFieldRoundTrip(s, f);
      }
    }
    ParsedAtSpans(EncodeWeather(s), s);
    DecodeParsedFields(EncodeWeather(s), s);
  }

  /** The frame written for 23.5 C, 62 %, 1013 hPa, 2.4 mm today, 0.3 mm this hour and wind 5 gusting 10 from 180 degrees reads back as exactly those numbers. */
  lemma ExampleWeatherFrame()
    ensures DecodeFrame(EncodeWeather(Sample(235, 62, 1013, 24, 3, 5, 10, 180)))
         == Weather(WeatherFields(Some(23.5), Some(62), Some(1013), Some(2.4), Some(0.3), Some(5), Some(10), Some(180)))
  {
    DecodeEncodeWeather(Sample(235, 62, 1013, 24, 3, 5, 10, 180));
  }
}
