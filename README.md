# Weather station receiver, modelled in Dafny

This project models the receiving side of a home weather station: a Raspberry Pi program,
`RaspberryPi/WeatherStation.py`, that polls a radio for frames from an outdoor unit. It then
keeps the current readings, today's extremes and a seven-day temperature history, and it
decides when to upload the readings.

The model covers:

- **The frame decoder** (module `Payload`, on top of `Numerals`).
  - The first character selects the kind of frame. `'T'` marks a weather frame, cut into
    eight fixed slices. Any other character marks a status frame that carries the battery
    voltage.
  - Every slice is parsed on its own by a model of the part of Python's `int()` and
    `float()` that such a field can hold. A slice that does not parse is `None`.
  - Python's slicing past the end of a string is modelled: the slice is shorter, possibly
    empty. An empty or blank slice fails to parse. A slice cut short still parses the
    characters that arrived, so a frame cut off inside a field gives that field a wrong
    value rather than its fallback (`Payload.CutOffPressureMisread`).
  - A reference encoder writes the frame layout shown in the source's comment. It is used to
    prove that decoding a written frame gives back exactly the reading it was written for.
- **The station state and its per-tick update** (module `Station`).
  - `StationState` is a class whose fields are the program's globals, plus `signal`, the
    state of the display's signal icon (lines 317-321, set at lines 492 and 514). Its methods
    update them step by step, as `Get_Weather_Updates` does.
  - The value type `Snapshot` and the functions `Receive` and `Idle` say what one tick does.
    Each method's postcondition ties the object's new state to these functions. The lemmas
    prove the properties of `Receive` and `Idle`: tag dispatch, per-field fault tolerance,
    the running extremes, the pressure average, the hour and day rollovers, link liveness,
    the upload throttle, and an invariant that every tick keeps.
- **The indoor sensor filter** (module `IndoorSensor`). It takes three reads, each of which
  may fail, sorts each list of three and calibrates the middle element. The result is proved
  to be the calibrated median.
- **The display rules** (module `DisplayRules`): the pressure trend with its ±1 hPa
  deadband, the battery icon thresholds, the metric to imperial conversions and the weekday
  labels of the history chart.
- **The history file.** `ReadINI` and `WriteINI` touch only slots 1..6 of the two rings.
  They are modelled as a `History` value that is written out and read back.

All clock readings are parameters:

- `now` is the wall clock in seconds;
- a `Stamp` is the day of the month and the hour that the code compares.

Each of the three indoor sensor reads is an input: `Some((humidity, temperature))`, or `None`
when the read raised. The payload is the received text.

Model decisions:

- **The day rollover as the code does it.** One might expect yesterday's extremes to move
  into slot 1. The code at line 502 turns each ring left by one place and then overwrites
  slot 0. Yesterday therefore lands in slot 6 and the oldest day is dropped. The model follows the code (`Station.Rollover`, `Station.DayRollover`).
- **A failed humidity parse keeps the previous value.** The fallback at line 435 assigns
  `GHumidInt`, a variable nothing else uses. So when the humidity slice fails to parse, the
  outdoor humidity keeps its previous value. The model does exactly that, unlike the other
  fields, which fall back to 0.
- **The first pressure average is half a reading.** `GPressLastInt` starts at 0 (line 546),
  so the first parsed pressure `p` sets this hour's average to `p / 2`. The model keeps this.
- **An empty payload is not a frame.** The tag at line 421 is read outside any fault
  handling. For an empty payload the IndexError escapes `Get_Weather_Updates`; the Tk
  callback wrapper reports it and the main loop goes on, but line 515 is never reached, so
  polling is never rescheduled and the display freezes. `DecodeFrame`, `Receive` and
  `ReceiveFrame` therefore require at least one character.
- **A night-mode frame is read as a status frame.** The frame layout comment (lines 398-399)
  names a 't' tag for night mode, but line 421 sends every tag other than 'T' to the status
  branch. There the voltage slice of a night frame ends in the humidity tag 'H', so float()
  fails at line 487, the battery voltage becomes 0 and the readings are dropped. The model
  follows the code (`Payload.NightFrameReadAsStatus`).

## Model

| member | source | states |
|---|---|---|
| Numerals.ParseInt | RaspberryPi/WeatherStation.py:433 | int() on a slice that is blank after stripping whitespace, including an empty slice past the end of the payload, fails |
| Numerals.ParseFloat | RaspberryPi/WeatherStation.py:424 | float() on a blank or empty slice fails |
| Numerals.ParseDecimal | RaspberryPi/WeatherStation.py:424 | an unsigned decimal that parses is never negative |
| Numerals.IndexOf | RaspberryPi/WeatherStation.py:424 | the position of the decimal point float() splits at: the first occurrence, or the length when there is none |
| Station.Truncate | RaspberryPi/WeatherStation.py:412 | int() on a float truncates toward zero: the integer part, on both sides of zero |
| Numerals.ParseIntZeroPad | RaspberryPi/WeatherStation.py:433-470 | a zero-padded field of the frame reads back under int() as the number written |
| Numerals.ParseFloatTenths | RaspberryPi/WeatherStation.py:424-455 | a fixed-width tenths field reads back under float() as the tenths written, divided by ten |
| Numerals.ParseFloatNegatedTenths | RaspberryPi/WeatherStation.py:424 | a '-' followed by a one-digit tenths field ("-d.d", the temperature below zero) reads back as minus that value |
| Numerals.TrimLeftStrips | RaspberryPi/WeatherStation.py:424-433 | the leading strip removes exactly the leading whitespace: a suffix remains that does not start with whitespace |
| Numerals.TrimRightStrips | RaspberryPi/WeatherStation.py:424-433 | the trailing strip removes exactly the trailing whitespace: a prefix remains that does not end with whitespace |
| Numerals.TrimStrips | RaspberryPi/WeatherStation.py:424-433 | the whitespace stripping inside int() and float() (Numerals.Trim): the result is a contiguous run of the slice, everything outside it is whitespace, and it neither starts nor ends with whitespace |
| Numerals.TrailingLetterFails | RaspberryPi/WeatherStation.py:487 | float() fails on text whose last character is neither a digit, a point nor whitespace |
| Numerals.ParseFloatOfInt | RaspberryPi/WeatherStation.py:424 | float() accepts every text int() accepts, and gives the same value |
| Numerals.ZeroPadValue | RaspberryPi/WeatherStation.py:398-405 | a number written zero-padded to w digits has that number as its digit value |
| Numerals.ZeroPad | RaspberryPi/WeatherStation.py:398-405 | the zero-padded rendering is exactly w digits long |
| Numerals.FormatTenths | RaspberryPi/WeatherStation.py:398-405 | the tenths rendering has w digits, a point, and one decimal digit |
| Payload.Slice | RaspberryPi/WeatherStation.py:424 | Python slicing: the full width inside the payload, shorter when it runs past the end, empty when it starts past the end |
| Payload.Span | RaspberryPi/WeatherStation.py:398-405 | every field's slice is non-empty and lies within the 32-character frame |
| Payload.DecodeFrame | RaspberryPi/WeatherStation.py:421-489 | the frame is a weather frame exactly when the first character is 'T'; otherwise it is a status frame whose voltage is float() of characters 1..5 |
| Payload.FieldsAreLocal | RaspberryPi/WeatherStation.py:423-472 | each weather field, and the status voltage, depends only on the characters of its own slice; a corrupted or missing neighbour never changes it |
| Payload.TruncatedFieldsFail | RaspberryPi/WeatherStation.py:423-489 | in a frame cut short, every field whose slice starts at or after the end fails to parse |
| Payload.CutOffPressureMisread | RaspberryPi/WeatherStation.py:437-452 | a frame cut off inside the pressure field reads the digits that arrived as the pressure (a wrong value, not the fallback 0), while the rain field after it fails |
| Payload.NightFrameReadAsStatus | RaspberryPi/WeatherStation.py:421-489 | a payload tagged 't' (night mode) with the humidity tag 'H' in place decodes as a status frame with no voltage, so its readings are dropped and the battery reads 0 |
| Payload.SliceContents | RaspberryPi/WeatherStation.py:424 | character i of a slice is character lo + i of the payload, also for a slice running past the end |
| Payload.DecodeWeather | RaspberryPi/WeatherStation.py:423-472 | each field is parsed from its own slice; a field that parsed implies the payload reaches into that field's slice |
| Payload.DecodeStatus | RaspberryPi/WeatherStation.py:486-489 | the battery voltage parses only when the payload has characters after the tag |
| Payload.EncodeWeather | RaspberryPi/WeatherStation.py:398-405 | the weather frame written for a reading is 32 characters long and starts with 'T' |
| Payload.TempTextValue | RaspberryPi/WeatherStation.py:424 | the four-character temperature field reads back as the temperature written, above and below zero |
| Payload.EncodedFieldText | RaspberryPi/WeatherStation.py:398-405 | each of the eight slices of a written frame holds exactly the text of its own field |
| Payload.DecimalFieldRoundTrip | RaspberryPi/WeatherStation.py:424-455 | each decimal field of a written frame parses back under float() to the reading's value |
| Payload.IntegerFieldRoundTrip | RaspberryPi/WeatherStation.py:433-470 | each integer field of a written frame parses back under int() to the reading's value |
| Payload.DecodeEncodeWeather | RaspberryPi/WeatherStation.py:398-472 | round trip: decoding the frame written for any encodable reading gives a weather frame holding exactly that reading |
| Payload.ExampleWeatherFrame | RaspberryPi/WeatherStation.py:398-472 | the frame for 23.5 C, 62 %, 1013 hPa, 2.4 mm, 0.3 mm/h and wind 5/10 from 180 decodes to those numbers |
| IndoorSensor.Median3 | RaspberryPi/WeatherStation.py:360-363 | the middle of three samples: one of them, with two samples at or below it and two at or above it |
| IndoorSensor.MiddleIsMedian | RaspberryPi/WeatherStation.py:360-363 | the middle of three samples is unique, so the middle element after sorting is the median |
| IndoorSensor.MedianWithinGoodPair | RaspberryPi/WeatherStation.py:357-363 | one bad sample cannot move the median outside the two good samples, whatever its position |
| IndoorSensor.IndoorFilter | RaspberryPi/WeatherStation.py:351-364 | with the calibration undone, each reported value is the middle of its three samples (a failed read counting 0) |
| IndoorSensor.AllReadsFailed | RaspberryPi/WeatherStation.py:357-363 | with all three reads failed, the filter reports 0 % and -1.5 C |
| IndoorSensor.OneFailedReadOutvoted | RaspberryPi/WeatherStation.py:354-363 | a single failed read is outvoted when the two good reads agree |
| IndoorSensor.SortThree | RaspberryPi/WeatherStation.py:360-361 | sorting three values in place: ordered, a permutation of the input, with the median in the middle |
| IndoorSensor.GetInsideTempHumid | RaspberryPi/WeatherStation.py:351-364 | the three reads (a failed one counts as 0), sorted per quantity, give the calibrated medians: humidity times 0.925 and temperature times 1.09 minus 1.50 |
| Station.Initial | RaspberryPi/WeatherStation.py:524-555 | the start-up state satisfies the tick invariant, and its history slots hold 1 and -1 |
| Station.Raise | RaspberryPi/WeatherStation.py:425-426 | a running maximum after a reading is at least both, is one of them, and changes only when the reading exceeds it |
| Station.Lower | RaspberryPi/WeatherStation.py:427-428 | a running minimum after a reading is at most both, is one of them, and changes only when the reading undercuts it |
| Station.RaiseInt | RaspberryPi/WeatherStation.py:439-440 | the same for the pressure maximum |
| Station.LowerInt | RaspberryPi/WeatherStation.py:441-442 | the same for the pressure minimum |
| Station.Average | RaspberryPi/WeatherStation.py:443 | true division: twice the average is the sum of the two pressures |
| Station.Saved | RaspberryPi/WeatherStation.py:339-349 | the file receives six maxima and six minima, slots 1..6 |
| Station.Restore | RaspberryPi/WeatherStation.py:329-336 | reading the file back keeps both rings seven slots long |
| Station.SaveRestore | RaspberryPi/WeatherStation.py:329-349 | what is read back is what was written, and reading back the rings' own history changes nothing |
| Station.ApplyIndoor | RaspberryPi/WeatherStation.py:411-418 | the indoor step brackets the new indoor temperature between the indoor extremes and changes nothing but the indoor readings and extremes |
| Station.ApplyTemperature | RaspberryPi/WeatherStation.py:423-430 | a parsed temperature lies between today's extremes and the history slots are kept; an unparsed one sets 0 and changes nothing else |
| Station.ApplyHumidity | RaspberryPi/WeatherStation.py:432-435 | a parsed humidity replaces the old one; an unparsed one changes nothing |
| Station.ApplyPressure | RaspberryPi/WeatherStation.py:437-447 | a parsed pressure lies between its extremes and becomes the previous reading; an unparsed one sets 0 and changes nothing else |
| Station.ApplyRainAndWind | RaspberryPi/WeatherStation.py:449-472 | a failed rain or wind slice reads 0, and nothing but the five rain and wind readings changes |
| Station.Throttle | RaspberryPi/WeatherStation.py:474-481 | an upload happens exactly when more than 60 s have passed; only the upload time changes, and only then |
| Station.ApplyWeather | RaspberryPi/WeatherStation.py:423-481 | a weather frame keeps the rings seven long and never touches the battery voltage |
| Station.ApplyStatus | RaspberryPi/WeatherStation.py:486-489 | a status frame changes only the battery voltage, which is 0 when it fails to parse |
| Station.MarkAlive | RaspberryPi/WeatherStation.py:491-492 | the receive time is stamped and the signal shown full; nothing else changes |
| Station.ApplyFrame | RaspberryPi/WeatherStation.py:411-492 | any decoded frame keeps the rings seven long and marks the link alive; only a weather frame can upload |
| Station.Receive | RaspberryPi/WeatherStation.py:408-492 | a tick with a frame keeps the rings, marks the link alive, uploads only for a 'T' frame, and sets the filtered indoor temperature with its extremes |
| Station.NewHour | RaspberryPi/WeatherStation.py:498-500 | the hour is stamped; last hour's average takes this hour's exactly on a new hour; nothing else changes |
| Station.NewDay | RaspberryPi/WeatherStation.py:501-512 | the day is stamped; history is handed out exactly on a new day, after today's slots are reset; on the same day nothing changes |
| Station.LinkCheck | RaspberryPi/WeatherStation.py:513-514 | the signal is lost exactly after more than 25 s without a frame; nothing else changes |
| Station.Idle | RaspberryPi/WeatherStation.py:493-514 | an idle tick keeps the rings, stamps the day and the hour, and saves history exactly on a new day |
| Station.Rollover | RaspberryPi/WeatherStation.py:502-505 | a ring at midnight: today's slot reset, slots 1..5 take the next slot's day, and slot 6 takes yesterday (old slot 0) |
| Station.FrameDispatch | RaspberryPi/WeatherStation.py:421-489 | a weather frame leaves the battery voltage alone; a status frame sets only the voltage (0 on a parse failure), sends no upload and changes no weather field |
| Station.WeatherFieldsApplied | RaspberryPi/WeatherStation.py:423-472 | each weather reading comes from its own slice: its parsed value, otherwise 0, or the previous humidity |
| Station.OutdoorExtremes | RaspberryPi/WeatherStation.py:424-430 | a parsed temperature ends up between today's extremes, each moving only when passed; an unparsed one moves nothing; the history slots are untouched |
| Station.IndoorExtremes | RaspberryPi/WeatherStation.py:411-418 | every frame sets the filtered indoor readings (humidity truncated) and brackets the indoor temperature, each extreme moving only when passed |
| Station.PressureTracking | RaspberryPi/WeatherStation.py:437-447 | a parsed pressure lies between its extremes, sets this hour's average to the mean with the previous reading and becomes the previous reading; an unparsed one reads 0 and moves none of these |
| Station.UploadThrottle | RaspberryPi/WeatherStation.py:474-481 | an upload of the current readings goes out, and its time is stamped, exactly when the frame is a weather frame and more than 60 s have passed |
| Station.FrameMarksLinkAlive | RaspberryPi/WeatherStation.py:491-492 | any frame stamps the receive time and shows a full signal, and leaves the hour and day bookkeeping alone |
| Station.FrameKeepsSane | RaspberryPi/WeatherStation.py:408-492 | a received frame keeps the invariant: seven-day rings, and every pair of extremes reset or in order |
| Station.HourRollover | RaspberryPi/WeatherStation.py:498-500 | on a new hour this hour's average becomes last hour's; otherwise neither changes |
| Station.DayRollover | RaspberryPi/WeatherStation.py:501-512 | on a new day both rings turn (new slot 6 is old slot 0, slots 1..5 shift down), today's, indoor and pressure extremes reset to -99/99 and 0/9999, and the history is handed out for saving; on the same day none of it changes |
| Station.SecondTickSameDay | RaspberryPi/WeatherStation.py:498-510 | a second idle tick on the same day and hour rotates, resets and saves nothing |
| Station.IdleLiveness | RaspberryPi/WeatherStation.py:513-514 | an idle tick shows the link lost exactly when more than 25 s have passed since the last frame; otherwise the signal is unchanged |
| Station.IdleKeepsReadings | RaspberryPi/WeatherStation.py:493-514 | an idle tick changes no reading and neither the receive nor the upload time |
| Station.IdleKeepsSane | RaspberryPi/WeatherStation.py:493-514 | an idle tick keeps the invariant |
| Station.StationState.constructor | RaspberryPi/WeatherStation.py:524-555 | the globals at start-up are the initial state |
| Station.StationState.LoadHistory | RaspberryPi/WeatherStation.py:329-336 | slot by slot, slots 1..6 of both rings take the stored days, and nothing else changes |
| Station.StationState.TakeTemperature | RaspberryPi/WeatherStation.py:423-430 | the outdoor temperature step of a weather frame |
| Station.StationState.CompareOutdoor | RaspberryPi/WeatherStation.py:425-428 | slot 0 of both rings compared against the new temperature; nothing else changes |
| Station.StationState.TakeHumidity | RaspberryPi/WeatherStation.py:432-435 | the humidity step; a failed parse changes nothing |
| Station.StationState.ComparePressure | RaspberryPi/WeatherStation.py:438-442 | the pressure reading and its extremes |
| Station.StationState.AveragePressure | RaspberryPi/WeatherStation.py:443-444 | this hour's average from the previous and current reading, then the current becomes the previous |
| Station.StationState.TakePressure | RaspberryPi/WeatherStation.py:437-447 | the pressure step of a weather frame |
| Station.StationState.TakeRain | RaspberryPi/WeatherStation.py:449-457 | both rain readings, 0 on a failed parse |
| Station.StationState.TakeWind | RaspberryPi/WeatherStation.py:459-472 | the three wind readings, 0 on a failed parse |
| Station.StationState.ThrottleUpload | RaspberryPi/WeatherStation.py:474-481 | the upload decision and time stamp |
| Station.StationState.TakeWeather | RaspberryPi/WeatherStation.py:423-481 | a weather frame applied field by field in the frame's order, then the throttled upload |
| Station.StationState.TakeIndoorReadings | RaspberryPi/WeatherStation.py:411-412 | the indoor readings, humidity truncated to a whole percent |
| Station.StationState.CompareIndoor | RaspberryPi/WeatherStation.py:415-418 | the indoor extremes compared against the new indoor temperature |
| Station.StationState.TakeIndoor | RaspberryPi/WeatherStation.py:411-418 | the indoor part of every received frame |
| Station.StationState.TakeStatus | RaspberryPi/WeatherStation.py:486-489 | the battery voltage, 0 on a failed parse |
| Station.StationState.MarkLinkAlive | RaspberryPi/WeatherStation.py:491-492 | the receive time stamped, the signal full |
| Station.StationState.ReceiveFrame | RaspberryPi/WeatherStation.py:408-492 | a tick with a frame: the new state and the upload are exactly what Receive gives |
| Station.StationState.RollHour | RaspberryPi/WeatherStation.py:498-500 | the hour check of an idle tick |
| Station.StationState.RotateRings | RaspberryPi/WeatherStation.py:502-505 | both rings rebuilt turned left, today's slots reset |
| Station.StationState.ResetIndoorExtremes | RaspberryPi/WeatherStation.py:506-507 | the indoor extremes back to -99 and 99 |
| Station.StationState.ResetPressureExtremes | RaspberryPi/WeatherStation.py:508-509 | the pressure extremes back to 0 and 9999 |
| Station.StationState.RollDay | RaspberryPi/WeatherStation.py:501-512 | the day check of an idle tick, returning the history the file receives |
| Station.StationState.CheckLink | RaspberryPi/WeatherStation.py:513-514 | the link check of an idle tick |
| Station.StationState.IdleTick | RaspberryPi/WeatherStation.py:493-514 | a tick without a frame: the new state and the saved history are exactly what Idle gives |
| DisplayRules.PressureTrend | RaspberryPi/WeatherStation.py:260-265 | rising exactly when this hour's average exceeds last hour's by more than 1 hPa, falling exactly when it is more than 1 hPa below, otherwise steady |
| DisplayRules.TrendSuffix | RaspberryPi/WeatherStation.py:260-265 | a rising trend shows " (+)", a falling one " (-)" and a steady one no marker, each marker for its own trend only |
| DisplayRules.TrendReverses | RaspberryPi/WeatherStation.py:260-265 | swapping the two hours turns a rise into a fall and keeps a steady reading steady |
| DisplayRules.TrendMonotone | RaspberryPi/WeatherStation.py:260-265 | a higher average this hour never shows a weaker trend |
| DisplayRules.TrendExamples | RaspberryPi/WeatherStation.py:260-265 | 1007 after 1015 falls, 1015.5 after 1015 is steady, 1016.5 after 1015 rises |
| DisplayRules.BatteryLevel | RaspberryPi/WeatherStation.py:295-300 | the high icon exactly above 12.5 V, the middle icon exactly above 11.5 V up to 12.5 V, otherwise low |
| DisplayRules.BatteryMonotone | RaspberryPi/WeatherStation.py:295-300 | a higher voltage never shows an emptier icon |
| DisplayRules.MissingVoltageShowsLow | RaspberryPi/WeatherStation.py:295-300 | a voltage of 0, the fallback of a failed status parse, shows the low icon |
| DisplayRules.CelsiusToFahrenheit | RaspberryPi/WeatherStation.py:270-276 | the display's formula is inverted by the standard Fahrenheit to Celsius conversion |
| DisplayRules.HectopascalsToInches | RaspberryPi/WeatherStation.py:277-279 | inches of mercury are three hundredths of the hectopascals |
| DisplayRules.MillimetresToInches | RaspberryPi/WeatherStation.py:280-281 | the inches times 25.4 are the millimetres |
| DisplayRules.ConversionsKeepOrder | RaspberryPi/WeatherStation.py:270-281 | every conversion keeps order, so a converted maximum never falls below its converted minimum |
| DisplayRules.CelsiusToFahrenheitExamples | RaspberryPi/WeatherStation.py:270-271 | 0 C is 32 F, 100 C is 212 F, -40 C is -40 F |
| DisplayRules.MirrorToFahrenheit | RaspberryPi/WeatherStation.py:272-274 | every slot of the imperial mirror is the Fahrenheit value of the same slot |
| DisplayRules.HistoryStart | RaspberryPi/WeatherStation.py:194-198 | the chart starts at the weekday after today, which is six days before today |
| DisplayRules.RotateLeft | RaspberryPi/WeatherStation.py:200 | a list turned left by k places: the element at k comes first and the first k go to the end |
| DisplayRules.WeekdayLabels | RaspberryPi/WeatherStation.py:199-200 | the chart carries six labels |
| DisplayRules.LabelNamesDay | RaspberryPi/WeatherStation.py:193-220 | label k names the weekday 6 - k days before today, so the last label is yesterday and today never appears |
| DisplayRules.WednesdayLabels | RaspberryPi/WeatherStation.py:193-220 | on a Wednesday the labels run from Thursday to Tuesday |

## Left out

- Decoding the received bytes as UTF-8 (line 421 and the slices) is not modelled. The
  payload is modelled as text already decoded. A payload that is not valid UTF-8 is not
  modelled: its UnicodeDecodeError at line 421 escapes `Get_Weather_Updates`, line 515 is
  never reached and polling stops.
- `int()` and `float()` are modelled for surrounding whitespace (the whitespace they strip:
  `str.isspace()` without U+001C..U+001F, listed at `Numerals.IsSpace`), an optional sign, ASCII decimal digits
  and at most one decimal point. Underscores between digits, exponents, `inf`/`nan` and
  non-ASCII digits are not modelled, because no fixed-width field written by the outdoor
  unit contains them.
- Numbers are exact: temperatures, rain, voltages and time stamps are `real`, not binary
  floating point. The rounding of `float()` and of the conversion factors is not modelled.
- The Tk display is not modelled: widget construction, text formatting, images, the signal
  icon widget and `CalculateWindTriangle`. Only the decisions the display makes from the
  state are modelled (trend, battery icon, conversions, weekday labels). The `UpdateDisplay`
  call after every frame and the `UpdateTempHistory` call at midnight are left out, and so
  is the matplotlib axis and tick computation.
- The radio is not modelled: `radio.available`, `read`, the dynamic payload size and the
  acknowledgement payload written on idle ticks (lines 494-497). "A frame arrived" is the
  choice between `ReceiveFrame` and `IdleTick`, and the payload is a parameter. The unused
  `HourCheck` local (line 413) is not modelled.
- Each `Adafruit_DHT.read_retry` call (line 356) is an input `Option<(real, real)>`, where
  `None` stands for a call that raised and is caught at line 357.
- IndoorSensor.GetInsideTempHumid: does not model a read that gives up and returns
  `(None, None)` without raising. The code stores `None` in both lists, `sort()` at line 360
  then raises a TypeError, and the error escapes `GetInsideTempHumid` and
  `Get_Weather_Updates` at line 411. Line 515 is then never reached, so polling stops. The
  model's reads are numbers or a caught failure only.
- The HTTP upload itself (line 478) is not modelled. The model returns the eight values the
  request carries and stamps the upload time as the code does. The time is stamped before
  the request, so a failed request still counts as an upload.
- The configuration file I/O is not modelled. `Station.StationState.LoadHistory` takes the
  six stored days of each ring as a `History` value. `RollDay` returns the `History` that
  `WriteINI` would store. Converting a float to a string and back is assumed exact.
- Scheduling (`Window.after`, `mainloop`) and the standard error redirect are not modelled.
  One call of `ReceiveFrame` or `IdleTick` is one tick.
- The clocks are parameters. A tick with a frame reads the clock twice, once at line 475 and
  once at line 491; the model uses one `now` for both. An idle tick compares only the day of
  the month and the hour (lines 498 and 501), so a `Stamp` holds just those two.
- The local `SignalLevel` counter (lines 396 and 445) is not modelled, because nothing reads
  it.
- The unit flag is not modelled. It is fixed to metric at line 28. The imperial conversions
  are modelled as functions, and the mirror of a ring as `DisplayRules.MirrorToFahrenheit`.
  The imperial mirror globals are not fields of `StationState`, because only the display
  writes them.
- `Station.StationState` holds both seven-day rings as `seq<real>` fields rather than
  arrays. The code writes slot 0 in place (lines 426, 428, 504 and 505) and rebuilds the
  whole list at midnight (lines 502-503). The model reassigns the field with the updated
  sequence in both cases. Nothing else refers to these lists, so no aliasing is lost.
