/** The UM980 GNSS receiver driver of s_um980.js: GGA sentence decoding into the
    four position fields, routing of incoming lines by prefix and mode, the
    BASE/ROVER mode switch, and the state the constructor sets up. The serial port,
    the event emitter and the HTTP upload to the correction caster are not part of
    this model; a mode switch returns the command text it would write to the port. */
module Um980 {
  import opened JsValues

  /** The four position fields; each is `null` (None) until a sentence is accepted. */
  datatype Fix = Fix(latitude: Option<real>, longitude: Option<real>, altitude: Option<real>, time: Option<string>)

  const NoFix := Fix(None, None, None, None)

  /** `parseCoordinate(degreesMinutes, direction)`: the first two characters are
      read with parseInt as whole degrees, the rest with parseFloat as decimal
      minutes, and the sum `degrees + minutes / 60` is negated for 'S' and 'W'. A
      NaN from either read makes the whole value NaN (None). */
  function ParseCoordinate(degreesMinutes: string, direction: Option<string>): (r: Option<real>)
    ensures r.Some? <==> ParseInt(SubstringTo(degreesMinutes, 2)).Some? && ParseFloat(SubstringFrom(degreesMinutes, 2)).Some?
  {
    var degrees := ParseInt(SubstringTo(degreesMinutes, 2));
    var minutes := ParseFloat(SubstringFrom(degreesMinutes, 2));
    if degrees.None? || minutes.None? then None
    else
      var coordinate := degrees.value as real + minutes.value / 60.0;
      Some(if IsSouthOrWest(direction) then -coordinate else coordinate)
  }

  predicate IsSouthOrWest(direction: Option<string>)
  {
    direction == Some("S") || direction == Some("W")
  }

  /** The hemisphere only decides the sign: 'S' and 'W' negate, and any other
      direction, including an empty or missing one, reads as 'N'/'E'. */
  lemma HemisphereSign(degreesMinutes: string, direction: Option<string>)
    ensures var north := ParseCoordinate(degreesMinutes, Some("N"));
            var r := ParseCoordinate(degreesMinutes, direction);
            r.Some? == north.Some? &&
            (r.Some? ==> r.value == if IsSouthOrWest(direction) then -north.value else north.value)
  {
  }

  /** A field `head + rest` whose `head` is two characters long: the degrees are
      what parseInt reads from `head` alone and the minutes what parseFloat reads
      from `rest`, so exactly two leading characters are degrees whatever the
      field's width, and the hemisphere only decides the sign. */
  lemma ReadsTwoDegreeDigits(field: string, head: string, rest: string, direction: Option<string>, degrees: int, minutes: real)
    requires field == head + rest && |head| == 2
    requires ParseInt(head) == Some(degrees) && ParseFloat(rest) == Some(minutes)
    ensures var coordinate := degrees as real + minutes / 60.0;
            ParseCoordinate(field, direction) == Some(if IsSouthOrWest(direction) then -coordinate else coordinate)
  {
    assert field[..2] == head;
    assert field[2..] == rest;
  }

  /** What parseGNSSData does with one line. */
  datatype GgaResult =
    | FieldMissing        // parts[2] or parts[4] is undefined: `substring` throws a TypeError
    | Rejected            // some value is falsy: nothing is stored, no event
    | Accepted(fix: Fix)  // all four stored, and a 'gnss' event carries them

  /** `parseGNSSData(data)`. The four values are stored together, and only when all
      of them are truthy: coordinates and altitude non-zero and not NaN, time not
      empty. */
  function DecodeGga(data: string): (r: GgaResult)
    ensures r.FieldMissing? <==> |Split(data, ',')| < 5
    ensures r.Accepted? ==>
              TruthyNumber(r.fix.latitude) && TruthyNumber(r.fix.longitude) &&
              TruthyNumber(r.fix.altitude) && TruthyString(r.fix.time)
    ensures r.Accepted? ==> r.fix.time == Some(Split(data, ',')[1])
    ensures 5 <= |Split(data, ',')| <= 9 ==> r.Rejected?
    ensures var parts := Split(data, ',');
            |parts| >= 5 ==>
              var latitude := ParseCoordinate(parts[2], At(parts, 3));
              var longitude := ParseCoordinate(parts[4], At(parts, 5));
              var altitude := if 9 < |parts| then ParseFloat(parts[9]) else None;
              && (r.Accepted? <==> TruthyNumber(latitude) && TruthyNumber(longitude) && TruthyNumber(altitude) && parts[1] != "")
              && (r.Accepted? ==> r.fix == Fix(latitude, longitude, altitude, Some(parts[1])))
  {
    var parts := Split(data, ',');
    if |parts| < 5 then FieldMissing
    else
      var latitude := ParseCoordinate(parts[2], At(parts, 3));
      var longitude := ParseCoordinate(parts[4], At(parts, 5));
      var altitude := if 9 < |parts| then ParseFloat(parts[9]) else None;
      var time := Some(parts[1]);
      if TruthyNumber(latitude) && TruthyNumber(longitude) && TruthyNumber(altitude) && TruthyString(time)
      then Accepted(Fix(latitude, longitude, altitude, time))
      else Rejected
  }

  /** The receiver's state: the mode, the four position fields and the queued
      '$RTCM' lines. */
  datatype ReceiverState = ReceiverState(mode: string, fix: Fix, rtcmData: seq<string>)

  /** What a line led to. */
  datatype LineOutcome =
    | RtcmAppended       // pushed onto rtcmData; the code then hands the text to RTCMParser
    | Gga(result: GgaResult)
    | Ignored

  /** `handleBaseStationMode(data)` and `handleRoverMode(data)`, whose bodies are the
      same code: '$RTCM' lines are queued, '$GPGGA' and '$GNGGA' lines are decoded,
      anything else is dropped. */
  function HandleLine(st: ReceiverState, data: string): (r: (ReceiverState, LineOutcome))
    ensures r.0.mode == st.mode
    ensures r.1 == RtcmAppended <==> StartsWith(data, "$RTCM")
    ensures r.1.Gga? <==> !StartsWith(data, "$RTCM") && (StartsWith(data, "$GPGGA") || StartsWith(data, "$GNGGA"))
    ensures r.1.Gga? ==> r.1.result == DecodeGga(data)
    ensures r.0.rtcmData == if r.1 == RtcmAppended then st.rtcmData + [data] else st.rtcmData
    ensures r.0.fix == if r.1.Gga? && r.1.result.Accepted? then r.1.result.fix else st.fix
  {
    if StartsWith(data, "$RTCM") then
      (st.(rtcmData := st.rtcmData + [data]), RtcmAppended)
    else if StartsWith(data, "$GPGGA") || StartsWith(data, "$GNGGA") then
      var r := DecodeGga(data);
      (if r.Accepted? then st.(fix := r.fix) else st, Gga(r))
    else (st, Ignored)
  }

  predicate Routed(mode: string)
  {
    mode == "BASE" || mode == "ROVER"
  }

  /** `onDataReceived(data)`: the handler for the current mode; other modes do nothing. */
  function OnData(st: ReceiverState, data: string): (r: (ReceiverState, LineOutcome))
    ensures r.0.mode == st.mode
    ensures !Routed(st.mode) ==> r == (st, Ignored)
    ensures Routed(st.mode) ==> r == HandleLine(st, data)
  {
    if Routed(st.mode) then HandleLine(st, data) else (st, Ignored)
  }

  /** One line never changes the mode; it changes the position fields only all
      together, to the values of an accepted sentence, which are the values the
      'gnss' event carries; and it changes the queue only by appending itself. */
  lemma OnDataEffect(st: ReceiverState, data: string)
    ensures var (next, outcome) := OnData(st, data);
            && next.mode == st.mode
            && (next.fix == st.fix || (outcome.Gga? && outcome.result.Accepted? && next.fix == outcome.result.fix))
            && (outcome.Gga? && outcome.result.Accepted? ==> next.fix == outcome.result.fix)
            && (next.rtcmData == st.rtcmData || next.rtcmData == st.rtcmData + [data])
            && (next.rtcmData != st.rtcmData <==> Routed(st.mode) && StartsWith(data, "$RTCM"))
  {
  }

  /** Lines fed one after another, oldest first. */
  function Replay(st: ReceiverState, lines: seq<string>): ReceiverState
    decreases |lines|
  {
    if lines == [] then st else OnData(Replay(st, lines[..|lines| - 1]), lines[|lines| - 1]).0
  }

  /** The '$RTCM' lines among `lines`, in arrival order. */
  function RtcmLines(lines: seq<string>): seq<string>
    decreases |lines|
  {
    if lines == [] then []
    else RtcmLines(lines[..|lines| - 1]) + (if StartsWith(lines[|lines| - 1], "$RTCM") then [lines[|lines| - 1]] else [])
  }

  /** The fix of the last accepted GGA line among `lines`, if any. */
  function LastAcceptedFix(lines: seq<string>): Option<Fix>
    decreases |lines|
  {
    if lines == [] then None
    else
      var line := lines[|lines| - 1];
      var r := DecodeGga(line);
      if !StartsWith(line, "$RTCM") && (StartsWith(line, "$GPGGA") || StartsWith(line, "$GNGGA")) && r.Accepted?
      then Some(r.fix)
      else LastAcceptedFix(lines[..|lines| - 1])
  }

  /** Over any sequence of lines in BASE or ROVER mode: the mode stays, every '$RTCM'
      line is queued in arrival order and nothing else is, and the position fields
      are those of the last accepted sentence (or unchanged if none was). In any
      other mode nothing changes at all. */
  lemma {:induction false} ReplayEffect(st: ReceiverState, lines: seq<string>)
    ensures Routed(st.mode) ==>
              && Replay(st, lines).mode == st.mode
              && Replay(st, lines).rtcmData == st.rtcmData + RtcmLines(lines)
              && Replay(st, lines).fix == (match LastAcceptedFix(lines) case Some(f) => f case None => st.fix)
    ensures !Routed(st.mode) ==> Replay(st, lines) == st
    decreases |lines|
  {
    if lines != [] {
      var init := lines[..|lines| - 1];
      ReplayEffect(st, init);
      OnDataEffect(Replay(st, init), lines[|lines| - 1]);
    }
  }

  /** The two mode commands the driver writes to the receiver. */
  const BaseCommand := "MODE BASE\n"
  const RoverCommand := "MODE ROVER SURVEY\n"

  /** The driver object. `serialPort` and `baudRate` only configure the port. */
  class UM980 {
    const serialPort: string
    const baudRate: int
    var mode: string
    var latitude: Option<real>
    var longitude: Option<real>
    var altitude: Option<real>
    var time: Option<string>
    var rtcmData: seq<string>

    function State(): ReceiverState
      reads this
    {
      ReceiverState(mode, GetGNSSData(), rtcmData)
    }

    /** `new UM980(serialPort, baudRate, mode)`: an argument left out (None, i.e.
        `undefined`) takes its default, '/dev/ttyUSB0', 115200 and 'ROVER'. */
    constructor (serialPort: Option<string>, baudRate: Option<int>, mode: Option<string>)
      ensures this.serialPort == if serialPort.Some? then serialPort.value else "/dev/ttyUSB0"
      ensures this.baudRate == if baudRate.Some? then baudRate.value else 115200
      ensures State() == ReceiverState(if mode.Some? then mode.value else "ROVER", NoFix, [])
    {
      this.serialPort := if serialPort.Some? then serialPort.value else "/dev/ttyUSB0";
      this.baudRate := if baudRate.Some? then baudRate.value else 115200;
      this.mode := if mode.Some? then mode.value else "ROVER";
      latitude, longitude, altitude, time := None, None, None, None;
      rtcmData := [];
    }

    method OnDataReceived(data: string) returns (outcome: LineOutcome)
      modifies this
      ensures (State(), outcome) == OnData(old(State()), data)
    {
      if mode == "BASE" {
        outcome := HandleBaseStationMode(data);
      } else if mode == "ROVER" {
        outcome := HandleRoverMode(data);
      } else {
        outcome := Ignored;
      }
    }

    method HandleBaseStationMode(data: string) returns (outcome: LineOutcome)
      modifies this
      ensures (State(), outcome) == HandleLine(old(State()), data)
    {
      if StartsWith(data, "$RTCM") {
        rtcmData := rtcmData + [data];
        outcome := RtcmAppended;
      } else if StartsWith(data, "$GPGGA") || StartsWith(data, "$GNGGA") {
        var result := ParseGNSSData(data);
        outcome := Gga(result);
      } else {
        outcome := Ignored;
      }
    }

    method HandleRoverMode(data: string) returns (outcome: LineOutcome)
      modifies this
      ensures (State(), outcome) == HandleLine(old(State()), data)
    {
      if StartsWith(data, "$RTCM") {
        rtcmData := rtcmData + [data];
        outcome := RtcmAppended;
      } else if StartsWith(data, "$GPGGA") || StartsWith(data, "$GNGGA") {
        var result := ParseGNSSData(data);
        outcome := Gga(result);
      } else {
        outcome := Ignored;
      }
    }

    /** Stores the decoded values only when all four are truthy; the result says
        whether the split left a field missing, the values were refused, or they
        were stored (and emitted). */
    method ParseGNSSData(data: string) returns (result: GgaResult)
      modifies this
      ensures result == DecodeGga(data)
      ensures GetGNSSData() == if result.Accepted? then result.fix else old(GetGNSSData())
      ensures mode == old(mode) && rtcmData == old(rtcmData)
    {
      result := DecodeGga(data);
      if result.Accepted? {
        StoreFix(result.fix);
      }
    }

    /** The four assignments of an accepted sentence. */
    method StoreFix(fix: Fix)
      modifies this
      ensures GetGNSSData() == fix
      ensures mode == old(mode) && rtcmData == old(rtcmData)
    {
      latitude, longitude, altitude, time := fix.latitude, fix.longitude, fix.altitude, fix.time;
    }

    method SetBaseStationMode() returns (command: string)
      modifies this
      ensures mode == "BASE" && command == BaseCommand
      ensures GetGNSSData() == old(GetGNSSData()) && rtcmData == old(rtcmData)
    {
      mode := "BASE";
      command := BaseCommand;
    }

    method SetRoverMode() returns (command: string)
      modifies this
      ensures mode == "ROVER" && command == RoverCommand
      ensures GetGNSSData() == old(GetGNSSData()) && rtcmData == old(rtcmData)
    {
      mode := "ROVER";
      command := RoverCommand;
    }

    /** `getGNSSData()`: the four stored fields as they are. */
    function GetGNSSData(): (fix: Fix)
      reads this
      ensures fix.latitude == latitude && fix.longitude == longitude
      ensures fix.altitude == altitude && fix.time == time
    {
      Fix(latitude, longitude, altitude, time)
    }

    /** `getRTCMData()`: the queued '$RTCM' lines. */
    function GetRTCMData(): (lines: seq<string>)
      reads this
      ensures lines == rtcmData
    {
      rtcmData
    }
  }

  /** The fields of the sample GGA sentence
      "$GNGGA,123519,4807.038,N,01131.000,E,4,08,0.9,545.4,M,46.9,M,,*47". */
  const SampleFields: seq<string> :=
    ["$GNGGA", "123519", "4807.038", "N", "01131.000", "E", "4", "08", "0.9", "545.4", "M", "46.9", "M", "", "*47"]

  lemma SampleLatitudeDigits()
    ensures DigitsValue(['4', '8'], 10) == 48 && DecimalValue("07", "038") == 7.038
  {
    DigitsValueAppend("0", '3', 10);
    assert "0" + ['3'] == "03";
    DigitsValueAppend("03", '8', 10);
    assert "03" + ['8'] == "038";
    assert DigitsValue("07", 10) == 7 && Pow10(3) == 1000;
    assert ['4', '8'][..1] == ['4'];
  }

  /** The sample field splits after its two degree digits. */
  lemma SampleLatitudeSplit(field: string, head: string, rest: string)
    requires field == "4807.038" && head == ['4', '8'] && rest == "07.038"
    ensures field == head + rest
  {
  }

  lemma SampleLatitudeReads(head: string, rest: string)
    requires head == ['4', '8'] && rest == "07.038"
    ensures ParseInt(head) == Some(48) && ParseFloat(rest) == Some(7.038)
  {
    var whole, frac := "07", "038";
    assert rest == whole + "." + frac;
    ParseIntDecimal(head);
    ParseFloatDecimal(whole, frac);
    SampleLatitudeDigits();
  }

  /** Latitude 4807.038 N reads as 48 degrees 7.038 minutes. */
  lemma SampleLatitude(field: string)
    requires field == "4807.038"
    ensures ParseCoordinate(field, Some("N")) == Some(48.0 + 7.038 / 60.0)
  {
    var head, rest := ['4', '8'], "07.038";
    SampleLatitudeSplit(field, head, rest);
    SampleLatitudeReads(head, rest);
    ReadsTwoDegreeDigits(field, head, rest, Some("N"), 48, 7.038);
  }

  lemma SampleLongitudeDigits()
    ensures DigitsValue(['0', '1'], 10) == 1 && DecimalValue("131", "000") == 131.0
  {
    DigitsValueAppend("1", '3', 10);
    assert "1" + ['3'] == "13";
    DigitsValueAppend("13", '1', 10);
    assert "13" + ['1'] == "131";
    DigitsValueAppend("0", '0', 10);
    assert "0" + ['0'] == "00";
    DigitsValueAppend("00", '0', 10);
    assert "00" + ['0'] == "000";
    assert ['0', '1'][..1] == ['0'];
  }

  /** The sample field splits after its two degree digits. */
  lemma SampleLongitudeSplit(field: string, head: string, rest: string)
    requires field == "01131.000" && head == ['0', '1'] && rest == "131.000"
    ensures field == head + rest
  {
  }

  lemma SampleLongitudeReads(head: string, rest: string)
    requires head == ['0', '1'] && rest == "131.000"
    ensures ParseInt(head) == Some(1) && ParseFloat(rest) == Some(131.0)
  {
    var whole, frac := "131", "000";
    assert rest == whole + "." + frac;
    ParseIntDecimal(head);
    ParseFloatDecimal(whole, frac);
    SampleLongitudeDigits();
  }

  /** The longitude field 01131.000 E has three degree digits, but only two are
      taken: it reads as 1 degree 131 minutes, not 11 degrees 31 minutes. */
  lemma SampleLongitude(field: string)
    requires field == "01131.000"
    ensures ParseCoordinate(field, Some("E")) == Some(1.0 + 131.0 / 60.0)
  {
    var head, rest := ['0', '1'], "131.000";
    SampleLongitudeSplit(field, head, rest);
    SampleLongitudeReads(head, rest);
    ReadsTwoDegreeDigits(field, head, rest, Some("E"), 1, 131.0);
  }

  lemma SampleAltitudeDigits()
    ensures DecimalValue("545", "4") == 545.4
  {
    DigitsValueAppend("5", '4', 10);
    assert "5" + ['4'] == "54";
    DigitsValueAppend("54", '5', 10);
    assert "54" + ['5'] == "545";
    assert DigitsValue("4", 10) == 4 && Pow10(1) == 10;
  }

  /** The altitude field 545.4 reads as 545.4. */
  lemma SampleAltitude(field: string)
    requires field == "545.4"
    ensures ParseFloat(field) == Some(545.4)
  {
    var whole, frac := "545", "4";
    assert field == whole + "." + frac;
    ParseFloatDecimal(whole, frac);
    SampleAltitudeDigits();
  }

  /** A line whose time, coordinate and altitude fields are those of the sample is
      accepted with 48 degrees 7.038 minutes north, 1 degree 131 minutes east,
      altitude 545.4 and time 123519, whatever its other fields hold. */
  lemma SampleFieldsDecode(fields: seq<string>)
    requires |fields| == 15 && forall i :: 0 <= i < |fields| ==> ',' !in fields[i]
    requires fields[1] == "123519" && fields[2] == "4807.038" && fields[3] == "N"
    requires fields[4] == "01131.000" && fields[5] == "E" && fields[9] == "545.4"
    ensures DecodeGga(Join(fields, ',')) ==
              Accepted(Fix(Some(48.0 + 7.038 / 60.0), Some(1.0 + 131.0 / 60.0), Some(545.4), Some("123519")))
  {
    SplitJoin(fields, ',');
    SampleLatitude(fields[2]);
    SampleLongitude(fields[4]);
    SampleAltitude(fields[9]);
  }

  /** The sample sentence itself is accepted. */
  lemma SampleSentence(fields: seq<string>)
    requires fields == SampleFields
    ensures DecodeGga(Join(fields, ',')) ==
              Accepted(Fix(Some(48.0 + 7.038 / 60.0), Some(1.0 + 131.0 / 60.0), Some(545.4), Some("123519")))
  {
    assert forall i :: 0 <= i < |fields| ==> ',' !in fields[i];
    SampleFieldsDecode(fields);
  }
}
