# RTK rover/base station core, modelled in Dafny

The project is a Raspberry Pi GNSS rover/base station written for Node.js. A
UM980 receiver delivers NMEA sentences and RTCM 3 correction data over a serial
line, and three I2C sensors (ADXL345 accelerometer, ITG-3205 gyroscope,
QMC5883L magnetometer) are polled by a small web server. This model covers the
logic of that code:

- `rtcm_parser.dfy` (module `RtcmParser`): the RTCM 3 byte-stream framer of
  `RTCMParser.js`. The class `RTCMParser` keeps the buffer as a `seq<Byte>`, and
  its `Parse` loop is proved against the specification function `Scan`. The
  lemmas state byte conservation, wait-without-consuming, chunk-boundary
  independence and that every frame reaches the default branch of
  `processMessage`.
- `um980.dfy` (module `Um980`): the UM980 driver of `s_um980.js`. It models GGA
  decoding (`parseCoordinate`, `parseGNSSData`), line routing by prefix and mode,
  the BASE/ROVER switch and the initial state, with the class `UM980` holding the
  driver's fields.
- `server.dfy` (module `Server`): the `$GNGGA` fix-status handler and
  `getIPAddress` of `server.js`.
- `adxl345.dfy`, `qmc5883l.dfy`, `itg3205.dfy`: register decoding and unit
  conversion of `s_adxl345.js`, `s_qmc5883l.js` and `s_itg3205.js`.
- `js_values.dfy` and `node_buffer.dfy`: the JavaScript and Node.js built-ins the
  code relies on. These are `split`, `startsWith`, `substring`, a sign, digit and
  fraction subset of `parseInt`/`parseFloat` in which NaN is `None`,
  truthiness, `&` on non-negative integers, and `Buffer.readInt16LE/BE` and
  `readInt32BE`, where a read past the end, which throws a RangeError, is
  `None`.
- `sensor_axes.dfy`: the `{x, y, z}` result objects and the scaling they share.

Numbers are exact: integers are unbounded and JavaScript doubles are reals, so
the scale factors 0.0039, 1/12000, 1/14.375 and the division by 60 are exact.

The model follows the code where the code departs from the RTCM 3 standard
(RTCM Standard 10403, section 4) or from the intended NMEA behaviour:

- The length is the whole 16-bit word of bytes 1-2. The 6 reserved bits are not
  masked off.
- A frame is length + 3 bytes long. The 3-byte CRC-24Q trailer is neither
  counted nor checked, and no frame is ever rejected.
- The message type is `message[3] & 0x3F`, which is 6 bits and never more
  than 63. None of the case labels 1005 to 1230 can match.
- `parseCoordinate` always takes exactly two degree digits. A three-digit
  longitude such as `01131.000` therefore reads as 1 degree 131 minutes, not
  11 degrees 31 minutes.
- Field 6 of a `$GNGGA` line is mapped by a switch. There is no
  satellite-count alternative.
- The ITG-3205 temperature is `(raw + 13200) / 280`, without the datasheet's
  35 °C offset.
- The QMC5883L value is raw / 12000, which is Gauss, although the method is
  called `readMicroTesla`.

## Model

| member | source | states |
|---|---|---|
| RtcmParser.DeclaredLength | RTCMParser.js:15 | the frame length is the whole unmasked 16-bit word of bytes 1-2: below 0x10000, with byte 1 as its high byte and byte 2 as its low byte |
| RtcmParser.ReservedBitsKept | RTCMParser.js:15 | the reserved bits are not masked: the length exceeds the standard's 1023 exactly when one of them is set, and its low ten bits are the standard's length field |
| RtcmParser.StepLength | RTCMParser.js:13-29 | each pass of the loop that does not stop takes at least one byte and no more than are buffered, so the loop terminates |
| RtcmParser.Scan | RTCMParser.js:11-30 | when the loop ends, either at most 3 bytes are buffered or the buffer starts with 0xD3 and holds fewer than L+3 bytes |
| RtcmParser.ScanConserves | RTCMParser.js:8-29 | the dropped bytes and the extracted frames, in the order taken, followed by the remaining buffer, are exactly the scanned bytes |
| RtcmParser.ScanEventsValid | RTCMParser.js:13-29 | every dropped byte is not 0xD3, and every frame starts with 0xD3 and is exactly its declared length plus 3 bytes |
| RtcmParser.ScanWaiting | RTCMParser.js:16-25 | a buffer that is waiting (a preamble with too few bytes, or at most 3 bytes) is left untouched and yields nothing |
| RtcmParser.FirstFrame | RTCMParser.js:13-21 | with 0xD3 first and at least L+3 bytes, the first frame is exactly the first L+3 bytes, and scanning continues on the rest |
| RtcmParser.SkipOne | RTCMParser.js:26-29 | with more than 3 bytes and a leading byte other than 0xD3, that one byte is dropped and scanning continues on the rest |
| RtcmParser.StepPrefix | RTCMParser.js:13-29 | a pass the buffer already allows is unchanged by bytes appended behind it |
| RtcmParser.ScanAppend | RTCMParser.js:6-31 | scanning a longer stream performs the same events as the prefix, then carries on from the buffer the prefix left |
| RtcmParser.ChunkIndependence | RTCMParser.js:6-31 | parsing chunk by chunk from any reachable buffer gives the same frames, in order, and the same final buffer as parsing their concatenation |
| RtcmParser.MessageType | RTCMParser.js:34 | the type, the low six bits of byte 3, is byte 3 modulo 64 and so lies in 0..63, and is 0 for a frame with no byte 3 |
| RtcmParser.GetInt16 | RTCMParser.js:119-121 | a value exactly when the two bytes are inside the buffer; the value is the signed word whose big-endian encoding is those bytes |
| RtcmParser.GetInt32 | RTCMParser.js:123-125 | a value exactly when the four bytes are inside the buffer; the value is the signed 32-bit word whose big-endian encoding is those bytes |
| RtcmParser.ProcessMessage | RTCMParser.js:33-65 | the default branch is taken exactly when the type is none of the eight case labels, and it carries the type; 1005 and 1077 are picked exactly on their labels |
| RtcmParser.AlwaysUnsupported | RTCMParser.js:33-65 | every frame takes the default branch, with a type below 64 |
| RtcmParser.RTCMParser.constructor | RTCMParser.js:2-4 | the buffer starts empty |
| RtcmParser.RTCMParser.Parse | RTCMParser.js:6-31 | the frames handed on are those of Scan(old buffer ++ data), in order, each with its processMessage outcome; the new buffer is what Scan leaves, a waiting state |
| RtcmParser.ExampleUsage | RTCMParser.js:128-135 | the two example chunks (L = 0x24, 15 + 8 bytes) extract no frame and leave all 23 bytes buffered |
| JsValues.At | s_um980.js:71-74 | an element exactly when the index is inside the array, and then the element at that index; `undefined` past the end |
| JsValues.StartsWith | s_um980.js:45-50 | true exactly when the text is the prefix followed by the rest of the text |
| JsValues.SubstringFrom | s_um980.js:94 | a start inside the text leaves the rest after the first `start` characters; a start at or past the end gives "" |
| JsValues.SubstringTo | s_um980.js:93 | a prefix of the text, `end` characters long, or the whole text when it is shorter |
| JsValues.TruthyNumber | s_um980.js:76 | a number is falsy exactly when it is NaN or zero |
| JsValues.TruthyString | s_um980.js:76 | a string is falsy exactly when it is undefined or empty |
| JsValues.BitAnd | RTCMParser.js:34 | `x & y` on non-negative operands is at most each operand |
| JsValues.AndLowOnes | RTCMParser.js:34 | masking with k one bits (`& 0x3F` for k = 6) keeps exactly the remainder modulo 2^k |
| JsValues.Split | s_um980.js:69 | at least one part, none containing the separator |
| JsValues.ParseInt | s_um980.js:93 | NaN for empty text; a number's sign follows a leading '-' |
| JsValues.ParseFloat | s_um980.js:94 | NaN for empty text; a number's sign follows a leading '-' |
| NodeBuffer.ReadInt16LE | s_adxl345.js:44-46 | a value exactly when both bytes are inside the buffer; a signed 16-bit word whose high byte is the second one and low byte the first |
| NodeBuffer.ReadInt16BE | s_itg3205.js:26-28 | a value exactly when both bytes are inside the buffer; a signed 16-bit word whose high byte is the first one |
| NodeBuffer.ReadInt32BE | RTCMParser.js:124 | a value exactly when the four bytes are inside the buffer; a signed 32-bit word, negative exactly when the first byte's top bit is set, whose big-endian encoding is those bytes |
| NodeBuffer.Int32WriteRead | RTCMParser.js:124 | reading back the four bytes a value is written as, at any position, gives the value |
| NodeBuffer.Int16WriteRead | s_itg3205.js:26-28 | reading back the two bytes a value is written as, in either byte order and at any position, gives the value |
| JsValues.SplitJoin | s_um980.js:69 | splitting comma-joined fields that hold no comma gives the fields back |
| JsValues.JoinSplit | s_um980.js:69 | joining the parts of a split with the separator gives the line back |
| JsValues.ParseIntDecimal | s_um980.js:93 | parseInt of a digit string with no sign and no "0x" prefix is its decimal value |
| JsValues.ParseFloatDecimal | s_um980.js:94 | parseFloat of `w.f`, with w a non-empty digit string and f a digit string, is exactly w + f / 10^len(f) |
| Um980.ParseCoordinate | s_um980.js:91-101 | a value exactly when parseInt of the first two characters and parseFloat of the rest both give numbers |
| Um980.ReadsTwoDegreeDigits | s_um980.js:93-99 | for any field split after its second character, the value is parseInt of those two characters plus parseFloat of the rest / 60, negated for S/W, whatever the field's width |
| Um980.HemisphereSign | s_um980.js:97-99 | 'S' and 'W' negate the 'N' value; any other direction, missing or empty included, leaves it as is |
| Um980.DecodeGga | s_um980.js:67-89 | fewer than 5 fields is the throwing case; 5 to 9 fields are always refused; otherwise the line is accepted exactly when the coordinates of fields 2-5, the parseFloat of field 9 and the time of field 1 are all truthy, and the accepted fix is exactly those four values |
| Um980.HandleLine | s_um980.js:43-65 | '$RTCM' lines are appended to the queue; other '$GPGGA'/'$GNGGA' lines are decoded and replace the fields only when accepted; everything else changes nothing; the mode never changes |
| Um980.OnData | s_um980.js:34-41 | BASE and ROVER handle the line as HandleLine; any other mode leaves the state unchanged and ignores the line |
| Um980.OnDataEffect | s_um980.js:34-89 | one line keeps the mode, changes the four fields only together to the accepted (emitted) values, and changes the queue only by appending an '$RTCM' line in BASE/ROVER mode |
| Um980.ReplayEffect | s_um980.js:34-89 | over any line sequence in BASE/ROVER mode the queue gains exactly the '$RTCM' lines in order and the fields are those of the last accepted sentence; any other mode changes nothing |
| Um980.SampleLongitude | s_um980.js:93-96 | "01131.000" E reads as 1 + 131/60 |
| Um980.SampleLatitude | s_um980.js:93-96 | "4807.038" N reads as 48 + 7.038/60 |
| Um980.SampleAltitude | s_um980.js:73 | "545.4" reads as 545.4 |
| Um980.SampleFieldsDecode | s_um980.js:67-89 | a line with the sample's time, coordinate and altitude fields is accepted with 48 + 7.038/60, 1 + 131/60, 545.4 and "123519" |
| Um980.SampleSentence | s_um980.js:67-89 | the sample sentence "$GNGGA,123519,4807.038,N,01131.000,E,4,08,0.9,545.4,M,46.9,M,,*47" is accepted with those values |
| Um980.UM980.constructor | s_um980.js:7-16 | the four fields are null and the queue is empty; port, baud rate and mode are as given, each omitted one defaulting on its own to '/dev/ttyUSB0', 115200 and 'ROVER' |
| Um980.UM980.OnDataReceived | s_um980.js:34-41 | the new state and outcome are those of OnData: BASE and ROVER handle the line, other modes do nothing |
| Um980.UM980.HandleBaseStationMode | s_um980.js:43-53 | '$RTCM' lines are queued, '$GPGGA'/'$GNGGA' lines decoded, others ignored (HandleLine) |
| Um980.UM980.HandleRoverMode | s_um980.js:55-65 | the same routing as base mode (HandleLine) |
| Um980.UM980.ParseGNSSData | s_um980.js:67-89 | the four fields become the decoded ones only on acceptance, otherwise all keep their old values; mode and queue are unchanged |
| Um980.UM980.StoreFix | s_um980.js:77-80 | after the four assignments the stored fix is exactly the given one; mode and queue are unchanged |
| Um980.UM980.SetBaseStationMode | s_um980.js:131-135 | mode becomes 'BASE', the command is "MODE BASE\n", fields and queue are unchanged |
| Um980.UM980.GetGNSSData | s_um980.js:154-161 | the four stored fields, as they are |
| Um980.UM980.GetRTCMData | s_um980.js:163-165 | the queued '$RTCM' lines |
| Um980.UM980.SetRoverMode | s_um980.js:137-141 | mode becomes 'ROVER', the command is "MODE ROVER SURVEY\n", fields and queue are unchanged |
| Server.FixStatus | server.js:58-71 | '1', '2' and '4' map to their own texts, in both directions; anything else, a missing field included, gives 'No Fix (Red)'; 'No Fix' is never produced |
| Server.StatusFor | server.js:55-73 | only '$GNGGA' lines set a status, and it is FixStatus of field 6 |
| Server.GnssStatusMonitor.constructor | server.js:54 | the status starts as 'No Fix' |
| Server.GnssStatusMonitor.OnData | server.js:55-74 | a '$GNGGA' line sets and emits FixStatus of field 6; other lines change and emit nothing |
| Server.StatusFromLastGngga | server.js:55-73 | after any line sequence the status is determined by the last '$GNGGA' line alone, or is the initial one if there was none |
| Server.StatusNeverInitialAgain | server.js:54-71 | the status is still 'No Fix' exactly when no '$GNGGA' line has arrived |
| Server.CandidatesNone | server.js:22-29 | there is no candidate address exactly when no entry of any interface is non-internal IPv4 |
| Server.CandidatesFirst | server.js:22-27 | the first non-internal IPv4 entry, in interface order then list order, gives the first candidate |
| Server.GetIPAddress | server.js:20-30 | the result is the first candidate, or 'localhost' when there is none |
| Adxl345.Init | s_adxl345.js:18-30 | registers are written only when the bus is open: 0x2D := 0x08, then 0x31 := 0x0B |
| Adxl345.ReadAcceleration | s_adxl345.js:32-52 | {0,0,0} when the bus is not open or the read throws; otherwise each axis is the little-endian int16 at offset 0, 2 or 4 times 0.0039 |
| Adxl345.ReadEncoded | s_adxl345.js:39-47 | reading the little-endian encoding of three raw values gives them scaled by 0.0039 |
| Adxl345.RecoversBlock | s_adxl345.js:44-46 | dividing each axis by 0.0039 gives int16 values whose little-endian encoding is the block read |
| Adxl345.AccelerationBounds | s_adxl345.js:42-51 | every axis lies within [-32768 × 0.0039, 32767 × 0.0039], fallbacks included |
| Adxl345.AxesIndependent | s_adxl345.js:44-46 | x depends only on bytes 0-1, y on 2-3, z on 4-5 |
| Qmc5883l.ReadRawData | s_qmc5883l.js:23-31 | the little-endian int16 values at offsets 0, 2 and 4, whose little-endian encoding is the block |
| Qmc5883l.ReadMicroTesla | s_qmc5883l.js:35-44 | each axis times 12000 is the raw value |
| Qmc5883l.RawRoundTrip | s_qmc5883l.js:27-31 | decoding the little-endian encoding of three int16 values gives them back |
| Qmc5883l.FieldSignAndBounds | s_qmc5883l.js:37-43 | each axis keeps the sign and the zero of its raw value and lies within [-32768/12000, 32767/12000] |
| Qmc5883l.AxesIndependent | s_qmc5883l.js:27-31 | each axis depends only on its own byte pair |
| Itg3205.ReadRawGyroData | s_itg3205.js:21-30 | the big-endian int16 values at offsets 0, 2 and 4, whose big-endian encoding is the block |
| Itg3205.RawRoundTrip | s_itg3205.js:26-28 | decoding the big-endian encoding of three int16 values gives them back |
| Itg3205.ReadGyroDPS | s_itg3205.js:32-41 | each rate times 14.375 is the raw value |
| Itg3205.RateBounds | s_itg3205.js:34-39 | each rate lies within [-32768/14.375, 32767/14.375] and has the sign of its raw value |
| Itg3205.ReadTemperature | s_itg3205.js:43-50 | the value times 280 minus 13200 is the big-endian int16 at offset 0, within [(-32768+13200)/280, (32767+13200)/280] |
| Itg3205.CelsiusAffine | s_itg3205.js:49 | raw -13200 reads 0 °C, every +280 LSB adds exactly 1 °C, and the conversion is increasing |
| Itg3205.TemperatureOfEncoded | s_itg3205.js:43-49 | a raw word written big-endian reads back as (raw + 13200) / 280 |

## Left out

- madgwick.js is not part of this model. It is floating-point orientation
  filtering built on `Math.sqrt` and has no discrete behaviour worth stating.
- Serial, I2C, HTTP and socket transport are left out. This covers the
  `SerialPort`/`ReadlineParser` wiring, `sendRTCMToCaster`, `port.write` in
  `sendModeCommand`, `openSync`, `writeByteSync` and `closeSync`, the express
  and socket.io server, `fs.appendFile` and the `readSensors` polling. Bytes
  read from a bus are inputs. A mode switch returns the command it would write,
  and an emitted event is a returned value.
- Console logging and the EventEmitter `emit` calls are left out. The 'gnss'
  payload is the `Accepted` fix, and the 'gnssStatus' payload is the value
  `OnData` returns.
- Um980.UM980.HandleBaseStationMode stops after queueing an '$RTCM' line. The
  code then passes that text to `RTCMParser.parse`, where `Buffer.concat`
  throws on a string. `RTCMParser` is modelled on byte sequences instead.
- Um980.UM980.HandleRoverMode stops after queueing an '$RTCM' line in the
  same way (s_um980.js:57-61): the `Buffer.concat` TypeError that follows the
  push is not modelled.
- Um980.HandleLine, Um980.OnData and Um980.UM980.OnDataReceived return
  normally after an '$RTCM' line in BASE or ROVER mode. In the code the
  `Buffer.concat` TypeError that follows the push escapes `onDataReceived` to
  whatever emitted the line.
- Um980.ReplayEffect therefore describes a replay that goes on past an '$RTCM'
  line. That holds only in the model: in the code the first such line ends the
  handler with the TypeError, although the line is already queued.
- Um980.UM980.GetRTCMData returns the queue as a value. The code returns the
  `this.rtcmData` array itself (s_um980.js:164), so a caller that pushes onto
  the result changes the driver's queue. That aliasing is not modelled.
- Adxl345.Init always lists both register writes when the bus is open. In the
  code a first `writeByteSync` that throws skips the second write
  (s_adxl345.js:24-29). Bus failures are not inputs of `Init`.
- JsValues.BitAnd covers non-negative operands only. JavaScript's conversion
  of `&` operands to signed 32-bit integers is not modelled, because the one
  use masks a byte.
- The register writes of the QMC5883L and ITG-3205 `init` and the exception a
  failing ADXL345 register write would raise are left out. They are foreign
  calls with no result used.
- QMC5883L and ITG-3205 reads have no fallback in the code: an exception
  thrown by the bus propagates to the caller and is not modelled.
- The QMC5883L read calls `readI2CBlockSync` (s_qmc5883l.js:25), while the
  other two drivers call `readI2cBlockSync`. If the bus object has only the
  lower-case name, every QMC5883L read throws before any decoding. The block
  read is an input here, so the model decodes it as if the call succeeded.
- The sensor functions require a 6-byte (or 2-byte) block, because the code
  always reads into a buffer of that size.
- `parseInt` and `parseFloat` cover an optional sign, digits, a "0x" prefix
  for parseInt, and one decimal point for parseFloat. Leading whitespace,
  exponents and `Infinity` are not modelled. Neither is IEEE rounding of the
  scale factors or of minutes / 60: all arithmetic is exact.
- The order of `Object.keys(networkInterfaces())` is taken as given, as the
  order of the input sequence.
- The timer demo at the end of s_itg3205.js and the duplicate files
  adxl345.js and qmc5883l.js are left out. The first duplicate never opens
  its bus and the second is truncated. The print-only scripts test_3axis.js
  and test_magaccel.js are left out too.
- The processing helpers that `processMessage` would call (for 1005, 1077 and
  the others) only log. Their one read, `getInt32(message, 6)`, is kept as the
  `Gps1077` payload, but is unreachable.
