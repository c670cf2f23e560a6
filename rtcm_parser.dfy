/** The RTCM 3 byte-stream framer of RTCMParser.js, as the code is written.

    Bytes are appended to a buffer; a loop then drops one leading byte at a time
    until the buffer starts with the 0xD3 preamble, reads the 16-bit big-endian
    word in bytes 1-2 as a length L, and cuts off a frame of L + 3 bytes once that
    many are buffered, otherwise it waits. The loop runs only while more than three
    bytes are buffered.

    The code differs from the RTCM 3 transport layer (RTCM Standard 10403, section 4):
    the six reserved high bits of the length word are not masked off, the 3-byte
    CRC-24Q trailer is not counted in the frame size and is never checked, and the
    message number is taken as the low 6 bits of byte 3 instead of the 12-bit field,
    so no message is ever dispatched to a specific handler. The lemmas below state
    these facts about the code. */
module RtcmParser {
  import opened JsValues
  import opened NodeBuffer

  const Preamble: Byte := 0xD3

  /** `(buffer[1] << 8) + buffer[2]`: the whole 16-bit word, reserved bits included. */
  function DeclaredLength(buf: seq<Byte>): (n: nat)
    requires |buf| >= 3
    ensures n < 0x10000
    ensures n / 0x100 == buf[1] as int && n % 0x100 == buf[2] as int
  {
    buf[1] as int * 0x100 + buf[2]
  }

  /** The six reserved high bits of byte 1 are not masked off: whenever any of them
      is set, the length exceeds the 10-bit maximum 1023 of the standard. The low
      ten bits are the standard's length field. */
  lemma ReservedBitsKept(buf: seq<Byte>)
    requires |buf| >= 3
    ensures DeclaredLength(buf) > 1023 <==> buf[1] >= 4
    ensures DeclaredLength(buf) % 1024 == (buf[1] as int % 4) * 0x100 + buf[2]
  {
  }

  /** What one pass of the loop does to the front of the buffer. */
  datatype Event = Skipped(b: Byte) | Framed(frame: seq<Byte>)

  /** A skipped byte is never the preamble; a frame starts with the preamble and is
      exactly its declared length plus three bytes long. */
  predicate ValidEvent(e: Event)
  {
    match e
    case Skipped(b) => b != Preamble
    case Framed(f) => |f| >= 3 && f[0] == Preamble && |f| == DeclaredLength(f) + 3
  }

  predicate ValidEvents(events: seq<Event>)
  {
    forall i :: 0 <= i < |events| ==> ValidEvent(events[i])
  }

  function EventBytes(e: Event): seq<Byte>
  {
    match e
    case Skipped(b) => [b]
    case Framed(f) => f
  }

  /** The bytes the events took off the buffer, in order. */
  function Consumed(events: seq<Event>): seq<Byte>
  {
    if events == [] then [] else EventBytes(events[0]) + Consumed(events[1..])
  }

  /** The frames among the events, in the order they were handed to processMessage. */
  function Frames(events: seq<Event>): seq<seq<Byte>>
  {
    if events == [] then []
    else (if events[0].Framed? then [events[0].frame] else []) + Frames(events[1..])
  }

  /** The loop's exit condition: at most three bytes, or a preamble whose frame is
      not yet complete. */
  predicate Waiting(buf: seq<Byte>)
  {
    |buf| <= 3 || (buf[0] == Preamble && |buf| < DeclaredLength(buf) + 3)
  }

  /** How many bytes one pass of the loop takes off a buffer it does not stop at:
      the whole frame after a preamble, otherwise the one leading byte. */
  function StepLength(buf: seq<Byte>): (n: nat)
    requires !Waiting(buf)
    ensures 0 < n <= |buf|
  {
    if buf[0] == Preamble then DeclaredLength(buf) + 3 else 1
  }

  /** What that pass does with the bytes it takes. */
  function StepEvent(buf: seq<Byte>): Event
    requires !Waiting(buf)
  {
    if buf[0] == Preamble then Framed(buf[..StepLength(buf)]) else Skipped(buf[0])
  }

  /** The loop of `parse` run to completion on `buf`: the events it performs and the
      buffer it leaves, which is always in a waiting state. */
  function Scan(buf: seq<Byte>): (r: (seq<Event>, seq<Byte>))
    ensures Waiting(r.1)
    decreases |buf|
  {
    if Waiting(buf) then ([], buf)
    else
      var next := Scan(buf[StepLength(buf)..]);
      ([StepEvent(buf)] + next.0, next.1)
  }

  /** A pass that the buffer allows is not changed by bytes appended behind it. */
  lemma StepPrefix(buf: seq<Byte>, more: seq<Byte>)
    requires !Waiting(buf)
    ensures !Waiting(buf + more)
    ensures StepLength(buf + more) == StepLength(buf)
    ensures StepEvent(buf + more) == StepEvent(buf)
  {
    var whole := buf + more;
    assert whole[0] == buf[0] && whole[1] == buf[1] && whole[2] == buf[2];
    assert whole[..StepLength(buf)] == buf[..StepLength(buf)];
  }

  /** One pass of the loop, unfolded. */
  lemma ScanStep(buf: seq<Byte>)
    requires !Waiting(buf)
    ensures Scan(buf) == ([StepEvent(buf)] + Scan(buf[StepLength(buf)..]).0, Scan(buf[StepLength(buf)..]).1)
  {
  }

  /** The bytes a pass takes are the ones its event records. */
  lemma StepBytes(buf: seq<Byte>)
    requires !Waiting(buf)
    ensures EventBytes(StepEvent(buf)) == buf[..StepLength(buf)]
  {
    if buf[0] != Preamble {
      assert buf[..1] == [buf[0]];
    }
  }

  /** One event taken off the front of `buf`, and the rest conserved, conserve the
      whole. */
  lemma ConserveStep(buf: seq<Byte>, n: nat, e: Event, events: seq<Event>, left: seq<Byte>)
    requires n <= |buf| && EventBytes(e) == buf[..n]
    requires Consumed(events) + left == buf[n..]
    ensures Consumed([e] + events) + left == buf
  {
    var all := [e] + events;
    assert all[0] == e && all[1..] == events;
    assert Consumed(all) == buf[..n] + Consumed(events);
    assert buf[..n] + (Consumed(events) + left) == buf;
  }

  /** Conservation and order: the bytes skipped and framed, in the order the loop
      took them, followed by the buffer left over, are exactly the bytes scanned. */
  lemma {:induction false} ScanConserves(buf: seq<Byte>)
    ensures Consumed(Scan(buf).0) + Scan(buf).1 == buf
    decreases |buf|
  {
    if !Waiting(buf) {
      var n := StepLength(buf);
      var next := Scan(buf[n..]);
      ScanConserves(buf[n..]);
      ScanStep(buf);
      StepBytes(buf);
      ConserveStep(buf, n, StepEvent(buf), next.0, next.1);
    } else {
      ScanWaiting(buf);
      assert [] + buf == buf;
    }
  }

  /** No preamble byte is ever skipped, and every frame starts with the preamble
      and is exactly as long as its own length word says, plus three. */
  lemma {:induction false} ScanEventsValid(buf: seq<Byte>)
    ensures ValidEvents(Scan(buf).0)
    decreases |buf|
  {
    if !Waiting(buf) {
      var n := StepLength(buf);
      ScanEventsValid(buf[n..]);
      assert Scan(buf).0 == [StepEvent(buf)] + Scan(buf[n..]).0;
      assert ValidEvent(StepEvent(buf));
    }
  }

  lemma {:induction false} ConsumedAppend(a: seq<Event>, b: seq<Event>)
    ensures Consumed(a + b) == Consumed(a) + Consumed(b)
    decreases |a|
  {
    if a != [] {
      assert (a + b)[1..] == a[1..] + b;
      ConsumedAppend(a[1..], b);
    } else {
      assert a + b == b;
    }
  }

  lemma {:induction false} FramesAppend(a: seq<Event>, b: seq<Event>)
    ensures Frames(a + b) == Frames(a) + Frames(b)
    decreases |a|
  {
    if a != [] {
      assert (a + b)[1..] == a[1..] + b;
      FramesAppend(a[1..], b);
    } else {
      assert a + b == b;
    }
  }

  /** A waiting buffer is left untouched: nothing is consumed from the preamble on. */
  lemma ScanWaiting(buf: seq<Byte>)
    requires Waiting(buf)
    ensures Scan(buf) == ([], buf)
  {
  }

  /** A buffer that starts with the preamble and holds at least L + 3 bytes yields
      exactly its first L + 3 bytes as the first frame, and the loop goes on with the
      rest. */
  lemma FirstFrame(buf: seq<Byte>)
    requires |buf| > 3 && buf[0] == Preamble && |buf| >= DeclaredLength(buf) + 3
    ensures var total := DeclaredLength(buf) + 3;
            Scan(buf).0 == [Framed(buf[..total])] + Scan(buf[total..]).0 &&
            Scan(buf).1 == Scan(buf[total..]).1
  {
  }

  /** A leading byte other than the preamble, with more than three bytes buffered,
      is skipped on its own and the loop goes on with the rest. */
  lemma SkipOne(buf: seq<Byte>)
    requires |buf| > 3 && buf[0] != Preamble
    ensures Scan(buf).0 == [Skipped(buf[0])] + Scan(buf[1..]).0
    ensures Scan(buf).1 == Scan(buf[1..]).1
  {
  }

  /** Bookkeeping for one pass of the loop: the events already performed followed
      by those still to come are unchanged when one event moves from the second
      group to the first, and the frames grow by that event's frame, if any. */
  lemma StepAccount(events: seq<Event>, e: Event, buf: seq<Byte>, next: seq<Byte>)
    requires Scan(buf).0 == [e] + Scan(next).0
    ensures events + Scan(buf).0 == (events + [e]) + Scan(next).0
    ensures Frames(events + [e]) == Frames(events) + if e.Framed? then [e.frame] else []
  {
    FramesAppend(events, [e]);
    assert [e][1..] == [];
  }

  /** Appending more bytes never changes what the loop did to the first ones: it
      does the same events and then carries on from the buffer it had left. */
  lemma {:induction false} ScanAppend(buf: seq<Byte>, more: seq<Byte>)
    ensures Scan(buf + more) == (Scan(buf).0 + Scan(Scan(buf).1 + more).0, Scan(Scan(buf).1 + more).1)
    decreases |buf|
  {
    if Waiting(buf) {
      assert Scan(buf) == ([], buf);
      assert [] + Scan(buf + more).0 == Scan(buf + more).0;
    } else {
      var n := StepLength(buf);
      var e := StepEvent(buf);
      var whole := buf + more;
      StepPrefix(buf, more);
      assert whole[n..] == buf[n..] + more;
      ScanAppend(buf[n..], more);
      var next := Scan(buf[n..]);
      var later := Scan(next.1 + more);
      assert Scan(whole) == ([e] + (next.0 + later.0), later.1);
      assert [e] + (next.0 + later.0) == ([e] + next.0) + later.0;
    }
  }

  /** All chunks laid end to end. */
  function Concat(chunks: seq<seq<Byte>>): seq<Byte>
  {
    if chunks == [] then [] else chunks[0] + Concat(chunks[1..])
  }

  /** `parse` called once per chunk, starting from buffer `buf`: all events, and the
      buffer left at the end. */
  function Feed(buf: seq<Byte>, chunks: seq<seq<Byte>>): (seq<Event>, seq<Byte>)
    decreases |chunks|
  {
    if chunks == [] then ([], buf)
    else
      var (first, rest) := Scan(buf + chunks[0]);
      var (later, left) := Feed(rest, chunks[1..]);
      (first + later, left)
  }

  /** Chunk-boundary independence: from any buffer `parse` can leave (in particular
      the empty one), feeding a stream chunk by chunk performs the same events, so
      extracts the same frames in the same order, and leaves the same buffer as
      feeding the whole stream at once. */
  lemma {:induction false} ChunkIndependence(buf: seq<Byte>, chunks: seq<seq<Byte>>)
    requires Waiting(buf)
    ensures Feed(buf, chunks) == Scan(buf + Concat(chunks))
    decreases |chunks|
  {
    if chunks == [] {
      assert buf + Concat(chunks) == buf;
      ScanWaiting(buf);
    } else {
      var head := buf + chunks[0];
      var rest := chunks[1..];
      var tail := Concat(rest);
      assert Concat(chunks) == chunks[0] + tail;
      assert buf + Concat(chunks) == head + tail;
      var mid := Scan(head);
      ScanAppend(head, tail);
      ChunkIndependence(mid.1, rest);
      var later := Feed(mid.1, rest);
      assert Feed(buf, chunks) == (mid.0 + later.0, later.1);
    }
  }

  // ---------------------------------------------------------------------------
  // processMessage

  /** The handler processMessage picks; the eight named ones are never reached. */
  datatype Dispatch =
    | ReferenceStation1005
    | AntennaDescriptors1033
    | Gps1077(pseudorange: Option<int>)
    | Glonass1087
    | Galileo1097
    | Sbas1107
    | BeiDou1127
    | GlonassBiases1230
    | Unsupported(messageType: int)

  /** `message[3] & 0x3F`. A 3-byte frame (declared length 0) has no byte 3, and
      `undefined & 0x3F` is 0. */
  function MessageType(message: seq<Byte>): (t: int)
    ensures 0 <= t < 64
    ensures |message| <= 3 ==> t == 0
    ensures |message| > 3 ==> t == message[3] as int % 64
  {
    if |message| > 3 then
      AndLowOnes(message[3], 6);
      BitAnd(message[3], 0x3F)
    else 0
  }

  /** `getInt16(buffer, offset)`: `readInt16BE`, None where Node throws a RangeError. */
  function GetInt16(buffer: seq<Byte>, offset: int): (r: Option<int>)
    ensures r.Some? <==> 0 <= offset && offset + 2 <= |buffer|
    ensures r.Some? ==> -0x8000 <= r.value < 0x8000
    ensures r.Some? ==> Int16BE(r.value) == buffer[offset..offset + 2]
  {
    if offset < 0 then None else ReadInt16BE(buffer, offset)
  }

  /** `getInt32(buffer, offset)`: `readInt32BE`, None where Node throws a RangeError. */
  function GetInt32(buffer: seq<Byte>, offset: int): (r: Option<int>)
    ensures r.Some? <==> 0 <= offset && offset + 4 <= |buffer|
    ensures r.Some? ==> -0x8000_0000 <= r.value < 0x8000_0000
    ensures r.Some? ==> Int32BE(r.value) == buffer[offset..offset + 4]
  {
    if offset < 0 then None else ReadInt32BE(buffer, offset)
  }

  /** The switch of processMessage: a case label picks its handler, anything else
      the default branch. */
  function ProcessMessage(message: seq<Byte>): (d: Dispatch)
    ensures d.Unsupported? <==> MessageType(message) !in {1005, 1033, 1077, 1087, 1097, 1107, 1127, 1230}
    ensures d.Unsupported? ==> d.messageType == MessageType(message)
    ensures d.ReferenceStation1005? <==> MessageType(message) == 1005
    ensures d.Gps1077? <==> MessageType(message) == 1077
  {
    match MessageType(message)
    case 1005 => ReferenceStation1005
    case 1033 => AntennaDescriptors1033
    case 1077 => Gps1077(GetInt32(message, 6))
    case 1087 => Glonass1087
    case 1097 => Galileo1097
    case 1107 => Sbas1107
    case 1127 => BeiDou1127
    case 1230 => GlonassBiases1230
    case t => Unsupported(t)
  }

  /** The type is at most 63, so no case label matches and every frame takes the
      default branch. */
  lemma AlwaysUnsupported(message: seq<Byte>)
    ensures ProcessMessage(message) == Unsupported(MessageType(message))
    ensures ProcessMessage(message).messageType < 64
  {
  }

  /** The parser object: only the buffer persists between calls. */
  class RTCMParser {
    var buffer: seq<Byte>

    /** `parse` always leaves the buffer in a waiting state. */
    ghost predicate Valid()
      reads this
    {
      Waiting(buffer)
    }

    constructor ()
      ensures buffer == [] && Valid()
    {
      buffer := [];
    }

    /** `parse(data)`: appends the chunk and runs the extraction loop. Returns the
        frames handed to processMessage, in order, with the handler each one
        reached. */
    method Parse(data: seq<Byte>) returns (frames: seq<seq<Byte>>, handled: seq<Dispatch>)
      modifies this
      ensures Valid()
      ensures frames == Frames(Scan(old(buffer) + data).0)
      ensures buffer == Scan(old(buffer) + data).1
      ensures |handled| == |frames|
      ensures forall i :: 0 <= i < |frames| ==> handled[i] == ProcessMessage(frames[i])
    {
      buffer := buffer + data;
      ghost var target := Scan(buffer);
      ghost var events: seq<Event> := [];
      frames, handled := [], [];
      assert events + Scan(buffer).0 == Scan(buffer).0;
      while |buffer| > 3
        invariant target.0 == events + Scan(buffer).0
        invariant target.1 == Scan(buffer).1
        invariant frames == Frames(events)
        invariant |handled| == |frames|
        invariant forall i :: 0 <= i < |frames| ==> handled[i] == ProcessMessage(frames[i])
        decreases |buffer|
      {
        if buffer[0] == Preamble {
          var messageLength := buffer[1] as int * 0x100 + buffer[2];
          if |buffer| >= messageLength + 3 {
            var message := buffer[..messageLength + 3];
            ghost var e := Framed(message);
            FirstFrame(buffer);
            StepAccount(events, e, buffer, buffer[messageLength + 3..]);
            buffer := buffer[messageLength + 3..];
            events := events + [e];
            frames := frames + [message];
            handled := handled + [ProcessMessage(message)];
          } else {
            break;
          }
        } else {
          ghost var e := Skipped(buffer[0]);
          SkipOne(buffer);
          StepAccount(events, e, buffer, buffer[1..]);
          events := events + [e];
          buffer := buffer[1..];
        }
      }
      ScanWaiting(buffer);
      assert events + Scan(buffer).0 == events;
    }
  }

  const Chunk1: seq<Byte> := [0xD3, 0x00, 0x24, 0x05, 0x00, 0x01, 0x00, 0x00, 0x00, 0xF0, 0x00, 0x00, 0x00, 0x00, 0x00]
  const Chunk2: seq<Byte> := [0x00, 0x00, 0x01, 0x00, 0x00, 0x00, 0x00, 0x00]

  /** The example at the end of RTCMParser.js: the first chunk declares a length of
      0x24, so a 39-byte frame, and the two chunks hold 23 bytes: neither call
      extracts anything and all 23 bytes stay buffered. */
  method ExampleUsage() returns (frames1: seq<seq<Byte>>, frames2: seq<seq<Byte>>, buffered: seq<Byte>)
    ensures frames1 == [] && frames2 == []
    ensures buffered == Chunk1 + Chunk2 && |buffered| == 23
  {
    var parser := new RTCMParser();
    assert [] + Chunk1 == Chunk1;
    assert |Chunk1| == 15 && Chunk1[0] == Preamble && DeclaredLength(Chunk1) == 0x24;
    assert Scan(Chunk1) == ([], Chunk1);
    var handled1;
    frames1, handled1 := parser.Parse(Chunk1);
    var both := Chunk1 + Chunk2;
    assert |both| == 23 && both[0] == Preamble && DeclaredLength(both) == 0x24;
    assert Scan(both) == ([], both);
    var handled2;
    frames2, handled2 := parser.Parse(Chunk2);
    buffered := parser.buffer;
  }
}
