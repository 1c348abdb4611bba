/** The charger's byte stream: reads of any size are appended to a buffer, and complete frames are
    taken off its front. */
module ChargeFraming {
  import opened ModbusCrc

  /** Head length, CRC length and the two function codes the charger answers with. */
  const MSG_HEAD_LEN := 3
  const CRC_LEN := 2
  const CHARGE_STATUS_QUERY: bv8 := 0x03
  const CHARGE_HISTORY_QUERY: bv8 := 0x07

  /** The only lengths the two handlers accept. */
  const REAL_DATA_LEN := 21
  const HISTORY_DATA_LEN := 14

  /** The frame length its third byte announces. */
  function FrameLength(buf: seq<bv8>): (n: nat)
    requires |buf| > MSG_HEAD_LEN
    ensures 5 <= n <= 260
  {
    (buf[2] as int) + MSG_HEAD_LEN + CRC_LEN
  }

  /** A complete frame stands at the front of the buffer. */
  predicate Complete(buf: seq<bv8>) {
    |buf| > MSG_HEAD_LEN && FrameLength(buf) <= |buf|
  }

  /** What became of a frame: the handler that took it, or why it was dropped. */
  datatype Event =
    | RealData(frame: seq<bv8>)
    | HistoryData(frame: seq<bv8>)
    | WrongLength(frame: seq<bv8>)
    | UnknownCode(frame: seq<bv8>)
    | BadCrc(frame: seq<bv8>)

  function Handle(frame: seq<bv8>): Event
    requires |frame| >= 5
  {
    if !CheckCrc(frame) then BadCrc(frame)
    else if frame[1] == CHARGE_STATUS_QUERY then
      if |frame| == REAL_DATA_LEN then RealData(frame) else WrongLength(frame)
    else if frame[1] == CHARGE_HISTORY_QUERY then
      if |frame| == HISTORY_DATA_LEN then HistoryData(frame) else WrongLength(frame)
    else UnknownCode(frame)
  }

  /** What taking all complete frames off a buffer yields: the events in order and the rest. */
  datatype Drained = Drained(events: seq<Event>, rest: seq<bv8>)

  function Drain(buf: seq<bv8>): (d: Drained)
    ensures !Complete(d.rest)
  {
    if !Complete(buf) then Drained([], buf)
    else
      var n := FrameLength(buf);
      var d := Drain(buf[n..]);
      Drained([Handle(buf[..n])] + d.events, d.rest)
  }

  // ---------------------------------------------------------------- independence of the reads

  /** Draining early does not change what comes out: the frames of `a`, then those of its rest
      continued with `b`, are the frames of `a + b`. */
  lemma {:induction false} DrainInTwo(a: seq<bv8>, b: seq<bv8>)
    ensures Drain(a + b).events == Drain(a).events + Drain(Drain(a).rest + b).events
    ensures Drain(a + b).rest == Drain(Drain(a).rest + b).rest
    decreases |a|
  {
    hide Handle;
    if Complete(a) {
      var n := FrameLength(a);
      assert FrameLength(a + b) == n;
      assert (a + b)[..n] == a[..n];
      assert (a + b)[n..] == a[n..] + b;
      DrainInTwo(a[n..], b);
    } else {
      assert Drain(a) == Drained([], a);
    }
  }

  function Concat(chunks: seq<seq<bv8>>): seq<bv8> {
    if chunks == [] then [] else Concat(chunks[..|chunks| - 1]) + chunks[|chunks| - 1]
  }

  /** The buffer and all events after a sequence of reads. */
  function Reads(buf: seq<bv8>, chunks: seq<seq<bv8>>): Drained {
    if chunks == [] then Drained([], buf)
    else
      var before := Reads(buf, chunks[..|chunks| - 1]);
      var now := Drain(before.rest + chunks[|chunks| - 1]);
      Drained(before.events + now.events, now.rest)
  }

  lemma {:induction false} ReadsAreOneDrain(chunks: seq<seq<bv8>>)
    requires |chunks| > 0
    ensures Reads([], chunks) == Drain(Concat(chunks))
  {
    hide Drain, Complete;
    var front, last := chunks[..|chunks| - 1], chunks[|chunks| - 1];
    if front == [] {
      assert [] + last == last;
      assert Reads([], front) == Drained([], []);
      assert Concat(chunks) == last;
      assert [] + Drain(last).events == Drain(last).events;
    } else {
      ReadsAreOneDrain(front);
      DrainInTwo(Concat(front), last);
    }
  }

  /** Two ways to cut the same stream into reads give the same events and the same rest. */
  lemma ChunkingIndependent(a: seq<seq<bv8>>, b: seq<seq<bv8>>)
    requires |a| > 0 && |b| > 0 && Concat(a) == Concat(b)
    ensures Reads([], a) == Reads([], b)
  {
    ReadsAreOneDrain(a);
    ReadsAreOneDrain(b);
  }

  // ---------------------------------------------------------------- well-formed streams

  /** A frame whose third byte is the length of its payload and whose checksum is right. */
  predicate IsFrame(f: seq<bv8>) {
    |f| >= 5 && |f| == FrameLength(f) && CheckCrc(f)
  }

  function Events(frames: seq<seq<bv8>>): (r: seq<Event>)
    requires forall f :: f in frames ==> IsFrame(f)
    ensures |r| == |frames|
  {
    if frames == [] then []
    else
      assert frames[0] in frames && IsFrame(frames[0]);
      [Handle(frames[0])] + Events(frames[1..])
  }

  function Stream(frames: seq<seq<bv8>>): seq<bv8> {
    if frames == [] then [] else frames[0] + Stream(frames[1..])
  }

  /** A stream of well-formed frames is taken apart into exactly those frames, in order, with
      nothing left over. */
  lemma {:induction false} FramesComeOut(frames: seq<seq<bv8>>)
    requires forall f :: f in frames ==> IsFrame(f)
    ensures Drain(Stream(frames)) == Drained(Events(frames), [])
  {
    hide Handle, CheckCrc;
    if frames != [] {
      var f, rest := frames[0], Stream(frames[1..]);
      assert f in frames;
      FramesComeOut(frames[1..]);
      assert (f + rest)[..|f|] == f;
      assert (f + rest)[|f|..] == rest;
      assert FrameLength(f + rest) == |f|;
    }
  }

  /** Events account for every byte: the frames taken off and the rest are the stream. */
  lemma {:induction false} NothingLost(buf: seq<bv8>)
    ensures FramesOf(Drain(buf).events) + Drain(buf).rest == buf
    decreases |buf|
  {
    hide Handle, FramesOf, Drain, FrameLength;
    if Complete(buf) {
      var n := FrameLength(buf);
      var frame, later := buf[..n], Drain(buf[n..]);
      DrainStep(buf);
      NothingLost(buf[n..]);
      HandleKeepsFrame(frame);
      FramesPush(Handle(frame), later.events);
      Rejoin(frame, FramesOf(later.events), later.rest, buf, n);
    } else {
      DrainNothing(buf);
    }
  }

  lemma DrainStep(buf: seq<bv8>)
    requires Complete(buf)
    ensures Drain(buf).events == [Handle(buf[..FrameLength(buf)])] + Drain(buf[FrameLength(buf)..]).events
    ensures Drain(buf).rest == Drain(buf[FrameLength(buf)..]).rest
  {
    hide Handle;
  }

  lemma DrainNothing(buf: seq<bv8>)
    requires !Complete(buf)
    ensures FramesOf(Drain(buf).events) + Drain(buf).rest == buf
  {}

  lemma Rejoin(frame: seq<bv8>, frames: seq<bv8>, rest: seq<bv8>, buf: seq<bv8>, n: nat)
    requires n <= |buf| && frame == buf[..n] && frames + rest == buf[n..]
    ensures (frame + frames) + rest == buf
  {
    assert (frame + frames) + rest == frame + (frames + rest);
  }

  lemma FramesPush(event: Event, events: seq<Event>)
    ensures FramesOf([event] + events) == event.frame + FramesOf(events)
  {
    assert ([event] + events)[1..] == events;
  }

  lemma HandleKeepsFrame(frame: seq<bv8>)
    requires |frame| >= 5
    ensures Handle(frame).frame == frame
  {
    hide CheckCrc;
  }

  function FramesOf(events: seq<Event>): seq<bv8> {
    if events == [] then [] else events[0].frame + FramesOf(events[1..])
  }

  // ---------------------------------------------------------------- the bytes of a message

  type Payload = p: seq<bv8> | |p| <= 255

  /** A message with two check bytes, right or wrong. */
  datatype Message = Message(address: bv8, code: bv8, payload: Payload, low: bv8, high: bv8)

  /** Everything before the check bytes: the third byte is the length of the payload. */
  function Checked(x: Message): seq<bv8> {
    [x.address, x.code, |x.payload| as bv8] + x.payload
  }

  function Bytes(x: Message): seq<bv8> {
    Checked(x) + [x.low, x.high]
  }

  function AllBytes(xs: seq<Message>): seq<bv8> {
    if xs == [] then [] else Bytes(xs[0]) + AllBytes(xs[1..])
  }

  /** The buffer ends inside a message: in its head or before the end its third byte announces. */
  predicate Unfinished(rest: seq<bv8>) {
    |rest| <= 3 || |rest| < 5 + (rest[2] as int)
  }

  /** What becomes of a message: dropped for its checksum, for its code or for its length, or handled.
      A status has a payload of 16 bytes, a history record one of 9. */
  ghost predicate Becomes(x: Message, e: Event) {
    && e.frame == Bytes(x)
    && (e.BadCrc? <==> [x.low, x.high] != [Low(Crc(Checked(x))), High(Crc(Checked(x)))])
    && (!e.BadCrc? ==>
         && (e.RealData? <==> x.code == 0x03 && |x.payload| == 16)
         && (e.HistoryData? <==> x.code == 0x07 && |x.payload| == 9)
         && (e.UnknownCode? <==> x.code != 0x03 && x.code != 0x07))
  }

  /** The events tell, in order, what became of the messages. */
  ghost predicate AllBecome(xs: seq<Message>, events: seq<Event>) {
    |events| == |xs| && forall i :: 0 <= i < |xs| ==> Becomes(xs[i], events[i])
  }

  lemma NextByte(b: bv8)
    requires b as int < 255
    ensures (b + 1) as int == b as int + 1
  {}

  lemma ByteBack(b: bv8)
    ensures (b as int) as bv8 == b
  {}

  lemma {:induction false} ByteFor(n: nat) returns (b: bv8)
    requires n <= 255
    ensures b as int == n
  {
    if n == 0 {
      b := 0;
    } else {
      b := ByteFor(n - 1);
      NextByte(b);
      b := b + 1;
    }
  }

  /** A length that fits a byte is read back from it. */
  lemma LengthByte(n: nat)
    requires n <= 255
    ensures ((n as bv8) as int) == n
  {
    var b := ByteFor(n);
    ByteBack(b);
  }

  lemma BytesAre(x: Message, tail: seq<bv8>)
    ensures var buf := Bytes(x) + tail;
      && |Bytes(x)| == 5 + |x.payload| && Complete(buf) && FrameLength(buf) == |Bytes(x)|
      && buf[..|Bytes(x)|] == Bytes(x) && buf[|Bytes(x)|..] == tail
  {
    LengthByte(|x.payload|);
    assert (Bytes(x) + tail)[2] == |x.payload| as bv8;
  }

  lemma HandledAs(x: Message)
    ensures |Bytes(x)| == 5 + |x.payload| && Becomes(x, Handle(Bytes(x)))
  {
    hide Crc, Low, High;
    var f := Bytes(x);
    assert f[..|f| - 2] == Checked(x) && f[1] == x.code;
    assert f[|f| - 2] == x.low && f[|f| - 1] == x.high;
    var c := Crc(Checked(x));
    assert [x.low, x.high] == [Low(c), High(c)] <==> x.low == Low(c) && x.high == High(c);
  }

  /** Whatever follows a message, draining takes exactly its bytes off the front, and the event says what
      the message was. */
  lemma MessageComesOff(x: Message, tail: seq<bv8>)
    ensures var d := Drain(Bytes(x) + tail);
      && |d.events| > 0 && Becomes(x, d.events[0])
      && d.events[1..] == Drain(tail).events && d.rest == Drain(tail).rest
  {
    BytesAre(x, tail);
    HandledAs(x);
    hide Bytes, Becomes, Handle, FrameLength;
    DrainStep(Bytes(x) + tail);
  }

  lemma UnfinishedStays(rest: seq<bv8>)
    requires Unfinished(rest)
    ensures Drain(rest) == Drained([], rest)
  {}

  /** Any messages, good or bad, and the beginning of another one: exactly the messages come off, in
      order, and the beginning stays in the buffer. */
  lemma {:induction false} MessagesComeOff(xs: seq<Message>, rest: seq<bv8>)
    requires Unfinished(rest)
    ensures AllBecome(xs, Drain(AllBytes(xs) + rest).events) && Drain(AllBytes(xs) + rest).rest == rest
  {
    hide Bytes, Becomes, Drain;
    if xs == [] {
      UnfinishedStays(rest);
      assert AllBytes(xs) + rest == rest;
    } else {
      var tail := AllBytes(xs[1..]) + rest;
      MessagesComeOff(xs[1..], rest);
      MessageComesOff(xs[0], tail);
      assert AllBytes(xs) + rest == Bytes(xs[0]) + tail;
      var events := Drain(Bytes(xs[0]) + tail).events;
      forall i | 0 <= i < |xs| ensures Becomes(xs[i], events[i]) {
        assert i > 0 ==> xs[i] == xs[1..][i - 1] && events[i] == events[1..][i - 1];
      }
    }
  }

  /** However a stream of messages is cut into reads, they all come off. */
  lemma MessagesInReads(chunks: seq<seq<bv8>>, xs: seq<Message>, rest: seq<bv8>)
    requires |chunks| > 0 && Concat(chunks) == AllBytes(xs) + rest && Unfinished(rest)
    ensures AllBecome(xs, Reads([], chunks).events) && Reads([], chunks).rest == rest
  {
    hide AllBecome, Drain;
    ReadsAreOneDrain(chunks);
    MessagesComeOff(xs, rest);
  }

  // ---------------------------------------------------------------- the buffer and the charger

  class QyhBuffer {
    var buf: seq<bv8>

    constructor ()
      ensures buf == []
    {
      buf := [];
    }

    method Append(data: seq<bv8>)
      modifies this
      ensures buf == old(buf) + data
    {
      if |data| == 0 {
        return;
      }
      buf := buf + data;
    }

    method RemoveFront(len: int)
      modifies this
      ensures buf == if len <= 0 then old(buf) else if len > |old(buf)| then [] else old(buf)[len..]
    {
      if len <= 0 {
        return;
      }
      if len > |buf| {
        buf := [];
      } else {
        buf := buf[len..];
      }
    }

    /** The first index of the key at or after `start`, or -1. */
    method Find(key: bv8, start: nat) returns (r: int)
      ensures r == -1 ==> forall k :: start <= k < |buf| ==> buf[k] != key
      ensures r != -1 ==> start <= r < |buf| && buf[r] == key && forall k :: start <= k < r ==> buf[k] != key
    {
      var i := start;
      while i < |buf|
        invariant start <= i
        invariant forall k :: start <= k < i && k < |buf| ==> buf[k] != key
      {
        if buf[i] == key {
          return i;
        }
        i := i + 1;
      }
      return -1;
    }
  }

  class ChargeMachine {
    const buffer: QyhBuffer
    /** The frames the charger handled, oldest first. */
    var log: seq<Event>

    constructor ()
      ensures fresh(buffer) && buffer.buf == [] && log == []
    {
      buffer := new QyhBuffer();
      log := [];
    }

    /** Length of the frame at the front, or `INT_MAX` while the head is incomplete. */
    method NextLength() returns (len: int)
      ensures if |buffer.buf| > MSG_HEAD_LEN then len == FrameLength(buffer.buf) else len == 0x7FFF_FFFF
    {
      len := 0x7FFF_FFFF;
      if |buffer.buf| > MSG_HEAD_LEN {
        len := buffer.buf[2] as int;
        len := len + (MSG_HEAD_LEN + CRC_LEN);
      }
    }

    /** `onRead`. */
    method OnRead(data: seq<bv8>)
      requires |buffer.buf| + |data| < 0x7FFF_FFFF
      modifies this, buffer
      ensures log == old(log) + Drain(old(buffer.buf) + data).events
      ensures buffer.buf == Drain(old(buffer.buf) + data).rest
      ensures forall xs, rest :: old(buffer.buf) + data == AllBytes(xs) + rest && Unfinished(rest) ==>
                old(log) <= log && AllBecome(xs, log[|old(log)|..]) && buffer.buf == rest
    {
      hide Handle, CheckCrc, AllBecome, AllBytes, Unfinished;
      buffer.Append(data);
      ghost var all := buffer.buf;
      var len := NextLength();
      assert [] + Drain(all).events == Drain(all).events;
      while len <= |buffer.buf|
        invariant |buffer.buf| < 0x7FFF_FFFF
        invariant if |buffer.buf| > MSG_HEAD_LEN then len == FrameLength(buffer.buf) else len == 0x7FFF_FFFF
        invariant log + Drain(buffer.buf).events == old(log) + Drain(all).events
        invariant Drain(buffer.buf).rest == Drain(all).rest
        decreases |buffer.buf|
      {
        assert Complete(buffer.buf);
        var frame := buffer.buf[..len];
        ghost var later := Drain(buffer.buf[len..]).events;
        var event := Dispatch(len);
        assert log + ([event] + later) == log + [event] + later;
        log := log + [event];
        buffer.RemoveFront(len);
        len := NextLength();
      }
      assert log + [] == log;
      assert log[|old(log)|..] == Drain(all).events;
      forall xs, rest | all == AllBytes(xs) + rest && Unfinished(rest)
        ensures AllBecome(xs, Drain(all).events) && Drain(all).rest == rest
      {
        MessagesComeOff(xs, rest);
      }
    }

    /** The checksum test and the switch on the function code. */
    method Dispatch(len: nat) returns (event: Event)
      requires 5 <= len <= |buffer.buf|
      ensures event == Handle(buffer.buf[..len])
    {
      var ok := CheckFrame(buffer.buf, len);
      var frame := buffer.buf[..len];
      if !ok {
        event := BadCrc(frame);
      } else if buffer.buf[1] == CHARGE_STATUS_QUERY {
        event := if len == REAL_DATA_LEN then RealData(frame) else WrongLength(frame);
      } else if buffer.buf[1] == CHARGE_HISTORY_QUERY {
        event := if len == HISTORY_DATA_LEN then HistoryData(frame) else WrongLength(frame);
      } else {
        event := UnknownCode(frame);
      }
    }
  }
}
