/** The framed transport over a byte stream: cancellation-safe `recv`, `send`,
    and the buffer pool. */
module Transport {
  import opened Bytes
  import opened Framing
  import opened Messages

  // ── The byte stream, as an oracle ───────────────────────────────────────

  /** What the stream does at the next read: nothing is ready, it hands out up
      to `most` bytes (at least one), it is at its end, or it fails. */
  datatype ReadEvent = NotReady | Chunk(most: nat) | EndOfStream | ReadFault

  /** What it does at the next write: takes up to `most` bytes (at least one),
      takes none, or fails. */
  datatype WriteEvent = Accept(most: nat) | Refuse | WriteFault

  /** `input` and `output` are the bytes still to be read and all bytes written;
      `readPlan` and `writePlan` are arbitrary schedules.  When they are used up, no
      read is ever ready again and every write takes all it is offered. */
  datatype Stream = Stream(input: seq<byte>, readPlan: seq<ReadEvent>, output: seq<byte>, writePlan: seq<WriteEvent>)

  /** `Got([])` is a read of zero bytes, the end of the stream. */
  datatype ReadResult = ReadPending | Got(data: seq<byte>) | ReadFailed

  datatype WriteResult = Wrote(count: nat) | WriteFailed

  function Clamp(most: nat, limit: nat): (n: nat)
    requires limit > 0
    ensures 1 <= n <= limit
  {
    if most == 0 then 1 else Min(most, limit)
  }

  function StreamRead(s: Stream, max: nat): (r: (Stream, ReadResult))
    requires max > 0
    ensures r.0.output == s.output && r.0.writePlan == s.writePlan
    ensures r.1.Got? ==> |r.1.data| <= max && |r.0.readPlan| < |s.readPlan| && s.input == r.1.data + r.0.input
    ensures !r.1.Got? ==> r.0.input == s.input
  {
    if s.readPlan == [] then (s, ReadPending)
    else
      var s' := s.(readPlan := s.readPlan[1..]);
      match s.readPlan[0]
      case NotReady => (s', ReadPending)
      case EndOfStream => (s', Got([]))
      case ReadFault => (s', ReadFailed)
      case Chunk(most) =>
        if s.input == [] then (s', ReadPending)
        else
          var n := Clamp(most, Min(max, |s.input|));
          (s'.(input := s.input[n..]), Got(s.input[..n]))
  }

  function StreamWrite(s: Stream, data: seq<byte>): (r: (Stream, WriteResult))
    requires data != []
    ensures r.0.input == s.input && r.0.readPlan == s.readPlan
    ensures r.1.Wrote? ==> r.1.count <= |data| && r.0.output == s.output + data[..r.1.count]
    ensures r.1.WriteFailed? ==> r.0.output == s.output
  {
    if s.writePlan == [] then (s.(output := s.output + data), Wrote(|data|))
    else
      var s' := s.(writePlan := s.writePlan[1..]);
      match s.writePlan[0]
      case Refuse => (s', Wrote(0))
      case WriteFault => (s', WriteFailed)
      case Accept(most) =>
        var n := Clamp(most, |data|);
        (s'.(output := s.output + data[..n]), Wrote(n))
  }

  // ── What one poll of `recv` means ───────────────────────────────────────

  datatype TransportError = Closed | Io | BadFrame(error: FrameError)

  /** The result of polling a `recv` future once.  After `Pending` the future
      may be kept or dropped: either way the next poll goes on from the state
      kept in the transport. */
  datatype Outcome = Pending | Received(msg: Msg) | Failed(error: TransportError)

  function OutcomeOf(e: Event): Outcome {
    match e
    case Payload(data) => Received(Msg([], data))
    case Rejected(error) => Failed(BadFrame(error))
  }

  /** The parser events a poll reports. */
  function EventsOf(o: Outcome): seq<Event> {
    match o
    case Received(m) => [Payload(m.body)]
    case Failed(BadFrame(error)) => [Rejected(error)]
    case _ => []
  }

  /** The number of bytes the receiver asks for, given the bytes of the current
      frame it already has: the rest of the header, then the rest of the body. */
  function Want(f: Format, part: seq<byte>): (n: nat)
    requires ParseOne(f, part).More?
    ensures n > 0
  {
    var h := HeaderLen(f);
    if |part| < h then h - |part| else h + Declared(f, part) - |part|
  }

  /** One poll, given the bytes of the current frame: read until the frame is
      complete or the stream stops. */
  function PollFrom(f: Format, part: seq<byte>, inner: Stream): (r: (Stream, seq<byte>, Outcome))
    decreases |inner.readPlan|
  {
    match ParseOne(f, part)
    case Frame(e, n) => (inner, part[n..], OutcomeOf(e))
    case More =>
      var (inner', got) := StreamRead(inner, Want(f, part));
      match got
      case ReadPending => (inner', part, Pending)
      case ReadFailed => (inner', part, Failed(Io))
      case Got(data) =>
        if data == [] then (inner', part, Failed(Closed))
        else PollFrom(f, part + data, inner')
  }

  /** The value of a transport: the bytes of the current frame it holds, all
      bytes it ever read, and its stream. */
  datatype Conn = Conn(format: Format, part: seq<byte>, consumed: seq<byte>, inner: Stream)

  /** The bytes read are accounted for: whole frames, then the current part. */
  ghost predicate ConnOk(c: Conn) {
    ParseAll(c.format, c.consumed).rest == c.part
  }

  function NewConn(f: Format, inner: Stream): Conn {
    Conn(f, [], [], inner)
  }

  /** Everything reported so far. */
  ghost function Delivered(c: Conn): seq<Event> {
    ParseAll(c.format, c.consumed).events
  }

  function Taken(before: Stream, after: Stream): seq<byte> {
    before.input[..if |after.input| <= |before.input| then |before.input| - |after.input| else 0]
  }

  function Poll(c: Conn): (Conn, Outcome) {
    var (inner, part, o) := PollFrom(c.format, c.part, c.inner);
    (Conn(c.format, part, c.consumed + Taken(c.inner, inner), inner), o)
  }

  /** Asking for `Want` bytes at most never reads past the end of a frame. */
  lemma {:induction false} NeverOverreads(f: Format, part: seq<byte>, data: seq<byte>)
    requires ParseOne(f, part).More? && |data| <= Want(f, part)
    ensures ParseOne(f, part + data).Frame? ==> ParseOne(f, part + data).size == |part + data|
  {
    var h := HeaderLen(f);
    if |part| >= h {
      assert (part + data)[h - 8..h] == part[h - 8..h];
    }
  }

  /** A poll result accounts for the bytes it took: put behind `part`, they
      parse to the events it reports and the part it keeps. */
  ghost predicate Accounts(f: Format, part: seq<byte>, before: Stream, r: (Stream, seq<byte>, Outcome)) {
    && |r.0.input| <= |before.input|
    && before.input == Taken(before, r.0) + r.0.input
    && ParseAll(f, part + Taken(before, r.0)) == Parsed(EventsOf(r.2), r.1)
    && r.0.output == before.output && r.0.writePlan == before.writePlan
  }

  lemma {:induction false} PollFromParses(f: Format, part: seq<byte>, inner: Stream)
    requires ParseOne(f, part).Frame? ==> ParseOne(f, part).size == |part|
    ensures Accounts(f, part, inner, PollFrom(f, part, inner))
    decreases |inner.readPlan|
  {
    if ParseOne(f, part).Frame? {
      ParseComplete(f, part);
      AccountsForNothing(f, part, inner, PollFrom(f, part, inner));
    } else {
      var (inner1, got) := StreamRead(inner, Want(f, part));
      if got.Got? && got.data != [] {
        NeverOverreads(f, part, got.data);
        PollFromParses(f, part + got.data, inner1);
        AccountsForChunk(f, part, inner, got.data, inner1, PollFrom(f, part + got.data, inner1));
      } else {
        assert ParseAll(f, part) == Parsed([], part);
        AccountsForNothing(f, part, inner, PollFrom(f, part, inner));
      }
    }
  }

  lemma {:induction false} AccountsForNothing(f: Format, part: seq<byte>, before: Stream, r: (Stream, seq<byte>,
                                              Outcome))
    requires r.0.input == before.input && r.0.output == before.output && r.0.writePlan == before.writePlan
    requires ParseAll(f, part) == Parsed(EventsOf(r.2), r.1)
    ensures Accounts(f, part, before, r)
  {
    assert part + Taken(before, r.0) == part;
  }

  lemma {:induction false} AccountsForChunk(f: Format, part: seq<byte>, before: Stream, data: seq<byte>, mid: Stream,
                         r: (Stream, seq<byte>, Outcome))
    requires before.input == data + mid.input
    requires mid.output == before.output && mid.writePlan == before.writePlan
    requires Accounts(f, part + data, mid, r)
    ensures Accounts(f, part, before, r)
  {
    assert Taken(before, r.0) == data + Taken(mid, r.0);
    assert part + (data + Taken(mid, r.0)) == part + data + Taken(mid, r.0);
  }

  /** `c'` is `c` after some reads that reported `events`: nothing read is lost,
      nothing is reported twice, and the sending side is untouched. */
  ghost predicate Advanced(c: Conn, c': Conn, events: seq<Event>) {
    && ConnOk(c') && c'.format == c.format
    && c.consumed <= c'.consumed
    && c'.consumed + c'.inner.input == c.consumed + c.inner.input
    && Delivered(c') == Delivered(c) + events
    && c'.inner.output == c.inner.output && c'.inner.writePlan == c.inner.writePlan
  }

  lemma {:induction false} AdvancedTwice(c: Conn, c1: Conn, c2: Conn, a: seq<Event>, b: seq<Event>)
    requires Advanced(c, c1, a) && Advanced(c1, c2, b)
    ensures Advanced(c, c2, a + b)
  {
    assert Delivered(c) + a + b == Delivered(c) + (a + b);
  }

  /** The heart of `recv`: whatever the chunks and suspensions, a poll moves some
      bytes from the stream to the bytes read, and reports exactly the frame
      events those bytes add to the plain parse.  At most one, and nothing is
      held back: after a message or a framing error no byte of a next frame has
      been taken. */
  lemma {:induction false} PollParses(c: Conn)
    requires ConnOk(c)
    ensures Advanced(c, Poll(c).0, EventsOf(Poll(c).1))
    ensures EventsOf(Poll(c).1) != [] ==> Poll(c).0.part == []
  {
    ParseRest(c.format, c.consumed);
    PollFromParses(c.format, c.part, c.inner);
    EventLeavesNothing(c.format, c.part, c.inner);
    AccountsAdvance(c, PollFrom(c.format, c.part, c.inner));
  }

  lemma {:induction false} AccountsAdvance(c: Conn, r: (Stream, seq<byte>, Outcome))
    requires ConnOk(c) && Accounts(c.format, c.part, c.inner, r)
    ensures Advanced(c, Conn(c.format, r.1, c.consumed + Taken(c.inner, r.0), r.0), EventsOf(r.2))
  {
    hide ParseAll, Taken;
    ParseAppend(c.format, c.consumed, Taken(c.inner, r.0));
  }

  lemma {:induction false} EventLeavesNothing(f: Format, part: seq<byte>, inner: Stream)
    requires ParseOne(f, part).Frame? ==> ParseOne(f, part).size == |part|
    ensures var (inner', part', o) := PollFrom(f, part, inner);
            EventsOf(o) != [] ==> part' == []
    decreases |inner.readPlan|
  {
    if ParseOne(f, part).More? {
      var (inner1, got) := StreamRead(inner, Want(f, part));
      if got.Got? && got.data != [] {
        NeverOverreads(f, part, got.data);
        EventLeavesNothing(f, part + got.data, inner1);
      }
    }
  }

  /** A poll in progress: where it started and what it has to come to. */
  datatype Task = Task(format: Format, consumed: seq<byte>, inner: Stream, goal: (Stream, seq<byte>, Outcome))

  ghost function TaskOf(c: Conn): Task {
    Task(c.format, c.consumed, c.inner, PollFrom(c.format, c.part, c.inner))
  }

  /** The poll got as far as `part`, with `inner` as its stream: what is left to
      do comes to what the whole poll has to come to. */
  ghost predicate OnTrack(t: Task, part: seq<byte>, consumed: seq<byte>, inner: Stream) {
    && PollFrom(t.format, part, inner) == t.goal
    && |inner.input| <= |t.inner.input|
    && consumed == t.consumed + Taken(t.inner, inner)
    && t.inner.input == Taken(t.inner, inner) + inner.input
  }

  ghost predicate Finishes(t: Task, c: Conn, o: Outcome) {
    && t.goal == (c.inner, c.part, o)
    && c.format == t.format && c.consumed == t.consumed + Taken(t.inner, c.inner)
  }

  lemma {:induction false} TaskIsPoll(c: Conn, c': Conn, o: Outcome)
    requires Finishes(TaskOf(c), c', o)
    ensures (c', o) == Poll(c)
  {
  }

  lemma {:induction false} TaskStarts(c: Conn)
    ensures OnTrack(TaskOf(c), c.part, c.consumed, c.inner)
  {
    assert Taken(c.inner, c.inner) == [];
  }

  lemma {:induction false} TakesMore(start: Stream, before: Stream, data: seq<byte>, after: Stream)
    requires |before.input| <= |start.input| && before.input == data + after.input
    requires start.input == Taken(start, before) + before.input
    ensures Taken(start, after) == Taken(start, before) + data
    ensures start.input == Taken(start, after) + after.input
  {
  }

  lemma {:induction false} PollGoesOn(f: Format, part: seq<byte>, inner: Stream)
    requires ParseOne(f, part).More?
    requires var (inner', got) := StreamRead(inner, Want(f, part)); got.Got? && got.data != []
    ensures var (inner', got) := StreamRead(inner, Want(f, part));
            PollFrom(f, part, inner) == PollFrom(f, part + got.data, inner')
  {
  }

  /** A read that brings bytes keeps the poll on track. */
  lemma {:induction false} ChunkKeepsTrack(t: Task, part: seq<byte>, consumed: seq<byte>, inner: Stream)
    requires OnTrack(t, part, consumed, inner) && ParseOne(t.format, part).More?
    requires var (inner', got) := StreamRead(inner, Want(t.format, part)); got.Got? && got.data != []
    ensures var (inner', got) := StreamRead(inner, Want(t.format, part));
            OnTrack(t, part + got.data, consumed + got.data, inner')
  {
    var (inner', got) := StreamRead(inner, Want(t.format, part));
    PollGoesOn(t.format, part, inner);
    TakesMore(t.inner, inner, got.data, inner');
  }

  /** A read that brings none finishes it. */
  lemma {:induction false} NoChunkFinishes(t: Task, part: seq<byte>, consumed: seq<byte>, inner: Stream)
    requires OnTrack(t, part, consumed, inner) && ParseOne(t.format, part).More?
    requires var (inner', got) := StreamRead(inner, Want(t.format, part)); !(got.Got? && got.data != [])
    ensures var (inner', got) := StreamRead(inner, Want(t.format, part));
            var o := if got.ReadPending? then Pending else if got.ReadFailed? then Failed(Io) else Failed(Closed);
            Finishes(t, Conn(t.format, part, consumed, inner'), o)
  {
    var (inner', got) := StreamRead(inner, Want(t.format, part));
    assert Taken(t.inner, inner') == Taken(t.inner, inner);
  }

  /** So does a complete frame. */
  lemma {:induction false} FrameFinishes(t: Task, part: seq<byte>, consumed: seq<byte>, inner: Stream)
    requires OnTrack(t, part, consumed, inner)
    requires ParseOne(t.format, part).Frame? && ParseOne(t.format, part).size == |part|
    ensures Finishes(t, Conn(t.format, [], consumed, inner), OutcomeOf(ParseOne(t.format, part).event))
  {
    assert part[|part|..] == [];
  }

  // ── Any number of polls ─────────────────────────────────────────────────

  /** `n` polls in a row, each resuming or replacing the one before. */
  function Polls(c: Conn, n: nat): (r: (Conn, seq<Outcome>))
    ensures |r.1| == n
    decreases n
  {
    if n == 0 then (c, [])
    else
      var (c1, o) := Poll(c);
      var (c2, os) := Polls(c1, n - 1);
      (c2, [o] + os)
  }

  ghost function AllEvents(os: seq<Outcome>): seq<Event> {
    if os == [] then [] else EventsOf(os[0]) + AllEvents(os[1..])
  }

  /** For every stream, every split into reads and every schedule of dropped and
      resumed receives: the events reported, in order, are those of the plain
      parse of the bytes read, and the part in hand is its tail. */
  lemma {:induction false} ChunkingDoesNotMatter(c: Conn, n: nat)
    requires ConnOk(c)
    ensures Advanced(c, Polls(c, n).0, AllEvents(Polls(c, n).1))
    decreases n
  {
    if n > 0 {
      PollParses(c);
      var (c1, o) := Poll(c);
      ChunkingDoesNotMatter(c1, n - 1);
      var (c2, os) := Polls(c1, n - 1);
      assert ([o] + os)[1..] == os;
      AdvancedTwice(c, c1, c2, EventsOf(o), AllEvents(os));
    }
  }

  lemma {:induction false} PollsLast(c: Conn, n: nat)
    ensures Polls(c, n + 1) == (Poll(Polls(c, n).0).0, Polls(c, n).1 + [Poll(Polls(c, n).0).1])
    decreases n
  {
    var (c1, o) := Poll(c);
    assert Polls(c, n + 1) == (Polls(c1, n).0, [o] + Polls(c1, n).1);
    if n > 0 {
      PollsLast(c1, n - 1);
      var (c2, os) := Polls(c1, n - 1);
      assert Polls(c, n) == (c2, [o] + os);
      assert [o] + (os + [Poll(c2).1]) == [o] + os + [Poll(c2).1];
    } else {
      assert Polls(c1, 0) == (c1, []) && Polls(c, 0) == (c, []);
      assert [o] + [] == [] + [o];
    }
  }

  /** End to end: a fresh receiver on a stream of frames within the limit
      reports a prefix of the payloads sent, in order, and nothing else. */
  lemma {:induction false} ReceivedIsPrefixOfSent(f: Format, payloads: seq<seq<byte>>, sent: seq<byte>, c: Conn, n: nat)
    requires Deliverable(payloads)
    requires c == NewConn(f, c.inner) && c.inner.input == sent
    requires sent <= Wire(f, payloads)
    ensures AllEvents(Polls(c, n).1) <= Payloads(payloads)
    ensures Polls(c, n).0.inner.input == [] && sent == Wire(f, payloads) ==>
              AllEvents(Polls(c, n).1) == Payloads(payloads) && Polls(c, n).0.part == []
  {
    ChunkingDoesNotMatter(c, n);
    AdvancedFromStart(f, payloads, sent, c, Polls(c, n).0, AllEvents(Polls(c, n).1));
  }

  lemma {:induction false} AdvancedFromStart(f: Format, payloads: seq<seq<byte>>, sent: seq<byte>,
                                             c: Conn, c': Conn, events: seq<Event>)
    requires Deliverable(payloads) && sent <= Wire(f, payloads)
    requires c == NewConn(f, c.inner) && c.inner.input == sent && Advanced(c, c', events)
    ensures events <= Payloads(payloads)
    ensures c'.inner.input == [] && sent == Wire(f, payloads) ==> events == Payloads(payloads) && c'.part == []
  {
    ReadFromStart(c, c', events);
    if c'.inner.input == [] {
      assert c'.consumed == sent;
    }
    WirePrefixParses(f, payloads, c'.consumed);
  }

  lemma {:induction false} ReadFromStart(c: Conn, c': Conn, events: seq<Event>)
    requires c == NewConn(c.format, c.inner) && Advanced(c, c', events)
    ensures ParseAll(c.format, c'.consumed) == Parsed(events, c'.part)
    ensures c'.consumed + c'.inner.input == c.inner.input
  {
    assert ParseAll(c.format, []) == Parsed([], []);
    assert [] + events == events && [] + c.inner.input == c.inner.input;
  }

  lemma {:induction false} WirePrefixParses(f: Format, payloads: seq<seq<byte>>, s: seq<byte>)
    requires Deliverable(payloads) && s <= Wire(f, payloads)
    ensures ParseAll(f, s).events <= Payloads(payloads)
    ensures s == Wire(f, payloads) ==> ParseAll(f, s) == Parsed(Payloads(payloads), [])
  {
    WireParses(f, payloads);
    ParsePrefix(f, s, Wire(f, payloads));
  }

  /** Mismatched framing, at the receiver: over any polls, an IPC receiver on a
      TCP-framed stream reports nothing before it has read nine bytes, and then
      first of all a bad type byte 0. */
  lemma {:induction false} IpcReceiverRejectsTcpStream(c: Conn, payloads: seq<seq<byte>>, n: nat)
    requires payloads != [] && |payloads[0]| < Pow256(7)
    requires c == NewConn(Ipc, c.inner) && c.inner.input <= Wire(Tcp, payloads)
    ensures var (c', os) := Polls(c, n);
            if |c'.consumed| >= 9 then AllEvents(os) != [] && AllEvents(os)[0] == Rejected(BadFrameType(0))
            else AllEvents(os) == []
  {
    hide Polls, AllEvents, Wire;
    ReadInOrder(c, n);
    var c' := Polls(c, n).0;
    if |c'.consumed| >= 9 {
      IpcReceiverOnTcpStream(payloads, c'.consumed);
    }
  }

  /** The other way round: nothing before eight bytes, and then first of all a frame
      too large, of at least 2^56 bytes. */
  lemma {:induction false} TcpReceiverRejectsIpcStream(c: Conn, payloads: seq<seq<byte>>, n: nat)
    requires payloads != []
    requires c == NewConn(Tcp, c.inner) && c.inner.input <= Wire(Ipc, payloads)
    ensures var (c', os) := Polls(c, n);
            if |c'.consumed| >= 8
            then Declared(Tcp, c'.consumed) >= Pow256(7) && AllEvents(os) != []
                 && AllEvents(os)[0] == Rejected(FrameTooLarge(Declared(Tcp, c'.consumed)))
            else AllEvents(os) == []
  {
    hide Polls, AllEvents, Wire;
    ReadInOrder(c, n);
    var c' := Polls(c, n).0;
    if |c'.consumed| >= 8 {
      TcpReceiverOnIpcStream(payloads, c'.consumed);
    }
  }

  lemma {:induction false} ReadInOrder(c: Conn, n: nat)
    requires c == NewConn(c.format, c.inner)
    ensures var (c', os) := Polls(c, n);
            && c'.consumed <= c.inner.input
            && ParseAll(c.format, c'.consumed) == Parsed(AllEvents(os), c'.part)
  {
    ChunkingDoesNotMatter(c, n);
    ReadFromStart(c, Polls(c, n).0, AllEvents(Polls(c, n).1));
  }

  // ── Progress ────────────────────────────────────────────────────────────

  /** The schedule brings the rest of a frame within `polls` polls: `head` bytes of its
      header and then `body` bytes of its body, each read as many as it hands out,
      with no end or fault before the last of them. */
  predicate Arrives(plan: seq<ReadEvent>, head: nat, body: nat, polls: nat)
    decreases |plan|
  {
    polls > 0 &&
    (head + body == 0 ||
      (plan != [] &&
        match plan[0]
        case NotReady => Arrives(plan[1..], head, body, polls - 1)
        case Chunk(most) =>
          if head > 0 then Arrives(plan[1..], head - Clamp(most, head), body, polls)
          else Arrives(plan[1..], 0, body - Clamp(most, body), polls)
        case _ => false))
  }

  function HeadLeft(f: Format, part: seq<byte>): nat {
    if |part| < HeaderLen(f) then HeaderLen(f) - |part| else 0
  }

  function BodyLeft(f: Format, part: seq<byte>, payload: seq<byte>): nat {
    if |part| <= HeaderLen(f) then |payload|
    else if |part| - HeaderLen(f) <= |payload| then |payload| - (|part| - HeaderLen(f)) else 0
  }

  /** The receiver has `part` of the frame of `payload`; the rest is on the stream. */
  ghost predicate MidFrame(f: Format, part: seq<byte>, inner: Stream, payload: seq<byte>, rest: seq<byte>) {
    && |payload| <= MAX_FRAME_BYTES && |part| <= |FrameBytes(f, payload)|
    && part + inner.input == FrameBytes(f, payload) + rest
  }

  lemma {:induction false} PartOfFrame(f: Format, part: seq<byte>, inner: Stream, payload: seq<byte>, rest: seq<byte>)
    requires MidFrame(f, part, inner, payload, rest)
    ensures |part| < |FrameBytes(f, payload)| ==> ParseOne(f, part).More? && inner.input != []
    ensures |part| == |FrameBytes(f, payload)| ==> ParseOne(f, part) == Frame(Payload(payload), |part|)
  {
    var frame := FrameBytes(f, payload);
    FrameParses(f, payload, rest);
    FrameParses(f, payload, []);
    assert frame + [] == frame;
    if |part| == |frame| {
      assert part == (part + inner.input)[..|frame|] == frame;
    } else if ParseOne(f, part).Frame? {
      ParseOneStable(f, part, inner.input);
    }
  }

  lemma {:induction false} WantedOfFrame(f: Format, part: seq<byte>, inner: Stream, payload: seq<byte>, rest: seq<byte>)
    requires MidFrame(f, part, inner, payload, rest) && |part| < |FrameBytes(f, payload)|
    requires ParseOne(f, part).More?
    ensures Want(f, part) == if HeadLeft(f, part) > 0 then HeadLeft(f, part) else BodyLeft(f, part, payload)
    ensures Want(f, part) <= |FrameBytes(f, payload)| - |part| <= |inner.input|
  {
    var h := HeaderLen(f);
    if |part| >= h {
      assert part[h - 8..h] == (part + inner.input)[h - 8..h] == (FrameBytes(f, payload) + rest)[h - 8..h]
          == BeBytes(|payload|, 8);
      FieldSizes();
      BeValueOfBytes(|payload|, 8);
    }
  }

  lemma {:induction false} ReadMoreOfFrame(f: Format, part: seq<byte>, inner: Stream, payload: seq<byte>,
                                           rest: seq<byte>)
    requires MidFrame(f, part, inner, payload, rest) && |part| < |FrameBytes(f, payload)|
    requires ParseOne(f, part).More? && inner.readPlan != [] && inner.readPlan[0].Chunk?
    ensures var (inner', got) := StreamRead(inner, Want(f, part));
            && got.Got? && got.data != [] && inner'.readPlan == inner.readPlan[1..]
            && |got.data| == Clamp(inner.readPlan[0].most, Want(f, part))
            && MidFrame(f, part + got.data, inner', payload, rest)
  {
    WantedOfFrame(f, part, inner, payload, rest);
    var (inner', got) := StreamRead(inner, Want(f, part));
    assert part + got.data + inner'.input == part + inner.input;
  }

  lemma {:induction false} LeftAfter(f: Format, part: seq<byte>, data: seq<byte>, payload: seq<byte>)
    requires |part| + |data| <= |FrameBytes(f, payload)|
    requires |data| <= if HeadLeft(f, part) > 0 then HeadLeft(f, part) else BodyLeft(f, part, payload)
    ensures HeadLeft(f, part + data) == HeadLeft(f, part) - if HeadLeft(f, part) > 0 then |data| else 0
    ensures BodyLeft(f, part + data, payload) == BodyLeft(f, part, payload) - if HeadLeft(f, part) > 0 then 0 else |data|
  {
  }

  /** Whether the rest of the frame of `payload` arrives in time. */
  predicate ArrivesOn(f: Format, part: seq<byte>, inner: Stream, payload: seq<byte>, polls: nat) {
    Arrives(inner.readPlan, HeadLeft(f, part), BodyLeft(f, part, payload), polls)
  }

  /** A poll delivers the frame, and then it was to arrive in time; or fails, and
      then it was not; or uses up one of the polls and leaves the question as it
      was. */
  ghost predicate PollDecides(f: Format, part: seq<byte>, inner: Stream, payload: seq<byte>, rest: seq<byte>,
                              polls: nat, r: (Stream, seq<byte>, Outcome))
  {
    match r.2
    case Received(m) => m == Msg([], payload) && ArrivesOn(f, part, inner, payload, polls)
    case Failed(_) => !ArrivesOn(f, part, inner, payload, polls)
    case Pending =>
      && polls > 0 && MidFrame(f, r.1, r.0, payload, rest)
      && (ArrivesOn(f, part, inner, payload, polls) <==> ArrivesOn(f, r.1, r.0, payload, polls - 1))
  }

  lemma {:induction false} ReadyFrameComes(f: Format, part: seq<byte>, inner: Stream, payload: seq<byte>,
                                           rest: seq<byte>, polls: nat)
    requires MidFrame(f, part, inner, payload, rest) && polls > 0
    ensures PollDecides(f, part, inner, payload, rest, polls, PollFrom(f, part, inner))
    decreases |inner.readPlan|
  {
    PartOfFrame(f, part, inner, payload, rest);
    if |part| == |FrameBytes(f, payload)| {
      FrameIsThere(f, part, inner, payload, rest, polls);
    } else if inner.readPlan != [] && inner.readPlan[0].Chunk? {
      ReadMoreOfFrame(f, part, inner, payload, rest);
      var (inner', got) := StreamRead(inner, Want(f, part));
      ReadyFrameComes(f, part + got.data, inner', payload, rest, polls);
      PollGoesOn(f, part, inner);
      ChunkLeavesIt(f, part, inner, payload, rest, polls);
    } else {
      NothingRead(f, part, inner, payload, rest, polls);
    }
  }

  lemma {:induction false} FrameIsThere(f: Format, part: seq<byte>, inner: Stream, payload: seq<byte>,
                                        rest: seq<byte>, polls: nat)
    requires MidFrame(f, part, inner, payload, rest) && polls > 0
    requires |part| == |FrameBytes(f, payload)|
    ensures PollDecides(f, part, inner, payload, rest, polls, PollFrom(f, part, inner))
  {
    PartOfFrame(f, part, inner, payload, rest);
  }

  lemma {:induction false} NothingRead(f: Format, part: seq<byte>, inner: Stream, payload: seq<byte>,
                                       rest: seq<byte>, polls: nat)
    requires MidFrame(f, part, inner, payload, rest) && polls > 0
    requires |part| < |FrameBytes(f, payload)| && (inner.readPlan == [] || !inner.readPlan[0].Chunk?)
    ensures PollDecides(f, part, inner, payload, rest, polls, PollFrom(f, part, inner))
  {
    PartOfFrame(f, part, inner, payload, rest);
  }

  lemma {:induction false} ChunkLeavesIt(f: Format, part: seq<byte>, inner: Stream, payload: seq<byte>,
                                         rest: seq<byte>, polls: nat)
    requires MidFrame(f, part, inner, payload, rest) && polls > 0
    requires |part| < |FrameBytes(f, payload)| && ParseOne(f, part).More?
    requires inner.readPlan != [] && inner.readPlan[0].Chunk?
    ensures var (inner', got) := StreamRead(inner, Want(f, part));
            && got.Got?
            && (ArrivesOn(f, part, inner, payload, polls) <==> ArrivesOn(f, part + got.data, inner', payload, polls))
  {
    WantedOfFrame(f, part, inner, payload, rest);
    ReadMoreOfFrame(f, part, inner, payload, rest);
    var (inner', got) := StreamRead(inner, Want(f, part));
    LeftAfter(f, part, got.data, payload);
  }

  // ── Why a poll stops ────────────────────────────────────────────────────

  /** The last entry of the schedule a poll used, if it used any. */
  function LastUsed(before: Stream, after: Stream): Option<ReadEvent>
    requires |after.readPlan| <= |before.readPlan|
  {
    var k := |before.readPlan| - |after.readPlan|;
    if k == 0 then None else Some(before.readPlan[k - 1])
  }

  /** A poll that reports no frame: it is Closed exactly at the end of the stream, Io
      exactly at a fault, and pending otherwise; and it has not gone on past either. */
  ghost predicate StoppedBy(before: Stream, after: Stream, o: Outcome) {
    && |after.readPlan| <= |before.readPlan|
    && after.readPlan == before.readPlan[|before.readPlan| - |after.readPlan|..]
    && (forall k :: 0 <= k < |before.readPlan| - |after.readPlan| - 1 ==> before.readPlan[k].Chunk?)
    && (EventsOf(o) == [] ==>
          && (o == Failed(Closed) <==> LastUsed(before, after) == Some(EndOfStream))
          && (o == Failed(Io) <==> LastUsed(before, after) == Some(ReadFault))
          && (o.Pending? || o.Failed?))
    && (EventsOf(o) != [] ==> LastUsed(before, after).None? || LastUsed(before, after).value.Chunk?)
  }

  lemma {:induction false} PollStops(f: Format, part: seq<byte>, inner: Stream)
    ensures StoppedBy(inner, PollFrom(f, part, inner).0, PollFrom(f, part, inner).2)
    decreases |inner.readPlan|
  {
    if ParseOne(f, part).More? {
      var (inner1, got) := StreamRead(inner, Want(f, part));
      if got.Got? && got.data != [] {
        PollStops(f, part + got.data, inner1);
        ChunkThenStops(inner, inner1, PollFrom(f, part + got.data, inner1).0, PollFrom(f, part + got.data, inner1).2);
        PollGoesOn(f, part, inner);
      }
    }
  }

  lemma {:induction false} ChunkThenStops(before: Stream, mid: Stream, after: Stream, o: Outcome)
    requires before.readPlan != [] && before.readPlan[0].Chunk? && mid.readPlan == before.readPlan[1..]
    requires StoppedBy(mid, after, o)
    ensures StoppedBy(before, after, o)
  {
  }

  // ── Sending ─────────────────────────────────────────────────────────────

  /** `write_all`: repeat until all of `buf` is written; None on success. */
  function WriteAllSpec(s: Stream, buf: seq<byte>): (r: (Stream, Option<TransportError>))
    decreases |buf|
  {
    if buf == [] then (s, None)
    else
      var (s', w) := StreamWrite(s, buf);
      match w
      case WriteFailed => (s', Some(Io))
      case Wrote(n) => if n == 0 then (s', Some(Closed)) else WriteAllSpec(s', buf[n..])
  }

  function Then(r: (Stream, Option<TransportError>), buf: seq<byte>): (Stream, Option<TransportError>) {
    if r.1.Some? then r else WriteAllSpec(r.0, buf)
  }

  /** `send`: type byte, length, header, body, each by its own `write_all`. */
  function SendSpec(f: Format, s: Stream, m: Msg): (Stream, Option<TransportError>) {
    Then(Then(Then(WriteAllSpec(s, if f.Ipc? then [1] else []), BeBytes(|m.header| + |m.body|, 8)), m.header), m.body)
  }

  function SendOn(c: Conn, m: Msg): (Conn, Option<TransportError>) {
    var (inner, e) := SendSpec(c.format, c.inner, m);
    (c.(inner := inner), e)
  }

  /** The bytes `written` are all of `buf`, or a proper prefix on an error. */
  ghost predicate WroteInFull(before: Stream, r: (Stream, Option<TransportError>), buf: seq<byte>) {
    && r.0.input == before.input && r.0.readPlan == before.readPlan
    && (r.1.None? ==> r.0.output == before.output + buf)
    && (r.1.Some? ==> exists k :: 0 <= k < |buf| && r.0.output == before.output + buf[..k])
  }

  lemma {:induction false} WriteAllLaw(s: Stream, buf: seq<byte>)
    ensures WroteInFull(s, WriteAllSpec(s, buf), buf)
    decreases |buf|
  {
    if buf == [] {
      assert s.output + buf == s.output;
    } else {
      var (s', w) := StreamWrite(s, buf);
      if w.Wrote? && w.count > 0 {
        WriteAllLaw(s', buf[w.count..]);
        WriteCompose(s, s', WriteAllSpec(s', buf[w.count..]), buf[..w.count], buf[w.count..]);
        assert buf == buf[..w.count] + buf[w.count..];
      } else {
        assert s'.output == s.output + buf[..0];
      }
    }
  }

  lemma {:induction false} WriteCompose(s: Stream, mid: Stream, r: (Stream, Option<TransportError>), a: seq<byte>,
                                        b: seq<byte>)
    requires WroteInFull(s, (mid, None), a) && WroteInFull(mid, r, b)
    ensures WroteInFull(s, r, a + b)
  {
    if r.1.Some? {
      var k :| 0 <= k < |b| && r.0.output == mid.output + b[..k];
      assert (a + b)[..|a| + k] == a + b[..k];
      assert r.0.output == s.output + (a + b)[..|a| + k];
    } else {
      assert r.0.output == s.output + (a + b);
    }
  }

  lemma {:induction false} WriteBreaksOff(s: Stream, r: (Stream, Option<TransportError>), a: seq<byte>, b: seq<byte>)
    requires WroteInFull(s, r, a) && r.1.Some?
    ensures WroteInFull(s, r, a + b)
  {
    var k :| 0 <= k < |a| && r.0.output == s.output + a[..k];
    assert (a + b)[..k] == a[..k];
  }

  lemma {:induction false} ThenLaw(s: Stream, r: (Stream, Option<TransportError>), a: seq<byte>, b: seq<byte>)
    requires WroteInFull(s, r, a)
    ensures WroteInFull(s, Then(r, b), a + b)
  {
    if r.1.None? {
      WriteAllLaw(r.0, b);
      WriteCompose(s, r.0, WriteAllSpec(r.0, b), a, b);
    } else {
      WriteBreaksOff(s, r, a, b);
    }
  }

  /** A send that succeeds has written exactly one frame, whatever the sizes of
      the partial writes; one that fails has written a proper prefix of it. */
  lemma {:induction false} SendWritesOneFrame(c: Conn, m: Msg)
    ensures var (c', e) := SendOn(c, m);
            && WroteInFull(c.inner, (c'.inner, e), FrameBytes(c.format, PayloadOf(m)))
            && c' == c.(inner := c'.inner)
  {
    var kind := if c.format.Ipc? then [1 as byte] else [];
    var length := BeBytes(|m.header| + |m.body|, 8);
    WriteAllLaw(c.inner, kind);
    var r1 := WriteAllSpec(c.inner, kind);
    ThenLaw(c.inner, r1, kind, length);
    ThenLaw(c.inner, Then(r1, length), kind + length, m.header);
    ThenLaw(c.inner, Then(Then(r1, length), m.header), kind + length + m.header, m.body);
    assert kind + length + m.header + m.body == FrameBytes(c.format, PayloadOf(m));
  }

  // ── When a send succeeds ────────────────────────────────────────────────

  /** How a run of writes ends, by the schedule alone: everything is taken, and so
      much of the schedule is left; or an entry stops it after `done` bytes. */
  datatype WriteEnd = Through(plan: seq<WriteEvent>, done: nat) | Stopped(cause: WriteEvent, done: nat)

  /** `left` more bytes, after `done`: each write takes as many as it accepts. */
  function WritesOf(plan: seq<WriteEvent>, left: nat, done: nat): (end: WriteEnd)
    ensures end.Stopped? ==> end.cause == Refuse || end.cause == WriteFault
    decreases |plan|
  {
    if left == 0 then Through(plan, done)
    else if plan == [] then Through([], done + left)
    else
      match plan[0]
      case Accept(most) => WritesOf(plan[1..], left - Clamp(most, left), done + Clamp(most, left))
      case e => Stopped(e, done)
  }

  /** Buffer after buffer. */
  function BuffersOf(plan: seq<WriteEvent>, sizes: seq<nat>, done: nat): (end: WriteEnd)
    ensures end.Stopped? ==> end.cause == Refuse || end.cause == WriteFault
    decreases |sizes|
  {
    if sizes == [] then Through(plan, done)
    else
      var end := WritesOf(plan, sizes[0], done);
      if end.Stopped? then end else BuffersOf(end.plan, sizes[1..], end.done)
  }

  /** Type byte, length, header and body of one frame. */
  function FrameSizes(f: Format, m: Msg): seq<nat> {
    [if f.Ipc? then 1 else 0, 8, |m.header|, |m.body|]
  }

  function SendEnd(c: Conn, m: Msg): WriteEnd {
    BuffersOf(c.inner.writePlan, FrameSizes(c.format, m), 0)
  }

  /** The writes ended like that: so many bytes of `frame` are out, and the error, if
      any, is that of the entry that stopped them. */
  ghost predicate EndedAs(start: Stream, frame: seq<byte>, r: (Stream, Option<TransportError>), end: WriteEnd) {
    && end.done <= |frame| && r.0.output == start.output + frame[..end.done]
    && match end
       case Through(plan, _) => r.1.None? && r.0.writePlan == plan
       case Stopped(cause, _) => r.1 == Some(if cause.Refuse? then Closed else Io)
  }

  lemma {:induction false} WriteAllEnds(start: Stream, frame: seq<byte>, s: Stream, buf: seq<byte>, done: nat)
    requires done + |buf| <= |frame| && frame[done..done + |buf|] == buf
    requires s.output == start.output + frame[..done]
    ensures var end := WritesOf(s.writePlan, |buf|, done);
            && EndedAs(start, frame, WriteAllSpec(s, buf), end)
            && (end.Through? ==> end.done == done + |buf|) && (end.Stopped? ==> end.done < done + |buf|)
    decreases |buf|
  {
    if buf != [] {
      var (s', w) := StreamWrite(s, buf);
      if w.Wrote? && w.count > 0 {
        assert frame[..done + w.count] == frame[..done] + buf[..w.count];
        assert frame[done + w.count..done + |buf|] == buf[w.count..];
        WriteAllEnds(start, frame, s', buf[w.count..], done + w.count);
        if s.writePlan == [] {
          assert buf[w.count..] == [];
        }
      } else {
        assert buf[..0] == [] && s'.output == s.output;
      }
    }
  }

  /** One buffer after others: an earlier error stands. */
  lemma {:induction false} ThenEnds(start: Stream, frame: seq<byte>, r: (Stream, Option<TransportError>), end: WriteEnd,
                                    buf: seq<byte>, done: nat)
    requires EndedAs(start, frame, r, end) && (end.Through? ==> end.done == done)
    requires done + |buf| <= |frame| && frame[done..done + |buf|] == buf
    ensures var next := if end.Stopped? then end else WritesOf(end.plan, |buf|, done);
            && EndedAs(start, frame, Then(r, buf), next)
            && (next.Through? ==> next.done == done + |buf|) && (next.Stopped? && end.Through? ==> next.done < done + |buf|)
  {
    if end.Through? {
      WriteAllEnds(start, frame, r.0, buf, done);
    }
  }

  /** For every stream and message, what a send comes to is decided by the write
      schedule: it succeeds exactly when the schedule takes the frame, whatever the
      sizes of the writes; otherwise it ends with Closed at a refused write and
      with Io at a failed one, and exactly the bytes taken before are out. */
  lemma {:induction false} SendIsDecided(c: Conn, m: Msg)
    ensures SendOn(c, m).1.None? <==> SendEnd(c, m).Through?
    ensures SendOn(c, m).1 == Some(Closed) <==> SendEnd(c, m).Stopped? && SendEnd(c, m).cause.Refuse?
    ensures SendOn(c, m).1 == Some(Io) <==> SendEnd(c, m).Stopped? && SendEnd(c, m).cause.WriteFault?
    ensures var frame := FrameBytes(c.format, PayloadOf(m));
            && EndedAs(c.inner, frame, (SendOn(c, m).0.inner, SendOn(c, m).1), SendEnd(c, m))
            && (SendEnd(c, m).Through? <==> SendEnd(c, m).done == |frame|)
  {
    hide WritesOf, BuffersOf, SendSpec, FrameBytes;
    FrameIsFourBuffers(c.format, m);
    assert c.inner.output + [] == c.inner.output;
    FourWritesEnd(c.format, c.inner, m, FrameBytes(c.format, PayloadOf(m)));
  }

  /** `frame` is the four buffers `send` writes, one behind the other. */
  ghost predicate FourBuffersOf(f: Format, m: Msg, frame: seq<byte>) {
    var kind, length := if f.Ipc? then [1 as byte] else [], BeBytes(|m.header| + |m.body|, 8);
    var k := |kind|;
    && |frame| == k + 8 + |m.header| + |m.body|
    && frame[..0] == [] && frame[0..k] == kind && frame[k..k + 8] == length
    && frame[k + 8..k + 8 + |m.header|] == m.header
    && frame[k + 8 + |m.header|..k + 8 + |m.header| + |m.body|] == m.body
  }

  lemma {:induction false} FrameIsFourBuffers(f: Format, m: Msg)
    ensures FourBuffersOf(f, m, FrameBytes(f, PayloadOf(m)))
  {
    var kind, length := if f.Ipc? then [1 as byte] else [], BeBytes(|m.header| + |m.body|, 8);
    assert FrameBytes(f, PayloadOf(m)) == kind + length + m.header + m.body;
  }

  lemma {:induction false} FourWritesEnd(f: Format, s: Stream, m: Msg, frame: seq<byte>)
    requires FourBuffersOf(f, m, frame) && s.output == s.output + frame[..0]
    ensures var end := BuffersOf(s.writePlan, FrameSizes(f, m), 0);
            EndedAs(s, frame, SendSpec(f, s, m), end) && (end.Through? <==> end.done == |frame|)
  {
    hide WritesOf, WriteAllSpec, BuffersOf, EndedAs, Then;
    var kind, length := if f.Ipc? then [1 as byte] else [], BeBytes(|m.header| + |m.body|, 8);
    var k, l := |kind|, |kind| + 8;
    WriteAllEnds(s, frame, s, kind, 0);
    var r1, e1 := WriteAllSpec(s, kind), WritesOf(s.writePlan, k, 0);
    ThenEnds(s, frame, r1, e1, length, k);
    var r2, e2 := Then(r1, length), if e1.Stopped? then e1 else WritesOf(e1.plan, 8, k);
    ThenEnds(s, frame, r2, e2, m.header, l);
    var r3, e3 := Then(r2, m.header), if e2.Stopped? then e2 else WritesOf(e2.plan, |m.header|, l);
    ThenEnds(s, frame, r3, e3, m.body, l + |m.header|);
    FourBuffers(s.writePlan, k, 8, |m.header|, |m.body|, e1, e2, e3);
  }

  lemma {:induction false} FourBuffers(plan: seq<WriteEvent>, a: nat, b: nat, c: nat, d: nat,
                                       e1: WriteEnd, e2: WriteEnd, e3: WriteEnd)
    requires e1 == WritesOf(plan, a, 0)
    requires e2 == if e1.Stopped? then e1 else WritesOf(e1.plan, b, e1.done)
    requires e3 == if e2.Stopped? then e2 else WritesOf(e2.plan, c, e2.done)
    ensures BuffersOf(plan, [a, b, c, d], 0) == if e3.Stopped? then e3 else WritesOf(e3.plan, d, e3.done)
  {
    hide WritesOf;
    assert [a, b, c, d][1..] == [b, c, d] && [b, c, d][1..] == [c, d] && [c, d][1..] == [d] && [d][1..] == [];
    if e1.Through? {
      assert BuffersOf(plan, [a, b, c, d], 0) == BuffersOf(e1.plan, [b, c, d], e1.done);
      if e2.Through? {
        assert BuffersOf(e1.plan, [b, c, d], e1.done) == BuffersOf(e2.plan, [c, d], e2.done);
        if e3.Through? {
          assert BuffersOf(e2.plan, [c, d], e2.done) == BuffersOf(e3.plan, [d], e3.done);
          LastBuffer(e3.plan, d, e3.done);
        }
      }
    }
  }

  lemma {:induction false} LastBuffer(plan: seq<WriteEvent>, size: nat, done: nat)
    ensures BuffersOf(plan, [size], done) == WritesOf(plan, size, done)
  {
    assert [size][1..] == [];
  }

  /** A stream that always takes something takes every message. */
  lemma {:induction false} AcceptingStreamSends(c: Conn, m: Msg)
    requires forall e :: e in c.inner.writePlan ==> e.Accept?
    ensures SendOn(c, m).1.None?
  {
    SendIsDecided(c, m);
    AcceptingTakesAll(c.inner.writePlan, FrameSizes(c.format, m), 0);
  }

  lemma {:induction false} AcceptingTakesAll(plan: seq<WriteEvent>, sizes: seq<nat>, done: nat)
    requires forall e :: e in plan ==> e.Accept?
    ensures BuffersOf(plan, sizes, done).Through?
    decreases |sizes|
  {
    if sizes != [] {
      AcceptingTakesOne(plan, sizes[0], done);
      AcceptingTakesAll(WritesOf(plan, sizes[0], done).plan, sizes[1..], WritesOf(plan, sizes[0], done).done);
    }
  }

  lemma {:induction false} AcceptingTakesOne(plan: seq<WriteEvent>, left: nat, done: nat)
    requires forall e :: e in plan ==> e.Accept?
    ensures var end := WritesOf(plan, left, done);
            end.Through? && forall e :: e in end.plan ==> e.Accept?
    decreases |plan|
  {
    if left > 0 && plan != [] {
      var n := Clamp(plan[0].most, left);
      AcceptingTakesOne(plan[1..], left - n, done + n);
    }
  }

  /** Sends one message after another, until one fails. */
  function SendEach(c: Conn, ms: seq<Msg>): (Conn, Option<TransportError>)
    decreases |ms|
  {
    if ms == [] then (c, None)
    else
      var (c', e) := SendOn(c, ms[0]);
      if e.Some? then (c', e) else SendEach(c', ms[1..])
  }

  function PayloadsOf(ms: seq<Msg>): (ps: seq<seq<byte>>)
    ensures |ps| == |ms|
    ensures forall i :: 0 <= i < |ms| ==> ps[i] == PayloadOf(ms[i])
  {
    seq(|ms|, i requires 0 <= i < |ms| => PayloadOf(ms[i]))
  }

  lemma {:induction false} SendEachWrites(c: Conn, ms: seq<Msg>)
    ensures SendEach(c, ms).0 == c.(inner := SendEach(c, ms).0.inner)
    ensures WroteInFull(c.inner, (SendEach(c, ms).0.inner, SendEach(c, ms).1), Wire(c.format, PayloadsOf(ms)))
    decreases |ms|
  {
    var ps := PayloadsOf(ms);
    if ms == [] {
      assert ps == [];
      assert c.inner.output + [] == c.inner.output;
    } else {
      SendWritesOneFrame(c, ms[0]);
      var (c1, e1) := SendOn(c, ms[0]);
      assert PayloadsOf(ms[1..]) == ps[1..];
      var first, rest := FrameBytes(c.format, ps[0]), Wire(c.format, ps[1..]);
      if e1.Some? {
        WriteBreaksOff(c.inner, (c1.inner, e1), first, rest);
      } else {
        SendEachWrites(c1, ms[1..]);
        var (c2, e2) := SendEach(c1, ms[1..]);
        WriteCompose(c.inner, c1.inner, (c2.inner, e2), first, rest);
      }
    }
  }

  /** The two halves put together, for arbitrary partial writes on one side and
      arbitrary partial reads on the other: the receiver reports a prefix of
      the `header ++ body` sent, also when the sender breaks off in the middle
      of a frame, and all of them once everything sent has been read. */
  lemma {:induction false} SendThenReceive(sender: Conn, ms: seq<Msg>, receiver: Conn, n: nat)
    requires sender.inner.output == [] && Deliverable(PayloadsOf(ms))
    requires receiver == NewConn(sender.format, receiver.inner)
    requires receiver.inner.input == SendEach(sender, ms).0.inner.output
    ensures var sent := SendEach(sender, ms);
            var got := Polls(receiver, n);
            && AllEvents(got.1) <= Payloads(PayloadsOf(ms))
            && (sent.1.None? && got.0.inner.input == [] ==> AllEvents(got.1) == Payloads(PayloadsOf(ms)))
  {
    SendEachWrites(sender, ms);
    var w := Wire(sender.format, PayloadsOf(ms));
    assert [] + w == w;
    assert receiver.inner.input <= w;
    ReceivedIsPrefixOfSent(sender.format, PayloadsOf(ms), receiver.inner.input, receiver, n);
  }
}
