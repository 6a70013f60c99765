/** The plain frame parser: what a byte stream means, with no buffering, no
    suspension and no chunks.  The resumable receiver of `Transport` is proved
    to compute exactly this. */
module Framing {
  import opened Bytes

  /** TCP: 8-byte length.  IPC (NNG 1.5.x): type byte 0x01, then the length. */
  datatype Format = Tcp | Ipc

  const MAX_FRAME_BYTES := 0x4000_0000

  datatype FrameError = BadFrameType(got: byte) | FrameTooLarge(length: nat)

  /** What the receiver reports for one frame header (and its payload). */
  datatype Event = Payload(data: seq<byte>) | Rejected(error: FrameError)

  datatype Parse = More | Frame(event: Event, size: nat)

  datatype Parsed = Parsed(events: seq<Event>, rest: seq<byte>)

  function HeaderLen(f: Format): (n: nat) {
    if f.Tcp? then 8 else 9
  }

  /** The declared payload length of a complete header. */
  function Declared(f: Format, header: seq<byte>): nat
    requires |header| >= HeaderLen(f)
  {
    BeValue(header[HeaderLen(f) - 8..HeaderLen(f)])
  }

  /** The first frame of `s`: `size` is the number of bytes it uses up.  A
      rejected header uses up the header only, as the receiver goes idle. */
  function ParseOne(f: Format, s: seq<byte>): (p: Parse)
    ensures p.Frame? ==> HeaderLen(f) <= p.size <= |s|
  {
    var h := HeaderLen(f);
    if |s| < h then More
    else if f.Ipc? && s[0] != 1 then Frame(Rejected(BadFrameType(s[0])), h)
    else
      var len := Declared(f, s);
      if len > MAX_FRAME_BYTES then Frame(Rejected(FrameTooLarge(len)), h)
      else if |s| - h < len then More
      else Frame(Payload(s[h..h + len]), h + len)
  }

  /** All frames of `s`, in order, and the incomplete tail. */
  function ParseAll(f: Format, s: seq<byte>): (p: Parsed)
    decreases |s|
  {
    match ParseOne(f, s)
    case More => Parsed([], s)
    case Frame(e, n) =>
      var p := ParseAll(f, s[n..]);
      Parsed([e] + p.events, p.rest)
  }

  /** One frame on the wire, as `send` writes it. */
  function FrameBytes(f: Format, payload: seq<byte>): seq<byte> {
    (if f.Ipc? then [1 as byte] else []) + BeBytes(|payload|, 8) + payload
  }

  /** Consecutive frames on the wire. */
  function Wire(f: Format, payloads: seq<seq<byte>>): seq<byte> {
    if payloads == [] then [] else FrameBytes(f, payloads[0]) + Wire(f, payloads[1..])
  }

  function Payloads(payloads: seq<seq<byte>>): (es: seq<Event>)
    ensures |es| == |payloads|
    ensures forall i :: 0 <= i < |es| ==> es[i] == Payload(payloads[i])
  {
    seq(|payloads|, i requires 0 <= i < |payloads| => Payload(payloads[i]))
  }

  predicate Deliverable(payloads: seq<seq<byte>>) {
    forall p :: p in payloads ==> |p| <= MAX_FRAME_BYTES
  }

  // ── Laws of the plain parser ────────────────────────────────────────────

  /** A complete frame stays the first frame whatever follows. */
  lemma {:induction false} ParseOneStable(f: Format, s: seq<byte>, t: seq<byte>)
    requires ParseOne(f, s).Frame?
    ensures ParseOne(f, s + t) == ParseOne(f, s)
  {
    var h := HeaderLen(f);
    assert (s + t)[h - 8..h] == s[h - 8..h];
    if !(f.Ipc? && s[0] != 1) && Declared(f, s) <= MAX_FRAME_BYTES {
      var n := h + Declared(f, s);
      assert (s + t)[h..n] == s[h..n];
    }
  }

  /** Parsing may be interrupted anywhere: the tail of the first part carries
      all that is needed to go on. */
  lemma {:induction false} ParseAppend(f: Format, s: seq<byte>, t: seq<byte>)
    ensures ParseAll(f, s + t) == Resumed(ParseAll(f, s).events, ParseAll(f, ParseAll(f, s).rest + t))
    decreases |s|
  {
    if ParseOne(f, s).Frame? {
      var n := ParseOne(f, s).size;
      ParseOneStable(f, s, t);
      ParseAppend(f, s[n..], t);
      DropOver(s, t, n);
      ParseFirst(f, s);
      ParseFirst(f, s + t);
      ResumedTwice([ParseOne(f, s).event], ParseAll(f, s[n..]).events, ParseAll(f, ParseAll(f, s).rest + t));
    }
  }

  lemma {:induction false} DropOver(s: seq<byte>, t: seq<byte>, n: nat)
    requires n <= |s|
    ensures (s + t)[n..] == s[n..] + t
  {
  }

  lemma {:induction false} ResumedTwice(a: seq<Event>, b: seq<Event>, p: Parsed)
    ensures Resumed(a, Resumed(b, p)) == Resumed(a + b, p)
  {
    assert a + (b + p.events) == a + b + p.events;
  }

  function Resumed(before: seq<Event>, p: Parsed): Parsed {
    Parsed(before + p.events, p.rest)
  }

  lemma {:induction false} ParseFirst(f: Format, s: seq<byte>)
    requires ParseOne(f, s).Frame?
    ensures ParseAll(f, s) == Resumed([ParseOne(f, s).event], ParseAll(f, s[ParseOne(f, s).size..]))
  {
  }

  /** The tail holds no complete frame and is a suffix of the input. */
  lemma {:induction false} ParseRest(f: Format, s: seq<byte>)
    ensures ParseOne(f, ParseAll(f, s).rest).More?
    ensures |ParseAll(f, s).rest| <= |s|
    ensures s[|s| - |ParseAll(f, s).rest|..] == ParseAll(f, s).rest
    decreases |s|
  {
    match ParseOne(f, s)
    case More =>
    case Frame(e, n) =>
      ParseRest(f, s[n..]);
  }

  /** One more frame: if `part` is exactly one frame, it adds its event. */
  lemma {:induction false} ParseComplete(f: Format, part: seq<byte>)
    requires ParseOne(f, part).Frame? && ParseOne(f, part).size == |part|
    ensures ParseAll(f, part) == Parsed([ParseOne(f, part).event], [])
  {
    assert part[|part|..] == [];
    assert ParseAll(f, []) == Parsed([], []);
  }

  /** A written frame parses back to its payload exactly when the payload is
      within the limit; otherwise the receiver rejects it by its length. */
  lemma {:induction false} FrameParses(f: Format, payload: seq<byte>, t: seq<byte>)
    requires |payload| < U64_VALUES
    ensures ParseOne(f, FrameBytes(f, payload) + t)
         == if |payload| <= MAX_FRAME_BYTES
            then Frame(Payload(payload), |FrameBytes(f, payload)|)
            else Frame(Rejected(FrameTooLarge(|payload|)), HeaderLen(f))
    ensures |FrameBytes(f, payload)| == HeaderLen(f) + |payload|
  {
    var h := HeaderLen(f);
    var s := FrameBytes(f, payload) + t;
    FieldSizes();
    BeValueOfBytes(|payload|, 8);
    assert s[h - 8..h] == BeBytes(|payload|, 8);
    assert s[h..h + |payload|] == payload;
  }

  /** Conversely, what parses to a payload is that payload's frame. */
  lemma {:induction false} PayloadFrameIsCanonical(f: Format, s: seq<byte>)
    requires ParseOne(f, s).Frame? && ParseOne(f, s).event.Payload?
    ensures var p := ParseOne(f, s);
            && |p.event.data| <= MAX_FRAME_BYTES && p.size == |FrameBytes(f, p.event.data)|
            && s == FrameBytes(f, p.event.data) + s[p.size..]
  {
    PayloadFrameParts(f, s);
    hide ParseOne, Declared;
    var h, len := HeaderLen(f), Declared(f, s);
    BeBytesOfValue(s[h - 8..h]);
    assert s[..h] == s[..h - 8] + s[h - 8..h];
    assert s[..h + len] == s[..h] + s[h..h + len];
    assert s == s[..h + len] + s[h + len..];
  }

  lemma {:induction false} PayloadFrameParts(f: Format, s: seq<byte>)
    requires ParseOne(f, s).Frame? && ParseOne(f, s).event.Payload?
    ensures var p, h, len := ParseOne(f, s), HeaderLen(f), Declared(f, s);
            && len == BeValue(s[h - 8..h]) <= MAX_FRAME_BYTES && h + len == p.size
            && p.event.data == s[h..h + len] && s[..h - 8] == if f.Ipc? then [1] else []
  {
  }

  /** Concatenated frames parse back, completely and in order. */
  lemma {:induction false} WireParses(f: Format, payloads: seq<seq<byte>>)
    requires Deliverable(payloads)
    ensures ParseAll(f, Wire(f, payloads)) == Parsed(Payloads(payloads), [])
    decreases |payloads|
  {
    if payloads == [] {
      assert Payloads(payloads) == [];
    } else {
      assert payloads[0] in payloads;
      WireParses(f, payloads[1..]);
      FirstFrameParses(f, payloads[0], Wire(f, payloads[1..]));
      assert Payloads(payloads) == [Payload(payloads[0])] + Payloads(payloads[1..]);
    }
  }

  lemma {:induction false} FirstFrameParses(f: Format, payload: seq<byte>, rest: seq<byte>)
    requires |payload| <= MAX_FRAME_BYTES
    ensures ParseAll(f, FrameBytes(f, payload) + rest) == Resumed([Payload(payload)], ParseAll(f, rest))
  {
    var first := FrameBytes(f, payload);
    FrameParses(f, payload, rest);
    ParseFirst(f, first + rest);
    assert (first + rest)[|first|..] == rest;
  }

  /** Whatever part of the stream has been read so far, the events are a prefix
      of the events of the whole stream. */
  lemma {:induction false} ParsePrefix(f: Format, s: seq<byte>, whole: seq<byte>)
    requires s <= whole
    ensures ParseAll(f, s).events <= ParseAll(f, whole).events
  {
    assert whole == s + whole[|s|..];
    ParseAppend(f, s, whole[|s|..]);
  }

  // ── Mismatched framing ──────────────────────────────────────────────────

  /** An IPC receiver fed at least nine bytes of a TCP-framed stream rejects
      the first frame by its type byte: it is the top byte of the length, 0. */
  lemma {:induction false} IpcReceiverOnTcpStream(payloads: seq<seq<byte>>, s: seq<byte>)
    requires payloads != [] && |payloads[0]| < Pow256(7)
    requires s <= Wire(Tcp, payloads) && |s| >= 9
    ensures ParseAll(Ipc, s).events != []
    ensures ParseAll(Ipc, s).events[0] == Rejected(BadFrameType(0))
  {
    TopByteOfLength(|payloads[0]|);
    assert s[0] == Wire(Tcp, payloads)[0] == BeBytes(|payloads[0]|, 8)[0] == 0;
  }

  /** A TCP receiver fed an IPC-framed stream reads the type byte as the top
      byte of a length of at least 2^56, and rejects it. */
  lemma {:induction false} TcpReceiverOnIpcStream(payloads: seq<seq<byte>>, s: seq<byte>)
    requires payloads != []
    requires s <= Wire(Ipc, payloads) && |s| >= 8
    ensures ParseAll(Tcp, s).events != []
    ensures ParseAll(Tcp, s).events[0] == Rejected(FrameTooLarge(Declared(Tcp, s)))
    ensures Declared(Tcp, s) >= Pow256(7)
  {
    assert s[0] == Wire(Ipc, payloads)[0] == 1;
    LengthFromOne(s[0..8]);
    SevenBytes();
    assert ParseOne(Tcp, s) == Frame(Rejected(FrameTooLarge(Declared(Tcp, s))), 8);
    ParseFirst(Tcp, s);
  }

  lemma {:induction false} LengthFromOne(length: seq<byte>)
    requires |length| == 8 && length[0] == 1
    ensures BeValue(length) >= Pow256(7)
  {
    TopByteWeight(length);
  }

  lemma {:induction false} SevenBytes()
    ensures Pow256(7) > MAX_FRAME_BYTES
  {
    assert Pow256(7) == 256 * (256 * (256 * Pow256(4)));
    FieldSizes();
  }

  lemma {:induction false} TopByteOfLength(n: nat)
    requires n < Pow256(7)
    ensures BeBytes(n, 8)[0] == 0
  {
    TopByte(n, 8);
  }

  lemma {:induction false} TopByte(n: nat, width: nat)
    requires 0 < width && n < Pow256(width - 1)
    ensures BeBytes(n, width)[0] == 0
  {
    if width > 1 {
      TopByte(n / 256, width - 1);
    }
  }

  lemma {:induction false} TopByteWeight(s: seq<byte>)
    requires s != []
    ensures BeValue(s) >= s[0] as int * Pow256(|s| - 1)
  {
    if |s| > 1 {
      var front := s[..|s| - 1];
      TopByteWeight(front);
      calc {
        BeValue(s);
      >= 256 * (front[0] as int * Pow256(|s| - 2));
      == s[0] as int * Pow256(|s| - 1);
      }
    } else {
      assert s == [s[0]];
      assert s[..0] == [];
    }
  }
}
