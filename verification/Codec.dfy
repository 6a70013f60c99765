/** The one-shot frame codec: `encode_frame` and `decode_frame`. */
module Codec {
  import opened Bytes
  import opened Framing
  import opened Messages
  import opened Transport

  datatype Decoded = Incomplete | Decoded(msg: Msg, consumed: nat)

  /** What `decode_frame` returns; unlike the receiver it has no size limit. */
  function Decode(src: seq<byte>): (r: Decoded)
    ensures r.Decoded? ==> 8 <= r.consumed <= |src|
  {
    if |src| < 8 then Incomplete
    else
      var len := BeValue(src[..8]);
      if |src| - 8 < len then Incomplete else Decoded(Msg([], src[8..8 + len]), 8 + len)
  }

  method EncodeFrame(msg: Msg) returns (out: seq<byte>)
    requires |PayloadOf(msg)| < U64_VALUES
    ensures out == FrameBytes(Tcp, PayloadOf(msg))
    ensures Decode(out) == Decoded(Msg([], PayloadOf(msg)), |out|)
  {
    var total := |msg.header| + |msg.body|;
    out := [];
    out := out + BeBytes(total, 8);
    out := out + msg.header;
    out := out + msg.body;
    assert out == FrameBytes(Tcp, PayloadOf(msg)) == FrameBytes(Tcp, PayloadOf(msg)) + [];
    DecodeInvertsEncode(PayloadOf(msg), []);
  }

  method DecodeFrame(src: seq<byte>) returns (r: Decoded)
    ensures r == Decode(src)
  {
    if |src| < 8 {
      return Incomplete;
    }
    var len := BeValue(src[..8]);
    if |src| - 8 < len {
      return Incomplete;
    }
    var msg := new Message.FromParts([], []);
    msg.PushBack(src[8..8 + len]);
    r := Decoded(msg.Value(), 8 + len);
  }

  /** Repeated decoding: the messages and the undecoded tail. */
  function DecodeAll(src: seq<byte>): (seq<Msg>, seq<byte>)
    decreases |src|
  {
    match Decode(src)
    case Incomplete => ([], src)
    case Decoded(m, n) =>
      var (ms, rest) := DecodeAll(src[n..]);
      ([m] + ms, rest)
  }

  lemma {:induction false} DecodeInvertsEncode(payload: seq<byte>, t: seq<byte>)
    requires |payload| < U64_VALUES
    ensures Decode(FrameBytes(Tcp, payload) + t)
         == Decoded(Msg([], payload), |FrameBytes(Tcp, payload)|)
  {
    var s := FrameBytes(Tcp, payload) + t;
    FieldSizes();
    BeValueOfBytes(|payload|, 8);
    assert s[..8] == BeBytes(|payload|, 8);
    assert s[8..8 + |payload|] == payload;
  }

  /** Decoding accepts nothing but what encoding writes. */
  lemma {:induction false} DecodeIsCanonical(src: seq<byte>)
    requires Decode(src).Decoded?
    ensures var m := Decode(src).msg;
            m.header == [] && |m.body| < U64_VALUES && FrameBytes(Tcp, m.body) == src[..Decode(src).consumed]
  {
    var len := BeValue(src[..8]);
    FieldSizes();
    BeValueBound(src[..8]);
    BeBytesOfValue(src[..8]);
    assert src[..8 + len] == src[..8] + src[8..8 + len];
  }

  /** A success does not change when more bytes arrive. */
  lemma {:induction false} DecodeStable(src: seq<byte>, t: seq<byte>)
    requires Decode(src).Decoded?
    ensures Decode(src + t) == Decode(src)
  {
    var len := BeValue(src[..8]);
    assert (src + t)[..8] == src[..8];
    assert (src + t)[8..8 + len] == src[8..8 + len];
  }

  /** No encoding is a prefix of another message's encoding. */
  lemma {:induction false} EncodingIsPrefixFree(p: seq<byte>, q: seq<byte>)
    requires |p| < U64_VALUES && |q| < U64_VALUES
    ensures FrameBytes(Tcp, p) <= FrameBytes(Tcp, q) <==> p == q
  {
    var e, g := FrameBytes(Tcp, p), FrameBytes(Tcp, q);
    if e <= g {
      assert g == e + g[|e|..];
      DecodeInvertsEncode(p, g[|e|..]);
      DecodeInvertsEncode(q, []);
      assert g + [] == g;
    }
  }

  ghost predicate StartsWithFrame(src: seq<byte>) {
    exists payload: seq<byte> :: |payload| < U64_VALUES && FrameBytes(Tcp, payload) <= src
  }

  /** `Incomplete` means exactly that no complete frame is at the front, for
      every length a u64 can declare. */
  lemma {:induction false} IncompleteMeansNoFrame(src: seq<byte>)
    ensures Decode(src).Incomplete? <==> !StartsWithFrame(src)
  {
    if Decode(src).Decoded? {
      DecodeIsCanonical(src);
      assert FrameBytes(Tcp, Decode(src).msg.body) <= src;
    }
    if StartsWithFrame(src) {
      var payload :| |payload| < U64_VALUES && FrameBytes(Tcp, payload) <= src;
      var e := FrameBytes(Tcp, payload);
      assert src == e + src[|e|..];
      DecodeInvertsEncode(payload, src[|e|..]);
    }
  }

  function Bodies(payloads: seq<seq<byte>>): (ms: seq<Msg>)
    ensures |ms| == |payloads|
    ensures forall i :: 0 <= i < |ms| ==> ms[i] == Msg([], payloads[i])
  {
    seq(|payloads|, i requires 0 <= i < |payloads| => Msg([], payloads[i]))
  }

  /** Decoding concatenated encodings gives back every message, in order. */
  lemma {:induction false} DecodeAllInvertsWire(payloads: seq<seq<byte>>)
    requires forall p :: p in payloads ==> |p| < U64_VALUES
    ensures DecodeAll(Wire(Tcp, payloads)) == (Bodies(payloads), [])
    decreases |payloads|
  {
    if payloads == [] {
      assert Bodies(payloads) == [];
    } else {
      var first := FrameBytes(Tcp, payloads[0]);
      assert payloads[0] in payloads;
      DecodeInvertsEncode(payloads[0], Wire(Tcp, payloads[1..]));
      DecodeAllInvertsWire(payloads[1..]);
      assert Wire(Tcp, payloads)[|first|..] == Wire(Tcp, payloads[1..]);
      assert Bodies(payloads) == [Msg([], payloads[0])] + Bodies(payloads[1..]);
    }
  }

  /** The codec and the receiver's TCP parser differ in the size limit only. */
  lemma {:induction false} ReceiverAgreesWithCodec(src: seq<byte>)
    ensures ParseOne(Tcp, src)
         == if |src| >= 8 && BeValue(src[..8]) > MAX_FRAME_BYTES
            then Frame(Rejected(FrameTooLarge(BeValue(src[..8]))), 8)
            else match Decode(src)
                 case Incomplete => More
                 case Decoded(m, n) => Frame(Payload(m.body), n)
  {
    if |src| >= 8 {
      assert src[0..8] == src[..8];
    }
  }

  /** No frame header of `src`, as repeated decoding comes to them, declares more than
      the receiver takes. */
  predicate WithinLimit(src: seq<byte>)
    decreases |src|
  {
    |src| >= 8 ==>
      && BeValue(src[..8]) <= MAX_FRAME_BYTES
      && (Decode(src).Decoded? ==> WithinLimit(src[Decode(src).consumed..]))
  }

  function BodiesOf(ms: seq<Msg>): (bs: seq<seq<byte>>)
    ensures |bs| == |ms|
    ensures forall i :: 0 <= i < |ms| ==> bs[i] == ms[i].body
  {
    seq(|ms|, i requires 0 <= i < |ms| => ms[i].body)
  }

  /** The receiver's parse of a TCP stream is repeated decoding, messages and tail,
      exactly when no header is over the limit. */
  lemma {:induction false} ParseIsDecoding(src: seq<byte>)
    ensures ParseAll(Tcp, src) == Parsed(Payloads(BodiesOf(DecodeAll(src).0)), DecodeAll(src).1) <==> WithinLimit(src)
    decreases |src|
  {
    ReceiverAgreesWithCodec(src);
    if |src| >= 8 && BeValue(src[..8]) > MAX_FRAME_BYTES {
      assert ParseAll(Tcp, src).events[0].Rejected?;
    } else if Decode(src).Decoded? {
      var n := Decode(src).consumed;
      ParseIsDecoding(src[n..]);
      OneMore(Decode(src).msg, DecodeAll(src[n..]).0, ParseAll(Tcp, src[n..]).events);
      ParseFirst(Tcp, src);
    } else {
      assert Payloads(BodiesOf([])) == [];
    }
  }

  lemma {:induction false} OneMore(m: Msg, ms: seq<Msg>, es: seq<Event>)
    ensures [Payload(m.body)] + es == Payloads(BodiesOf([m] + ms)) <==> es == Payloads(BodiesOf(ms))
  {
    var all := Payloads(BodiesOf([m] + ms));
    assert all == [Payload(m.body)] + Payloads(BodiesOf(ms));
    assert es == ([Payload(m.body)] + es)[1..] && Payloads(BodiesOf(ms)) == all[1..];
  }

  /** The resumable receiver refines `decode_frame`: over any reads, suspensions and
      polls, what a TCP receiver has reported is what repeatedly decoding the bytes
      it has read gives, and what it holds is what decoding leaves, exactly when no
      header is over the limit. */
  lemma {:induction false} ReceiverRefinesDecoder(c: Conn, n: nat)
    requires c == NewConn(Tcp, c.inner)
    ensures var (c', os) := Polls(c, n);
            && c'.consumed <= c.inner.input
            && ((AllEvents(os) == Payloads(BodiesOf(DecodeAll(c'.consumed).0)) && c'.part == DecodeAll(c'.consumed).1)
                <==> WithinLimit(c'.consumed))
  {
    hide Polls, AllEvents, DecodeAll, WithinLimit;
    ReadInOrder(c, n);
    ParseIsDecoding(Polls(c, n).0.consumed);
  }
}
