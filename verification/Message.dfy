/** Message buffers: the heap `Message`, the fixed-buffer `ZeroCopyMessage`, and
    the proof that nobody who uses them through the `MessageBuf` operations can
    tell them apart until a fixed buffer overflows. */
module Messages {
  import opened Bytes

  /** The value of a message: header and body as byte strings. */
  datatype Msg = Msg(header: seq<byte>, body: seq<byte>)

  /** The wire payload of a message: header bytes immediately before the body. */
  function PayloadOf(m: Msg): seq<byte> {
    m.header + m.body
  }

  /** The three mutating `MessageBuf` operations. */
  datatype Op = PushBack(data: seq<byte>) | HeaderPushBack(data: seq<byte>) | TrimFront(n: nat)

  /** A protocol state machine step on a message: what it answers, and what it
      does to the buffer.  Both depend on the header and body it sees only. */
  datatype Step<+R> = Step(result: R, ops: seq<Op>)

  // ── Heap message ────────────────────────────────────────────────────────

  /** One operation on a heap message; None where `Vec::drain` panics. */
  function HeapApply(m: Msg, op: Op): Option<Msg> {
    match op
    case PushBack(d) => Some(m.(body := m.body + d))
    case HeaderPushBack(d) => Some(m.(header := m.header + d))
    case TrimFront(n) => if n <= |m.body| then Some(m.(body := m.body[n..])) else None
  }

  function HeapRun(m: Msg, ops: seq<Op>): Option<Msg>
    decreases |ops|
  {
    if ops == [] then Some(m)
    else
      match HeapApply(m, ops[0])
      case None => None
      case Some(m') => HeapRun(m', ops[1..])
  }

  class Message {
    var header: seq<byte>
    var body: seq<byte>

    function Value(): Msg
      reads this
    {
      Msg(header, body)
    }

    constructor FromParts(header: seq<byte>, body: seq<byte>)
      ensures Value() == Msg(header, body)
    {
      this.header, this.body := header, body;
    }

    method PushBack(data: seq<byte>)
      modifies this
      ensures Some(Value()) == HeapApply(old(Value()), Op.PushBack(data))
    {
      body := body + data;
    }

    method HeaderPushBack(data: seq<byte>)
      modifies this
      ensures Some(Value()) == HeapApply(old(Value()), Op.HeaderPushBack(data))
    {
      header := header + data;
    }

    method TrimFront(n: nat)
      requires n <= |body|
      modifies this
      ensures Some(Value()) == HeapApply(old(Value()), Op.TrimFront(n))
    {
      body := body[n..];
    }
  }

  // ── Zero-copy message ───────────────────────────────────────────────────

  /** The fields of a `ZeroCopyMessage<N>`, with N == |buf|. */
  datatype Zc = Zc(buf: seq<byte>, hEnd: nat, bStart: nat, bEnd: nat)

  function HeaderCap(n: nat): nat {
    n / 4
  }

  ghost predicate ZcOk(z: Zc) {
    z.hEnd <= HeaderCap(|z.buf|) <= z.bStart <= z.bEnd <= |z.buf|
  }

  function ZcNew(n: nat): Zc {
    Zc(seq(n, _ => 0 as byte), 0, HeaderCap(n), HeaderCap(n))
  }

  function ZcView(z: Zc): Msg
    requires ZcOk(z)
  {
    Msg(z.buf[..z.hEnd], z.buf[z.bStart..z.bEnd])
  }

  function Overwrite(buf: seq<byte>, at: nat, data: seq<byte>): (r: seq<byte>)
    requires at + |data| <= |buf|
    ensures |r| == |buf|
    ensures forall i :: 0 <= i < |buf| ==> r[i] == if at <= i < at + |data| then data[i - at] else buf[i]
  {
    buf[..at] + data + buf[at + |data|..]
  }

  /** One operation on the fixed buffer; None where it panics. */
  function ZcApply(z: Zc, op: Op): Option<Zc>
    requires ZcOk(z)
  {
    match op
    case PushBack(d) =>
      if z.bEnd + |d| <= |z.buf|
      then Some(z.(buf := Overwrite(z.buf, z.bEnd, d), bEnd := z.bEnd + |d|)) else None
    case HeaderPushBack(d) =>
      if z.hEnd + |d| <= HeaderCap(|z.buf|)
      then Some(z.(buf := Overwrite(z.buf, z.hEnd, d), hEnd := z.hEnd + |d|)) else None
    case TrimFront(n) =>
      if z.bStart + n <= z.bEnd then Some(z.(bStart := z.bStart + n)) else None
  }

  function ZcRun(z: Zc, ops: seq<Op>): Option<Zc>
    requires ZcOk(z)
    decreases |ops|
  {
    if ops == [] then Some(z)
    else
      match ZcApply(z, ops[0])
      case None => None
      case Some(z') => ZcRun(z', ops[1..])
  }

  class ZeroCopyMessage {
    const buf: array<byte>
    var hEnd: nat
    var bStart: nat
    var bEnd: nat

    ghost function Fields(): Zc
      reads this, buf
    {
      Zc(buf[..], hEnd, bStart, bEnd)
    }

    ghost predicate Valid()
      reads this, buf
    {
      ZcOk(Fields())
    }

    constructor (n: nat)
      ensures Valid() && fresh(buf) && Fields() == ZcNew(n)
    {
      buf := new byte[n](_ => 0);
      hEnd, bStart, bEnd := 0, HeaderCap(n), HeaderCap(n);
      new;
      assert buf[..] == ZcNew(n).buf;
    }

    /** `panicked` stands for the assertion failure; nothing is written then. */
    method PushBack(data: seq<byte>) returns (panicked: bool)
      requires Valid()
      modifies this, buf
      ensures Valid()
      ensures panicked <==> ZcApply(old(Fields()), Op.PushBack(data)).None?
      ensures Fields() == if panicked then old(Fields()) else ZcApply(old(Fields()), Op.PushBack(data)).value
    {
      panicked := bEnd + |data| > buf.Length;
      if !panicked {
        CopyIn(bEnd, data);
        bEnd := bEnd + |data|;
      }
    }

    method HeaderPushBack(data: seq<byte>) returns (panicked: bool)
      requires Valid()
      modifies this, buf
      ensures Valid()
      ensures panicked <==> ZcApply(old(Fields()), Op.HeaderPushBack(data)).None?
      ensures Fields() == if panicked then old(Fields()) else ZcApply(old(Fields()), Op.HeaderPushBack(data)).value
    {
      panicked := hEnd + |data| > HeaderCap(buf.Length);
      if !panicked {
        CopyIn(hEnd, data);
        hEnd := hEnd + |data|;
      }
    }

    method TrimFront(n: nat) returns (panicked: bool)
      requires Valid()
      modifies this
      ensures Valid()
      ensures panicked <==> ZcApply(old(Fields()), Op.TrimFront(n)).None?
      ensures Fields() == if panicked then old(Fields()) else ZcApply(old(Fields()), Op.TrimFront(n)).value
    {
      panicked := bStart + n > bEnd;
      if !panicked {
        bStart := bStart + n;
      }
    }

    /** `buf[at..at + data.len()].copy_from_slice(data)` */
    method CopyIn(at: nat, data: seq<byte>)
      requires at + |data| <= buf.Length
      modifies buf
      ensures buf[..] == Overwrite(old(buf[..]), at, data)
    {
      forall i | 0 <= i < |data| {
        buf[at + i] := data[i];
      }
      assert buf[..] == Overwrite(old(buf[..]), at, data);
    }
  }

  // ── The two are interchangeable ─────────────────────────────────────────

  function HeaderBytesPushed(ops: seq<Op>): nat {
    if ops == [] then 0
    else (if ops[0].HeaderPushBack? then |ops[0].data| else 0) + HeaderBytesPushed(ops[1..])
  }

  function BodyBytesPushed(ops: seq<Op>): nat {
    if ops == [] then 0
    else (if ops[0].PushBack? then |ops[0].data| else 0) + BodyBytesPushed(ops[1..])
  }

  /** One operation keeps the index order, never mixes the two regions, and has
      the heap message's effect on header and body. */
  lemma {:induction false} ZcStepRefines(z: Zc, op: Op)
    requires ZcOk(z)
    ensures ZcApply(z, op).Some? <==>
              HeapApply(ZcView(z), op).Some?
              && (op.PushBack? ==> z.bEnd + |op.data| <= |z.buf|)
              && (op.HeaderPushBack? ==> z.hEnd + |op.data| <= HeaderCap(|z.buf|))
    ensures ZcApply(z, op).Some? ==>
              var z' := ZcApply(z, op).value;
              ZcOk(z') && |z'.buf| == |z.buf| && Some(ZcView(z')) == HeapApply(ZcView(z), op)
  {
    if ZcApply(z, op).Some? {
      var z' := ZcApply(z, op).value;
      match op
      case PushBack(d) =>
        assert z'.buf[..z'.hEnd] == z.buf[..z.hEnd];
        assert z'.buf[z'.bStart..z'.bEnd] == z.buf[z.bStart..z.bEnd] + d;
      case HeaderPushBack(d) =>
        assert z'.buf[..z'.hEnd] == z.buf[..z.hEnd] + d;
        assert z'.buf[z'.bStart..z'.bEnd] == z.buf[z.bStart..z.bEnd];
      case TrimFront(n) =>
        assert z'.buf[z'.bStart..z'.bEnd] == z.buf[z.bStart..z.bEnd][n..];
    }
  }

  /** From any state: the fixed buffer goes through with a list of operations
      exactly when the heap message does and the bytes pushed fit, and then
      header and body are the heap message's. */
  lemma {:induction false} ZcRunRefines(z: Zc, ops: seq<Op>)
    requires ZcOk(z)
    ensures ZcRun(z, ops).Some? <==>
              HeapRun(ZcView(z), ops).Some?
              && z.hEnd + HeaderBytesPushed(ops) <= HeaderCap(|z.buf|)
              && z.bEnd + BodyBytesPushed(ops) <= |z.buf|
    ensures ZcRun(z, ops).Some? ==>
              var z' := ZcRun(z, ops).value;
              ZcOk(z') && Some(ZcView(z')) == HeapRun(ZcView(z), ops)
    decreases |ops|
  {
    if ops != [] {
      ZcStepRefines(z, ops[0]);
      if ZcApply(z, ops[0]).Some? {
        ZcRunRefines(ZcApply(z, ops[0]).value, ops[1..]);
      }
    }
  }

  /** For a new `ZeroCopyMessage<N>`, every N: it overflows exactly when more
      than N/4 header bytes or N - N/4 body bytes are pushed in all -- space
      freed by `trim_front` is not reused. */
  lemma {:induction false} NewMessageCapacity(n: nat, ops: seq<Op>)
    ensures ZcRun(ZcNew(n), ops).Some? <==>
              HeapRun(Msg([], []), ops).Some?
              && HeaderBytesPushed(ops) <= n / 4
              && BodyBytesPushed(ops) <= n - n / 4
    ensures ZcRun(ZcNew(n), ops).Some? ==>
              var z' := ZcRun(ZcNew(n), ops).value;
              ZcOk(z') && Some(ZcView(z')) == HeapRun(Msg([], []), ops)
  {
    ZcRunRefines(ZcNew(n), ops);
    assert ZcView(ZcNew(n)) == Msg([], []);
  }

  lemma {:induction false} BodyFitsIff(n: nat, data: seq<byte>)
    ensures ZcRun(ZcNew(n), [PushBack(data)]).Some? <==> |data| <= n - n / 4
  {
    var ops := [PushBack(data)];
    assert ops[1..] == [];
    assert HeaderBytesPushed([]) == 0 && BodyBytesPushed([]) == 0;
    assert HeaderBytesPushed(ops) == 0 && BodyBytesPushed(ops) == |data|;
    assert HeapRun(Msg([], [] + data), []).Some?;
    NewMessageCapacity(n, ops);
  }

  /** A new message takes exactly the bodies of up to 3N/4 bytes if and only if 4
      divides N. */
  lemma {:induction false} DocumentedCapacityIff(n: nat)
    ensures (forall data: seq<byte> :: ZcRun(ZcNew(n), [PushBack(data)]).Some? <==> |data| <= 3 * n / 4)
            <==> n % 4 == 0
  {
    forall data: seq<byte>
      ensures ZcRun(ZcNew(n), [PushBack(data)]).Some? <==> |data| <= n - n / 4
    {
      BodyFitsIff(n, data);
    }
    assert n - n / 4 == 3 * n / 4 <==> n % 4 == 0;
    var most := seq(n - n / 4, _ => 0 as byte);
    assert ZcRun(ZcNew(n), [PushBack(most)]).Some? && |most| == n - n / 4 >= 3 * n / 4;
  }

  /** A buffer of 5 takes 4 bytes, though 3 * 5 / 4 is 3. */
  lemma {:induction false} FiveByteBufferTakesFour(data: seq<byte>)
    requires |data| == 4
    ensures ZcRun(ZcNew(5), [PushBack(data)]).Some? && |data| > 3 * 5 / 4
  {
    BodyFitsIff(5, data);
  }

  /** The fixed buffer goes through with `ops`, to the heap message's result. */
  ghost predicate SameOnBoth(z: Zc, ops: seq<Op>)
    requires ZcOk(z)
  {
    && ZcRun(z, ops).Some?
    && ZcOk(ZcRun(z, ops).value) && Some(ZcView(ZcRun(z, ops).value)) == HeapRun(ZcView(z), ops)
  }

  /** Appending a protocol word to the header overflows exactly when the header
      region has no room for it. */
  lemma {:induction false} WordFitsIff(z: Zc, word: seq<byte>)
    requires ZcOk(z)
    ensures SameOnBoth(z, [HeaderPushBack(word)]) <==> z.hEnd + |word| <= HeaderCap(|z.buf|)
    ensures ZcRun(z, [HeaderPushBack(word)]).Some? <==> z.hEnd + |word| <= HeaderCap(|z.buf|)
  {
    var ops := [HeaderPushBack(word)];
    assert ops[1..] == [];
    assert HeaderBytesPushed([]) == 0 && BodyBytesPushed([]) == 0;
    assert BodyBytesPushed(ops) == 0 && HeaderBytesPushed(ops) == |word|;
    assert HeapRun(ZcView(z).(header := ZcView(z).header + word), []).Some?;
    ZcRunRefines(z, ops);
  }

  /** Taking a protocol word off the body never overflows. */
  lemma {:induction false} TrimFits(z: Zc, n: nat)
    requires ZcOk(z) && n <= |ZcView(z).body|
    ensures SameOnBoth(z, [TrimFront(n)])
  {
    var ops := [TrimFront(n)];
    assert ops[1..] == [];
    assert HeaderBytesPushed([]) == 0 && BodyBytesPushed([]) == 0;
    assert BodyBytesPushed(ops) == 0 && HeaderBytesPushed(ops) == 0;
    assert HeapRun(ZcView(z).(body := ZcView(z).body[n..]), []).Some?;
    ZcRunRefines(z, ops);
  }

  lemma {:induction false} NoOpsFit(z: Zc)
    requires ZcOk(z)
    ensures SameOnBoth(z, [])
  {
  }

  /** A new message that holds a body has room for one 4-byte protocol word exactly
      when N is at least 16. */
  lemma {:induction false} SixteenBytesAreEnough(n: nat, body: seq<byte>, word: seq<byte>)
    requires |body| <= n - n / 4 && |word| == 4
    ensures ZcRun(ZcNew(n), [PushBack(body), HeaderPushBack(word)]).Some? <==> n >= 16
  {
    var ops := [PushBack(body), HeaderPushBack(word)];
    assert ops[1..] == [HeaderPushBack(word)] && ops[1..][1..] == [];
    assert HeaderBytesPushed([]) == 0 && BodyBytesPushed([]) == 0;
    assert HeaderBytesPushed(ops) == HeaderBytesPushed(ops[1..]) == 4;
    assert BodyBytesPushed(ops) == |body| + BodyBytesPushed(ops[1..]) == |body|;
    assert HeapRun(Msg([], [] + body), ops[1..]) == HeapRun(Msg([] + word, [] + body), []);
    NewMessageCapacity(n, ops);
  }
}
