/** The REQ0 / REP0 protocol state machines: request IDs and routing. */
module ReqRep {
  import opened Bytes
  import opened Messages

  const HIGH_BIT := 0x8000_0000

  /** The number of request IDs: every u32 but zero. */
  const ID_COUNT := 0xFFFF_FFFF

  // ── Request IDs ─────────────────────────────────────────────────────────

  /** `id | 0x8000_0000` */
  function WithHighBit(id: u32): u32 {
    if id < HIGH_BIT then id + HIGH_BIT else id
  }

  /** `wire_id & 0x7fff_ffff` */
  function WithoutHighBit(wireId: u32): u32 {
    if wireId < HIGH_BIT then wireId else wireId - HIGH_BIT
  }

  /** The arithmetic above is the bit operations of the source. */
  lemma {:induction false} HighBitIsBitwise(id: bv32)
    ensures WithHighBit(id as int) == (id | 0x8000_0000) as int
    ensures WithoutHighBit(id as int) == (id & 0x7fff_ffff) as int
  {
    if id < 0x8000_0000 {
      LowWordIsBitwise(id);
      LowWordChanged(id, id as int, id | 0x8000_0000, id & 0x7fff_ffff);
    } else {
      HighWordIsBitwise(id);
      HighWordChanged(id, id as int, id | 0x8000_0000, id & 0x7fff_ffff);
    }
  }

  lemma {:induction false} LowWordChanged(id: bv32, n: u32, high: bv32, low: bv32)
    requires n == id as int
    requires id < 0x8000_0000 && high == id + 0x8000_0000 && low == id
    ensures WithHighBit(n) == high as int && WithoutHighBit(n) == low as int
  {
    LowWordAsNumber(id);
    LowWord(n);
  }

  lemma {:induction false} HighWordChanged(id: bv32, n: u32, high: bv32, low: bv32)
    requires n == id as int
    requires id >= 0x8000_0000 && high == id && low == id - 0x8000_0000
    ensures WithHighBit(n) == high as int && WithoutHighBit(n) == low as int
  {
    HighWordAsNumber(id);
    HighWord(n);
  }

  lemma {:induction false} LowWord(n: u32)
    requires n < 0x8000_0000
    ensures WithHighBit(n) == n + 0x8000_0000 && WithoutHighBit(n) == n
  {
  }

  lemma {:induction false} HighWord(n: u32)
    requires n >= 0x8000_0000
    ensures WithHighBit(n) == n && WithoutHighBit(n) == n - 0x8000_0000
  {
  }

  /** `wrapping_add(1).max(1)` */
  function NextId(id: u32): u32 {
    var next := (id + 1) % U32_VALUES;
    if next < 1 then 1 else next
  }

  /** The ID stamped on the k-th message, counting from 0. */
  function IssuedId(k: nat): u32 {
    if k == 0 then 1 else NextId(IssuedId(k - 1))
  }

  /** IDs walk through 1, ..., 2^32 - 1 and start again; zero is never issued. */
  lemma {:induction false} IssuedIdIs(k: nat)
    ensures IssuedId(k) == 1 + k % ID_COUNT
  {
    if k > 0 {
      IssuedIdIs(k - 1);
      NextResidue(k - 1);
    }
  }

  lemma {:induction false} NextResidue(k: nat)
    ensures (k + 1) % ID_COUNT == if k % ID_COUNT == ID_COUNT - 1 then 0 else k % ID_COUNT + 1
  {
    var q, r := k / ID_COUNT, k % ID_COUNT;
    if r == ID_COUNT - 1 {
      Residue(k + 1, q + 1, 0);
    } else {
      Residue(k + 1, q, r + 1);
    }
  }

  lemma {:induction false} Residue(k: nat, q: nat, r: nat)
    requires r < ID_COUNT && k == q * 0xFFFF_FFFF + r
    ensures k % ID_COUNT == r && k / ID_COUNT == q
  {
  }

  /** Two messages get the same ID exactly when a multiple of 2^32 - 1 apart. */
  lemma {:induction false} SameIdMeansFarApart(j: nat, k: nat)
    requires j <= k
    ensures IssuedId(j) == IssuedId(k) <==> (k - j) % ID_COUNT == 0
  {
    IssuedIdIs(j);
    IssuedIdIs(k);
    var a, b := j / ID_COUNT, k / ID_COUNT;
    var r, s := j % ID_COUNT, k % ID_COUNT;
    assert j == a * 0xFFFF_FFFF + r && k == b * 0xFFFF_FFFF + s;
    if r <= s {
      Residue(k - j, b - a, s - r);
    } else {
      Residue(k - j, b - a - 1, 0xFFFF_FFFF + s - r);
    }
  }

  /** When a reply to request j can pass the ID check of a later request k. */
  lemma {:induction false} AcceptedIds(j: nat, k: nat)
    requires j <= k && WithoutHighBit(WithHighBit(IssuedId(j))) == IssuedId(k)
    ensures j == k || k >= ID_COUNT
    ensures j == k || k - j >= HIGH_BIT - 1
    ensures IssuedId(k) < HIGH_BIT
  {
    IssuedIdIs(j);
    IssuedIdIs(k);
    var a, b := j / ID_COUNT, k / ID_COUNT;
    var r, s := j % ID_COUNT, k % ID_COUNT;
    assert j == a * 0xFFFF_FFFF + r && k == b * 0xFFFF_FFFF + s;
    assert s == r || s + HIGH_BIT == r;
    RoundsApart(j, k, a, b, r, s);
  }

  lemma {:induction false} RoundsApart(j: nat, k: nat, a: nat, b: nat, r: nat, s: nat)
    requires j <= k && j == a * 0xFFFF_FFFF + r && k == b * 0xFFFF_FFFF + s
    requires r < 0xFFFF_FFFF && (s == r || s + 0x8000_0000 == r)
    ensures j == k || (k >= 0xFFFF_FFFF && k - j >= 0x7FFF_FFFF)
  {
  }

  // ── Protocol steps ──────────────────────────────────────────────────────

  datatype ReqRepError = IdMismatch(got: u32, expected: u32) | MessageTooShort

  type RoutingInfo = r: seq<byte> | |r| == 4 witness [0, 0, 0, 0]

  /** The 4-byte word at the front of a body. */
  function FrontWord(body: seq<byte>): (w: u32)
    requires |body| >= 4
  {
    FieldSizes();
    BeValueBound(body[..4]);
    BeValue(body[..4])
  }

  function RoutingOf(id: u32): RoutingInfo {
    BeBytes(WithHighBit(id), 4)
  }

  function ReqOutgoing(id: u32): seq<Op> {
    [HeaderPushBack(RoutingOf(id))]
  }

  /** Check a reply against the ID sent; the word is consumed even if it does
      not match. */
  function ReqIncoming(m: Msg, sentId: u32): Step<Option<ReqRepError>> {
    if |m.body| < 4 then Step(Some(MessageTooShort), [])
    else
      var id := WithoutHighBit(FrontWord(m.body));
      Step(if id != sentId then Some(IdMismatch(id, sentId)) else None, [TrimFront(4)])
  }

  /** Take the routing word off a request. */
  function RepIncoming(m: Msg): Step<Option<RoutingInfo>> {
    if |m.body| < 4 then Step(None, []) else Step(Some(m.body[..4]), [TrimFront(4)])
  }

  function RepOutgoing(routing: RoutingInfo): seq<Op> {
    [HeaderPushBack(routing)]
  }

  class Req0State {
    var nextId: u32

    constructor ()
      ensures nextId == IssuedId(0)
    {
      nextId := 1;
    }

    /** Stamp a request with a fresh ID. */
    method PrepareOutgoing(msg: Message) returns (id: u32)
      modifies this, msg
      ensures id == old(nextId) && nextId == NextId(id)
      ensures forall k: nat :: id == IssuedId(k) ==> nextId == IssuedId(k + 1)
      ensures Some(msg.Value()) == HeapRun(old(msg.Value()), ReqOutgoing(id))
    {
      id := nextId;
      var next := (nextId + 1) % U32_VALUES;
      nextId := if next < 1 then 1 else next;
      msg.HeaderPushBack(BeBytes(WithHighBit(id), 4));
    }

    /** Validate a reply and strip its ID. */
    method ProcessIncoming(msg: Message, sentId: u32) returns (error: Option<ReqRepError>)
      modifies msg
      ensures error == ReqIncoming(old(msg.Value()), sentId).result
      ensures Some(msg.Value()) == HeapRun(old(msg.Value()), ReqIncoming(old(msg.Value()), sentId).ops)
    {
      if |msg.body| < 4 {
        return Some(MessageTooShort);
      }
      var wireId := FrontWord(msg.body);
      msg.TrimFront(4);
      var id := WithoutHighBit(wireId);
      if id != sentId {
        return Some(IdMismatch(id, sentId));
      }
      return None;
    }
  }

  class Rep0State {
    constructor () {}

    method ProcessIncoming(msg: Message) returns (routing: Option<RoutingInfo>)
      modifies msg
      ensures routing == RepIncoming(old(msg.Value())).result
      ensures Some(msg.Value()) == HeapRun(old(msg.Value()), RepIncoming(old(msg.Value())).ops)
    {
      if |msg.body| < 4 {
        return None;
      }
      var idBytes := msg.body[..4];
      msg.TrimFront(4);
      return Some(idBytes);
    }

    method PrepareReply(msg: Message, routing: RoutingInfo)
      modifies msg
      ensures Some(msg.Value()) == HeapRun(old(msg.Value()), RepOutgoing(routing))
    {
      msg.HeaderPushBack(routing);
    }
  }

  // ── On the wire ─────────────────────────────────────────────────────────

  /** What is on the wire for a request, and for a reply, of an application body
      without header of its own. */
  function RequestWire(id: u32, body: seq<byte>): seq<byte> {
    RoutingOf(id) + body
  }

  function ReplyWire(routing: RoutingInfo, body: seq<byte>): seq<byte> {
    routing + body
  }

  lemma {:induction false} PreparedOnTheWire(id: u32, routing: RoutingInfo, body: seq<byte>)
    ensures HeapRun(Msg([], body), ReqOutgoing(id)).Some?
    ensures PayloadOf(HeapRun(Msg([], body), ReqOutgoing(id)).value) == RequestWire(id, body)
    ensures HeapRun(Msg([], body), RepOutgoing(routing)).Some?
    ensures PayloadOf(HeapRun(Msg([], body), RepOutgoing(routing)).value) == ReplyWire(routing, body)
  {
    PushedHeader(Msg([], body), RoutingOf(id));
    PushedHeader(Msg([], body), routing);
  }

  lemma {:induction false} PushedHeader(m: Msg, data: seq<byte>)
    ensures HeapRun(m, [HeaderPushBack(data)]) == Some(m.(header := m.header + data))
  {
    assert [HeaderPushBack(data)][1..] == [];
    assert HeapRun(m.(header := m.header + data), []) == Some(m.(header := m.header + data));
  }

  lemma {:induction false} TrimmedFront(m: Msg)
    requires |m.body| >= 4
    ensures HeapRun(m, [TrimFront(4)]) == Some(m.(body := m.body[4..]))
  {
    assert [TrimFront(4)][1..] == [];
    assert HeapRun(m.(body := m.body[4..]), []) == Some(m.(body := m.body[4..]));
  }

  /** The server reads back the routing word and the request body. */
  lemma {:induction false} RequestArrives(id: u32, body: seq<byte>)
    ensures var m := Msg([], RequestWire(id, body));
            && RepIncoming(m).result == Some(RoutingOf(id))
            && HeapRun(m, RepIncoming(m).ops) == Some(Msg([], body))
  {
    var m := Msg([], RequestWire(id, body));
    TrimmedFront(m);
    assert m.body[..4] == RoutingOf(id) && m.body[4..] == body;
  }

  /** What the client makes of a reply to request `id` while it waits for `sentId`. */
  lemma {:induction false} ReplyArrives(id: u32, sentId: u32, reply: seq<byte>)
    ensures var m := Msg([], ReplyWire(RoutingOf(id), reply));
            var got := WithoutHighBit(WithHighBit(id));
            && ReqIncoming(m, sentId).result == (if got == sentId then None else Some(IdMismatch(got, sentId)))
            && HeapRun(m, ReqIncoming(m, sentId).ops) == Some(Msg([], reply))
  {
    var m := Msg([], ReplyWire(RoutingOf(id), reply));
    TrimmedFront(m);
    FieldSizes();
    BeValueOfBytes(WithHighBit(id), 4);
    assert m.body[..4] == RoutingOf(id) && m.body[4..] == reply;
  }

  /** The round trip REQ to REP to REQ is accepted for exactly the IDs below 2^31,
      although IDs up to 2^32 - 1 are issued. */
  lemma {:induction false} RoundTripAccepted(id: u32, body: seq<byte>, reply: seq<byte>)
    ensures var routing := RepIncoming(Msg([], RequestWire(id, body))).result;
            && routing.Some?
            && (ReqIncoming(Msg([], ReplyWire(routing.value, reply)), id).result.None? <==> id < HIGH_BIT)
  {
    RequestArrives(id, body);
    ReplyArrives(id, id, reply);
  }

  /** The first call that is never answered: its ID is 2^31. */
  lemma {:induction false} FirstUnansweredCall(k: nat, reply: seq<byte>)
    requires k == HIGH_BIT - 1
    ensures IssuedId(k) == HIGH_BIT
    ensures ReqIncoming(Msg([], ReplyWire(RoutingOf(IssuedId(k)), reply)), IssuedId(k)).result == Some(IdMismatch(0, HIGH_BIT))
  {
    IssuedIdIs(k);
    ReplyArrives(IssuedId(k), IssuedId(k), reply);
  }

  // ── On a fixed buffer ───────────────────────────────────────────────────

  /** On a fixed buffer, stamping a request or a reply gives the heap message's
      header and body exactly when the header region has room for four bytes;
      accepting one always does, and with it the same verdict. */
  lemma {:induction false} StepsOnFixedBuffer(z: Zc, id: u32, routing: RoutingInfo, sentId: u32)
    requires ZcOk(z)
    ensures SameOnBoth(z, ReqOutgoing(id)) <==> z.hEnd + 4 <= HeaderCap(|z.buf|)
    ensures SameOnBoth(z, RepOutgoing(routing)) <==> z.hEnd + 4 <= HeaderCap(|z.buf|)
    ensures SameOnBoth(z, ReqIncoming(ZcView(z), sentId).ops)
    ensures SameOnBoth(z, RepIncoming(ZcView(z)).ops)
  {
    WordFitsIff(z, RoutingOf(id));
    WordFitsIff(z, routing);
    if |ZcView(z).body| < 4 {
      NoOpsFit(z);
    } else {
      TrimFits(z, 4);
    }
  }

  /** The message in the fixed buffer after a step's operations. */
  function After(z: Zc, ops: seq<Op>): Msg
    requires ZcOk(z) && SameOnBoth(z, ops)
  {
    ZcView(ZcRun(z, ops).value)
  }

  /** The whole round trip with all four messages in fixed buffers, of any size that
      holds them with four bytes of header room: the same words on the wire, the
      same bodies, the same verdict as on the heap. */
  lemma {:induction false} RoundTripOnFixedBuffers(id: u32, body: seq<byte>, reply: seq<byte>,
                                                   sent: Zc, arrived: Zc, answer: Zc, back: Zc)
    requires ZcOk(sent) && ZcOk(arrived) && ZcOk(answer) && ZcOk(back)
    requires HeaderCap(|sent.buf|) >= 4 && HeaderCap(|answer.buf|) >= 4
    requires ZcView(sent) == Msg([], body) && ZcView(arrived) == Msg([], RequestWire(id, body))
    requires ZcView(answer) == Msg([], reply) && ZcView(back) == Msg([], ReplyWire(RoutingOf(id), reply))
    ensures SameOnBoth(sent, ReqOutgoing(id)) && PayloadOf(After(sent, ReqOutgoing(id))) == RequestWire(id, body)
    ensures var step := RepIncoming(ZcView(arrived));
            step.result == Some(RoutingOf(id)) && SameOnBoth(arrived, step.ops) && After(arrived, step.ops) == Msg([], body)
    ensures var ops := RepOutgoing(RoutingOf(id));
            SameOnBoth(answer, ops) && PayloadOf(After(answer, ops)) == ReplyWire(RoutingOf(id), reply)
    ensures var step := ReqIncoming(ZcView(back), id);
            && (step.result.None? <==> id < HIGH_BIT)
            && SameOnBoth(back, step.ops) && After(back, step.ops) == Msg([], reply)
  {
    hide ZcRun, SameOnBoth;
    assert sent.hEnd == |ZcView(sent).header| == 0 && answer.hEnd == |ZcView(answer).header| == 0;
    StepsOnFixedBuffer(sent, id, RoutingOf(id), id);
    StepsOnFixedBuffer(arrived, id, RoutingOf(id), id);
    StepsOnFixedBuffer(answer, id, RoutingOf(id), id);
    StepsOnFixedBuffer(back, id, RoutingOf(id), id);
    PreparedOnTheWire(id, RoutingOf(id), body);
    PreparedOnTheWire(id, RoutingOf(id), reply);
    RequestArrives(id, body);
    ReplyArrives(id, id, reply);
    AfterIsHeaps(sent, ReqOutgoing(id));
    AfterIsHeaps(arrived, RepIncoming(ZcView(arrived)).ops);
    AfterIsHeaps(answer, RepOutgoing(RoutingOf(id)));
    AfterIsHeaps(back, ReqIncoming(ZcView(back), id).ops);
  }

  lemma {:induction false} AfterIsHeaps(z: Zc, ops: seq<Op>)
    requires ZcOk(z) && SameOnBoth(z, ops)
    ensures Some(After(z, ops)) == HeapRun(ZcView(z), ops)
  {
  }
}
