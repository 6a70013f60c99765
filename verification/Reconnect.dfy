/** Reconnecting with exponential backoff, and a socket that keeps going over a
    succession of connections without ever mixing their bytes. */
module Reconnecting {
  import opened Awaiting
  import opened Bytes
  import opened Framing
  import opened Messages
  import opened Transport

  datatype ReconnectOptions = ReconnectOptions(minBackoff: nat, maxBackoff: nat, maxAttempts: Option<nat>)

  /** What one attempt to connect comes to: an error, or a byte stream past its
      handshake. */
  datatype Dial = Refused | Accepted(format: Format, inner: Stream)

  /** `Interrupted`: the future was dropped before an attempt came to an end. */
  datatype ReconnectResult = Reconnected | Exhausted | Interrupted

  // ── Backoff ─────────────────────────────────────────────────────────────

  function Pow2(k: nat): (n: nat)
    ensures n >= 1
  {
    if k == 0 then 1 else 2 * Pow2(k - 1)
  }

  /** The pause before attempt k, counting from 0. */
  function Delay(opts: ReconnectOptions, k: nat): nat {
    if k == 0 then opts.minBackoff else Min(opts.minBackoff * Pow2(k), opts.maxBackoff)
  }

  function Delays(opts: ReconnectOptions, n: nat): (ds: seq<nat>)
    ensures |ds| == n
    ensures forall k :: 0 <= k < n ==> ds[k] == Delay(opts, k)
  {
    seq(n, k requires 0 <= k < n => Delay(opts, k))
  }

  /** Doubling and capping at every step is doubling all the way and capping once. */
  lemma {:induction false} CappedDoubling(opts: ReconnectOptions, k: nat)
    ensures Delay(opts, 0) == opts.minBackoff
    ensures Delay(opts, k + 1) == Min(Delay(opts, k) * 2, opts.maxBackoff)
  {
    assert opts.minBackoff * Pow2(k + 1) == 2 * (opts.minBackoff * Pow2(k));
  }

  /** `max_backoff` bounds every pause between attempts; the pause before the first
      one is `min_backoff`, so it bounds all of them exactly when `min_backoff` is
      no larger. */
  lemma {:induction false} DelayIsBounded(opts: ReconnectOptions)
    ensures forall k: nat :: k >= 1 ==> Delay(opts, k) <= opts.maxBackoff
    ensures (forall k: nat :: Delay(opts, k) <= opts.maxBackoff) <==> opts.minBackoff <= opts.maxBackoff
  {
    if opts.minBackoff > opts.maxBackoff {
      assert Delay(opts, 0) > opts.maxBackoff;
    }
  }

  /** While the options are in that order, pauses never get shorter. */
  lemma {:induction false} DelaysGrow(opts: ReconnectOptions, j: nat, k: nat)
    requires opts.minBackoff <= opts.maxBackoff && j <= k
    ensures Delay(opts, j) <= Delay(opts, k)
    decreases k
  {
    if j < k {
      DelaysGrow(opts, j, k - 1);
      CappedDoubling(opts, k - 1);
      DelayIsBounded(opts);
    }
  }

  /** The number of refusals before the first attempt that succeeds. */
  function Refusals(dials: seq<Dial>): (n: nat)
    ensures n <= |dials|
    ensures forall k :: 0 <= k < n ==> dials[k].Refused?
    ensures n < |dials| ==> dials[n].Accepted?
  {
    if dials == [] || dials[0].Accepted? then 0 else 1 + Refusals(dials[1..])
  }

  /** After this many refusals the limit is used up; even a limit of 0 allows
      one attempt. */
  predicate UsesUp(limit: Option<nat>, refusals: nat) {
    limit.Some? && refusals >= limit.value && refusals >= 1
  }

  /** What a reconnect comes to is decided by the limit and the number of refusals
      to come.  On success, and only then, the transport is replaced, by one that
      has read nothing yet; at most max(limit, 1) attempts are used up. */
  function AfterReconnect(conn: Conn, dials: seq<Dial>, opts: ReconnectOptions): (r: (Conn, seq<Dial>, ReconnectResult))
    ensures |r.1| <= |dials| && r.1 == dials[|dials| - |r.1|..]
    ensures r.2.Reconnected? ==> r.0 == NewConn(r.0.format, r.0.inner)
    ensures !r.2.Reconnected? ==> r.0 == conn
  {
    var n := Refusals(dials);
    if UsesUp(opts.maxAttempts, n) then (conn, dials[Attempts(opts.maxAttempts.value)..], Exhausted)
    else if n < |dials| then (NewConn(dials[n].format, dials[n].inner), dials[n + 1..], Reconnected)
    else (conn, [], Interrupted)
  }

  /** The outcome, said of the list of attempts.  A success puts in place a new
      transport on the stream of the first attempt accepted, and the attempts behind
      it are left; giving up takes exactly max(limit, 1) refusals; in either other
      case the transport stays what it was. */
  predicate IsOutcome(conn: Conn, dials: seq<Dial>, opts: ReconnectOptions,
                      conn': Conn, dials': seq<Dial>, r: ReconnectResult)
  {
    && |dials'| <= |dials|
    && EndsAfter(conn, dials, opts, |dials| - |dials'|, conn', dials', r)
  }

  /** The same, with the number of attempts used up. */
  predicate EndsAfter(conn: Conn, dials: seq<Dial>, opts: ReconnectOptions, used: nat,
                      conn': Conn, dials': seq<Dial>, r: ReconnectResult)
  {
    && used <= |dials| && dials' == dials[used..]
    && match r
       case Reconnected =>
         && used >= 1 && FirstRefused(dials, used - 1) && dials[used - 1].Accepted?
         && conn' == NewConn(dials[used - 1].format, dials[used - 1].inner)
         && (opts.maxAttempts.Some? ==> used <= Attempts(opts.maxAttempts.value))
       case Exhausted =>
         && FirstRefused(dials, used) && conn' == conn
         && opts.maxAttempts.Some? && used == Attempts(opts.maxAttempts.value)
       case Interrupted =>
         && FirstRefused(dials, |dials|) && conn' == conn && used == |dials|
         && (opts.maxAttempts.Some? ==> used < Attempts(opts.maxAttempts.value))
  }

  predicate FirstRefused(dials: seq<Dial>, n: nat) {
    n <= |dials| && forall k :: 0 <= k < n ==> dials[k].Refused?
  }

  lemma {:induction false} ReconnectHasOutcome(conn: Conn, dials: seq<Dial>, opts: ReconnectOptions)
    ensures var r := AfterReconnect(conn, dials, opts); IsOutcome(conn, dials, opts, r.0, r.1, r.2)
  {
    var n := Refusals(dials);
    var r := AfterReconnect(conn, dials, opts);
    var used := if UsesUp(opts.maxAttempts, n) then Attempts(opts.maxAttempts.value) else if n < |dials| then n + 1 else n;
    assert EndsAfter(conn, dials, opts, used, r.0, r.1, r.2);
    hide EndsAfter, AfterReconnect;
    assert |dials| - |r.1| == used;
  }

  /** That leaves no choice. */
  lemma {:induction false} OneOutcome(conn: Conn, dials: seq<Dial>, opts: ReconnectOptions,
                                      c: Conn, left: seq<Dial>, r: ReconnectResult)
    requires IsOutcome(conn, dials, opts, c, left, r)
    ensures (c, left, r) == AfterReconnect(conn, dials, opts)
  {
    OneEnd(conn, dials, opts, |dials| - |left|, c, left, r);
  }

  lemma {:induction false} OneEnd(conn: Conn, dials: seq<Dial>, opts: ReconnectOptions, used: nat,
                                  c: Conn, left: seq<Dial>, r: ReconnectResult)
    requires EndsAfter(conn, dials, opts, used, c, left, r)
    ensures (c, left, r) == AfterReconnect(conn, dials, opts)
  {
    RefusalsAre(dials, used, r);
    if r.Interrupted? {
      assert dials[|dials|..] == [];
    }
  }

  lemma {:induction false} RefusalsAre(dials: seq<Dial>, used: nat, r: ReconnectResult)
    requires used <= |dials| && (r.Reconnected? ==> used >= 1 && FirstRefused(dials, used - 1) && dials[used - 1].Accepted?)
    requires !r.Reconnected? ==> FirstRefused(dials, used)
    ensures if r.Reconnected? then Refusals(dials) == used - 1 else Refusals(dials) >= used
  {
  }

  function Attempts(limit: nat): nat {
    if limit == 0 then 1 else limit
  }

  /** `max_attempts` bounds the attempts exactly when it is not 0. */
  lemma {:induction false} AttemptsWithinLimitIff(conn: Conn, dials: seq<Dial>, opts: ReconnectOptions)
    requires opts.maxAttempts.Some? && dials != []
    ensures |dials| - |AfterReconnect(conn, dials, opts).1| <= opts.maxAttempts.value <==> opts.maxAttempts.value >= 1
  {
    var n := Refusals(dials);
    if opts.maxAttempts.value == 0 {
      assert n == 0 ==> n < |dials|;
    }
  }

  /** With a limit of 0, one attempt is made before giving up. */
  lemma {:induction false} ZeroLimitMakesOneAttempt(conn: Conn, min: nat, max: nat)
    ensures AfterReconnect(conn, [Refused, Refused], ReconnectOptions(min, max, Some(0))) == (conn, [Refused], Exhausted)
  {
    assert [Refused, Refused][1..] == [Refused];
    assert Refusals([Refused, Refused]) >= 1;
  }

  ghost predicate ReconnectSpec(conn: Conn, dials: seq<Dial>, opts: ReconnectOptions,
                                conn': Conn, dials': seq<Dial>, slept: seq<nat>, r: ReconnectResult)
  {
    && (conn', dials', r) == AfterReconnect(conn, dials, opts)
    && slept == Delays(opts, |dials| - |dials'| + if r.Interrupted? then 1 else 0)
  }

  /** Connect again, pausing before every attempt. */
  method ReconnectTransport(conn: Conn, dials: seq<Dial>, opts: ReconnectOptions)
    returns (conn': Conn, dials': seq<Dial>, slept: seq<nat>, r: ReconnectResult)
    ensures ReconnectSpec(conn, dials, opts, conn', dials', slept, r)
    ensures IsOutcome(conn, dials, opts, conn', dials', r)
    ensures slept != [] && slept[0] == opts.minBackoff
    ensures forall k :: 0 <= k < |slept| - 1 ==> slept[k + 1] == Min(slept[k] * 2, opts.maxBackoff)
    ensures opts.maxAttempts.Some? ==> |slept| <= Attempts(opts.maxAttempts.value)
  {
    hide IsOutcome;
    ReconnectHasOutcome(conn, dials, opts);
    conn', dials', slept := conn, dials, [];
    var backoff := opts.minBackoff;
    var attempts := 0;
    while true
      invariant attempts == |slept| <= |dials| && dials' == dials[attempts..]
      invariant attempts <= Refusals(dials) && !UsesUp(opts.maxAttempts, attempts)
      invariant slept == Delays(opts, attempts) && backoff == Delay(opts, attempts)
      invariant slept == [] ==> backoff == opts.minBackoff
      invariant slept != [] ==> slept[0] == opts.minBackoff && backoff == Min(slept[|slept| - 1] * 2, opts.maxBackoff)
      invariant forall k :: 0 <= k < |slept| - 1 ==> slept[k + 1] == Min(slept[k] * 2, opts.maxBackoff)
      decreases |dials'|
    {
      slept := slept + [backoff];
      assert slept == Delays(opts, attempts + 1);
      if dials' == [] {
        return conn, [], slept, Interrupted;
      }
      var dial := dials'[0];
      dials' := dials'[1..];
      if dial.Accepted? {
        return NewConn(dial.format, dial.inner), dials', slept, Reconnected;
      }
      CappedDoubling(opts, attempts);
      attempts := attempts + 1;
      if opts.maxAttempts.Some? && attempts >= opts.maxAttempts.value {
        return conn, dials', slept, Exhausted;
      }
      backoff := Min(backoff * 2, opts.maxBackoff);
    }
  }

  // ── A succession of connections ─────────────────────────────────────────

  /** The connections a socket has had: those given up, what each one's stream
      brings or brought in all, and the messages heard. */
  datatype History = History(closed: seq<Conn>, brought: seq<seq<byte>>, heard: seq<seq<byte>>)

  /** The payloads among parser events. */
  function PayloadsIn(es: seq<Event>): seq<seq<byte>> {
    if es == [] then []
    else (if es[0].Payload? then [es[0].data] else []) + PayloadsIn(es[1..])
  }

  lemma {:induction false} PayloadsInAppend(a: seq<Event>, b: seq<Event>)
    ensures PayloadsIn(a + b) == PayloadsIn(a) + PayloadsIn(b)
    decreases |a|
  {
    if a == [] {
      assert a + b == b;
    } else {
      assert (a + b)[1..] == a[1..] + b;
      PayloadsInAppend(a[1..], b);
    }
  }

  /** One connection after the other, each by the plain parse of its own bytes. */
  ghost function PartsOn(conns: seq<Conn>): (parts: seq<seq<seq<byte>>>)
    ensures |parts| == |conns|
    ensures forall i :: 0 <= i < |conns| ==> parts[i] == PayloadsIn(Delivered(conns[i]))
  {
    seq(|conns|, i requires 0 <= i < |conns| => PayloadsIn(Delivered(conns[i])))
  }

  function Flat(parts: seq<seq<seq<byte>>>): seq<seq<byte>> {
    if parts == [] then [] else Flat(parts[..|parts| - 1]) + parts[|parts| - 1]
  }

  lemma {:induction false} PartsLast(closed: seq<Conn>, c: Conn)
    ensures Flat(PartsOn(closed + [c])) == Flat(PartsOn(closed)) + PayloadsIn(Delivered(c))
  {
    var parts := PartsOn(closed + [c]);
    assert parts[..|closed|] == PartsOn(closed);
    assert parts[|closed|] == PayloadsIn(Delivered(c));
  }

  /** A connection reads what its own stream brings, from the start. */
  ghost predicate ReadsOwn(c: Conn, brought: seq<byte>) {
    ConnOk(c) && c.consumed + c.inner.input == brought
  }

  ghost predicate HistoryOk(h: History, transport: Conn) {
    && |h.brought| == |h.closed| + 1
    && (forall i :: 0 <= i < |h.closed| ==> ReadsOwn(h.closed[i], h.brought[i]))
    && ReadsOwn(transport, h.brought[|h.closed|])
    && h.heard == Flat(PartsOn(h.closed)) + PayloadsIn(Delivered(transport))
  }

  function Begun(c: Conn): History {
    History([], [c.inner.input], [])
  }

  function Heard(h: History, o: Outcome): History {
    h.(heard := h.heard + PayloadsIn(EventsOf(o)))
  }

  function Replaced(h: History, old_: Conn, fresh_: Conn): History {
    History(h.closed + [old_], h.brought + [fresh_.inner.input], h.heard)
  }

  lemma {:induction false} FreshReadsOwn(c: Conn)
    requires c == NewConn(c.format, c.inner)
    ensures ReadsOwn(c, c.inner.input) && Delivered(c) == []
  {
    assert ParseAll(c.format, []) == Parsed([], []);
  }

  lemma {:induction false} HistoryBegins(c: Conn)
    requires c == NewConn(c.format, c.inner)
    ensures HistoryOk(Begun(c), c)
  {
    FreshReadsOwn(c);
  }

  lemma {:induction false} HistoryAdvances(h: History, c: Conn, c': Conn, o: Outcome)
    requires HistoryOk(h, c) && Advanced(c, c', EventsOf(o))
    ensures HistoryOk(Heard(h, o), c')
  {
    hide ParseAll, PartsOn, Flat, PayloadsIn;
    PayloadsInAppend(Delivered(c), EventsOf(o));
  }

  lemma {:induction false} NothingHeard(h: History, o: Outcome)
    requires !o.Received?
    ensures Heard(h, o) == h
  {
    assert PayloadsIn(EventsOf(o)) == [];
    assert h.heard + [] == h.heard;
  }

  /** Sending changes nothing about what is read. */
  lemma {:induction false} HistoryKeeps(h: History, c: Conn, c': Conn)
    requires HistoryOk(h, c) && c'.format == c.format && c'.part == c.part && c'.consumed == c.consumed
    requires c'.inner.input == c.inner.input
    ensures HistoryOk(h, c')
  {
  }

  lemma {:induction false} HistoryReplaces(h: History, c: Conn, c': Conn)
    requires HistoryOk(h, c) && c' == NewConn(c'.format, c'.inner)
    ensures HistoryOk(Replaced(h, c, c'), c')
  {
    FreshReadsOwn(c');
    PartsLast(h.closed, c);
  }

  ghost predicate EachBegins(parts: seq<seq<seq<byte>>>, sent: seq<seq<seq<byte>>>) {
    |parts| == |sent| && forall i :: 0 <= i < |parts| ==> parts[i] <= sent[i]
  }

  ghost predicate EachReadsOwn(conns: seq<Conn>, brought: seq<seq<byte>>) {
    |conns| == |brought| && forall i :: 0 <= i < |conns| ==> ReadsOwn(conns[i], brought[i])
  }

  /** The i-th stream brings `sent[i]`, framed, and may break off anywhere. */
  ghost predicate Brings(conns: seq<Conn>, brought: seq<seq<byte>>, sent: seq<seq<seq<byte>>>) {
    && |conns| == |brought| == |sent|
    && forall i :: 0 <= i < |conns| ==> Deliverable(sent[i]) && brought[i] <= Wire(conns[i].format, sent[i])
  }

  lemma {:induction false} AllReadOwn(h: History, transport: Conn)
    requires HistoryOk(h, transport)
    ensures EachReadsOwn(h.closed + [transport], h.brought)
  {
  }

  /** Every message heard is one complete frame of a single connection: for a
      socket that had n connections whose peers framed `sent[i]` on the i-th,
      possibly broken off in the middle of a frame, what it heard is a prefix of
      sent[0], then a prefix of sent[1], and so on. */
  lemma {:induction false} BytesOfConnectionsNeverMix(h: History, transport: Conn, sent: seq<seq<seq<byte>>>)
    requires HistoryOk(h, transport) && Brings(h.closed + [transport], h.brought, sent)
    ensures var parts := PartsOn(h.closed + [transport]);
            EachBegins(parts, sent) && h.heard == Flat(parts)
  {
    PartsLast(h.closed, transport);
    AllReadOwn(h, transport);
    PartsBegin(h.closed + [transport], h.brought, sent);
  }

  lemma {:induction false} PartsBegin(conns: seq<Conn>, brought: seq<seq<byte>>, sent: seq<seq<seq<byte>>>)
    requires EachReadsOwn(conns, brought) && Brings(conns, brought, sent)
    ensures EachBegins(PartsOn(conns), sent)
  {
    forall i | 0 <= i < |conns|
      ensures PartsOn(conns)[i] <= sent[i]
    {
      HeardIsPrefix(conns[i], brought[i], sent[i]);
    }
  }

  /** One connection: the payloads heard are the first ones sent. */
  lemma {:induction false} HeardIsPrefix(c: Conn, brought: seq<byte>, sent: seq<seq<byte>>)
    requires ReadsOwn(c, brought) && Deliverable(sent) && brought <= Wire(c.format, sent)
    ensures PayloadsIn(Delivered(c)) <= sent
  {
    WireParses(c.format, sent);
    ParsePrefix(c.format, c.consumed, Wire(c.format, sent));
    var n := |Delivered(c)|;
    assert Delivered(c) == Payloads(sent)[..n];
    AllPayloads(Delivered(c), sent[..n]);
  }

  lemma {:induction false} AllPayloads(es: seq<Event>, ps: seq<seq<byte>>)
    requires |es| == |ps| && forall i :: 0 <= i < |es| ==> es[i] == Payload(ps[i])
    ensures PayloadsIn(es) == ps
    decreases |es|
  {
    if es != [] {
      AllPayloads(es[1..], ps[1..]);
    }
  }

  /** On a new connection whose peer sent `sent`, the first message received is the
      first one sent; it is received exactly when the schedule brings it in time. */
  lemma {:induction false} NewConnectionStartsOver(conn: Conn, dials: seq<Dial>, opts: ReconnectOptions,
                                                   sent: seq<seq<byte>>, rounds: nat)
    requires var (_, left, r) := AfterReconnect(conn, dials, opts);
             r.Reconnected? && var d := dials[|dials| - |left| - 1]; d.inner.input == Wire(d.format, sent)
    requires sent != [] && Deliverable(sent)
    ensures var c := AfterReconnect(conn, dials, opts).0;
            var o := Await(FRAMED, c, rounds).1;
            && (o.Received? ==> o.msg == Msg([], sent[0]))
            && (o.Received? <==> ArrivesOn(c.format, [], c.inner, sent[0], rounds))
  {
    ReconnectHasOutcome(conn, dials, opts);
    FirstSentIsFirst(AfterReconnect(conn, dials, opts).0, sent, rounds);
  }

  lemma {:induction false} FirstSentIsFirst(c: Conn, sent: seq<seq<byte>>, rounds: nat)
    requires c == NewConn(c.format, c.inner) && c.inner.input == Wire(c.format, sent)
    requires sent != [] && Deliverable(sent)
    ensures var o := Await(FRAMED, c, rounds).1;
            && (o.Received? ==> o.msg == Msg([], sent[0]))
            && (o.Received? <==> ArrivesOn(c.format, [], c.inner, sent[0], rounds))
  {
    assert sent[0] in sent;
    assert [] + c.inner.input == FrameBytes(c.format, sent[0]) + Wire(c.format, sent[1..]);
    ReadyMessageArrives(c, sent[0], Wire(c.format, sent[1..]), rounds);
  }

  // ── The socket ──────────────────────────────────────────────────────────

  /** `conn` is a new transport on the first stream accepted, and a message received
      from it is the first of those framed on that stream. */
  ghost predicate FromFirstAccepted(dials: seq<Dial>, conn: Conn, o: Outcome) {
    && IsFirstAccepted(dials, conn)
    && (o.Received? ==>
          forall sent :: sent != [] && Deliverable(sent) && conn.inner.input == Wire(conn.format, sent)
                         ==> o.msg == Msg([], sent[0]))
  }

  predicate IsFirstAccepted(dials: seq<Dial>, conn: Conn) {
    exists n :: 0 <= n < |dials| && FirstRefused(dials, n) && dials[n].Accepted?
                && conn == NewConn(dials[n].format, dials[n].inner)
  }

  lemma {:induction false} ReceivesFirstSent(dials: seq<Dial>, conn: Conn, o: Outcome, rounds: nat)
    requires var n := Refusals(dials); n < |dials| && conn == NewConn(dials[n].format, dials[n].inner)
    requires o == Await(FRAMED, conn, rounds).1
    ensures FromFirstAccepted(dials, conn, o)
  {
    assert FirstRefused(dials, Refusals(dials));
    forall sent | sent != [] && Deliverable(sent) && conn.inner.input == Wire(conn.format, sent) && o.Received?
      ensures o.msg == Msg([], sent[0])
    {
      FirstSentIsFirst(conn, sent, rounds);
    }
  }

  /** A send ends with success or an error, or is still waiting for a connection. */
  datatype SendOutcome = Ended(error: Option<TransportError>) | StillConnecting

  class Socket {
    var transport: Conn
    const reconnect: Option<ReconnectOptions>

    /** How the attempts to connect that are still to come will end. */
    var dials: seq<Dial>
    ghost var history: History

    ghost predicate Valid()
      reads this
    {
      HistoryOk(history, transport)
    }

    constructor (format: Format, inner: Stream, reconnect: Option<ReconnectOptions>, dials: seq<Dial>)
      ensures Valid() && transport == NewConn(format, inner) && history == Begun(transport)
      ensures this.reconnect == reconnect && this.dials == dials
    {
      transport, history := NewConn(format, inner), Begun(NewConn(format, inner));
      this.reconnect, this.dials := reconnect, dials;
      HistoryBegins(NewConn(format, inner));
    }

    /** Replace the transport, or leave it as it is. */
    method DoReconnect() returns (r: ReconnectResult, ghost slept: seq<nat>)
      requires Valid() && reconnect.Some?
      modifies this
      ensures Valid()
      ensures ReconnectSpec(old(transport), old(dials), reconnect.value, transport, dials, slept, r)
      ensures history == if r.Reconnected? then Replaced(old(history), old(transport), transport) else old(history)
    {
      var opts := reconnect.value;
      var conn, rest, pauses, outcome := ReconnectTransport(transport, dials, opts);
      if outcome.Reconnected? {
        HistoryReplaces(history, transport, conn);
        history := Replaced(history, transport, conn);
      }
      transport, dials, slept, r := conn, rest, pauses, outcome;
    }

    method Recv(rounds: nat) returns (o: Outcome)
      requires Valid()
      modifies this`transport, this`history
      ensures Valid() && (transport, o) == Await(FRAMED, old(transport), rounds)
      ensures history == Heard(old(history), o)
    {
      AtMostOneMessage(transport, rounds);
      var (c, outcome) := Await(FRAMED, transport, rounds);
      HistoryAdvances(history, transport, c, outcome);
      transport, history := c, Heard(history, outcome);
      o := outcome;
    }

    /** Receive a message; after a failure, reconnect and try once more.  The future
        is dropped, and gives nothing, when it has polled a transport `rounds` times
        in vain or when no attempt to connect comes to an end. */
    method RecvRaw(rounds: nat)
      returns (o: Outcome, ghost r: Option<ReconnectResult>, ghost conn: Conn, ghost slept: seq<nat>)
      requires Valid()
      modifies this
      ensures Valid()
      ensures history.heard == old(history).heard + PayloadsIn(EventsOf(o))
      ensures var (c, first) := Await(FRAMED, old(transport), rounds);
              && r.Some? == (first.Failed? && reconnect.Some?)
              && (r.None? ==> (transport, o) == (c, first) && history == Heard(old(history), o) && dials == old(dials))
              && (r.Some? ==>
                    && ReconnectSpec(c, old(dials), reconnect.value, conn, dials, slept, r.value)
                    && if r == Some(Reconnected)
                       then (transport, o) == Await(FRAMED, conn, rounds)
                            && history == Heard(Replaced(old(history), c, conn), o)
                       else transport == conn == c && history == old(history)
                            && o == if r == Some(Interrupted) then Pending else first)
      ensures r == Some(Reconnected) ==> FromFirstAccepted(old(dials), conn, o)
    {
      o := Recv(rounds);
      r, conn, slept := None, transport, [];
      if o.Failed? && reconnect.Some? {
        NothingHeard(old(history), o);
        var outcome;
        o, outcome, conn, slept := RecvAgain(o, rounds);
        r := Some(outcome);
        if outcome.Reconnected? {
          ReceivesFirstSent(old(dials), conn, o, rounds);
        }
      }
    }

    method RecvAgain(error: Outcome, rounds: nat)
      returns (o: Outcome, r: ReconnectResult, ghost conn: Conn, ghost slept: seq<nat>)
      requires Valid() && error.Failed? && reconnect.Some?
      modifies this
      ensures Valid() && ReconnectSpec(old(transport), old(dials), reconnect.value, conn, dials, slept, r)
      ensures r.Reconnected? ==> (transport, o) == Await(FRAMED, conn, rounds)
      ensures r.Reconnected? ==> history == Heard(Replaced(old(history), old(transport), conn), o)
      ensures !r.Reconnected? ==> transport == conn == old(transport) && history == old(history)
      ensures !r.Reconnected? ==> o == if r.Interrupted? then Pending else error
    {
      r, slept := DoReconnect();
      conn, o := transport, error;
      if r.Reconnected? {
        o := Recv(rounds);
      } else if r.Interrupted? {
        o := Pending;
      }
    }

    /** Send a message; after a failure, reconnect and send it again.  Success means
        that it is on the stream in one piece, on a fresh connection if need be; a
        piece of it left on the old one is never continued. */
    method SendRaw(msg: Msg)
      returns (o: SendOutcome, ghost r: Option<ReconnectResult>, ghost conn: Conn, ghost slept: seq<nat>)
      requires Valid()
      modifies this
      ensures Valid() && history.heard == old(history).heard
      ensures var (c, first) := SendOn(old(transport), msg);
              && r.Some? == (first.Some? && reconnect.Some?)
              && (r.None? ==> transport == c && o == Ended(first) && history == old(history) && dials == old(dials))
              && (r.Some? ==>
                    && ReconnectSpec(c, old(dials), reconnect.value, conn, dials, slept, r.value)
                    && if r == Some(Reconnected)
                       then transport == SendOn(conn, msg).0 && o == Ended(SendOn(conn, msg).1)
                            && history == Replaced(old(history), c, conn)
                       else transport == conn == c && history == old(history)
                            && o == if r == Some(Interrupted) then StillConnecting else Ended(first))
      ensures r == Some(Reconnected) ==> IsFirstAccepted(old(dials), conn)
    {
      SendWritesOneFrame(transport, msg);
      var (c, first) := SendOn(transport, msg);
      HistoryKeeps(history, transport, c);
      transport, o := c, Ended(first);
      r, conn, slept := None, c, [];
      if first.Some? && reconnect.Some? {
        var outcome;
        outcome, slept := DoReconnect();
        r, conn := Some(outcome), transport;
        if outcome.Reconnected? {
          assert FirstRefused(old(dials), Refusals(old(dials)));
          SendWritesOneFrame(transport, msg);
          var (c2, second) := SendOn(transport, msg);
          HistoryKeeps(history, transport, c2);
          transport, o := c2, Ended(second);
        } else if outcome.Interrupted? {
          o := StillConnecting;
        }
      }
    }
  }
}
