/** PUB0 and SUB0: a publisher with a changing set of subscribers, and a subscriber
    that filters what it receives. */
module PubSub {
  import opened Awaiting
  import opened Bus
  import opened Bytes
  import opened Framing
  import opened Messages
  import opened Reconnecting
  import opened TopicFilter
  import opened Transport

  // ── The publisher over whole runs ───────────────────────────────────────

  /** A subscriber joined after `since` messages had been published. */
  datatype Joined = Joined(conn: Conn, since: nat)

  /** The subscribers on which every message since they joined was sent with
      success, in the state those sends left them in. */
  function Remaining(joined: seq<Joined>, published: seq<Msg>): seq<Conn> {
    if joined == [] then []
    else StillThere(joined[0], published) + Remaining(joined[1..], published)
  }

  function StillThere(j: Joined, published: seq<Msg>): seq<Conn> {
    var (c, e) := SendEach(j.conn, published[Min(j.since, |published|)..]);
    if e.None? then [c] else []
  }

  function JoinNow(arrivals: seq<Conn>, since: nat): (js: seq<Joined>)
    ensures |js| == |arrivals|
    ensures forall i :: 0 <= i < |js| ==> js[i] == Joined(arrivals[i], since)
  {
    seq(|arrivals|, i requires 0 <= i < |arrivals| => Joined(arrivals[i], since))
  }

  lemma {:induction false} SendEachLast(c: Conn, ms: seq<Msg>, m: Msg)
    ensures SendEach(c, ms + [m]) == if SendEach(c, ms).1.Some? then SendEach(c, ms) else SendOn(SendEach(c, ms).0, m)
    decreases |ms|
  {
    if ms == [] {
      assert [] + [m] == [m] && [m][1..] == [];
      assert SendEach(SendOn(c, m).0, []) == (SendOn(c, m).0, None);
    } else {
      assert (ms + [m])[1..] == ms[1..] + [m];
      SendEachLast(SendOn(c, ms[0]).0, ms[1..], m);
    }
  }

  lemma {:induction false} OneMoreMessage(j: Joined, published: seq<Msg>, m: Msg)
    requires j.since <= |published|
    ensures StillThere(j, published + [m]) == Survivors(SendOn, StillThere(j, published), m)
  {
    assert (published + [m])[j.since..] == published[j.since..] + [m];
    SendEachLast(j.conn, published[j.since..], m);
    OneAttempt(SendOn, SendEach(j.conn, published[j.since..]).0, m);
  }

  /** Publishing one more message to those who remain. */
  lemma {:induction false} RemainingAfter(joined: seq<Joined>, published: seq<Msg>, m: Msg)
    requires forall j :: j in joined ==> j.since <= |published|
    ensures Remaining(joined, published + [m]) == Survivors(SendOn, Remaining(joined, published), m)
    decreases |joined|
  {
    if joined != [] {
      OneMoreMessage(joined[0], published, m);
      RemainingAfter(joined[1..], published, m);
      SurvivorsAppend(SendOn, StillThere(joined[0], published), Remaining(joined[1..], published), m);
    }
  }

  lemma {:induction false} RemainingAppend(a: seq<Joined>, b: seq<Joined>, published: seq<Msg>)
    ensures Remaining(a + b, published) == Remaining(a, published) + Remaining(b, published)
    decreases |a|
  {
    if a == [] {
      assert a + b == b;
    } else {
      assert (a + b)[1..] == a[1..] + b;
      RemainingAppend(a[1..], b, published);
    }
  }

  /** Newcomers remain, untouched, until something is published. */
  lemma {:induction false} NewcomersRemain(arrivals: seq<Conn>, published: seq<Msg>)
    ensures Remaining(JoinNow(arrivals, |published|), published) == arrivals
    decreases |arrivals|
  {
    if arrivals != [] {
      var now := JoinNow(arrivals, |published|);
      assert now[1..] == JoinNow(arrivals[1..], |published|);
      NewcomersRemain(arrivals[1..], published);
      assert published[|published|..] == [];
      assert StillThere(now[0], published) == [arrivals[0]];
    }
  }

  class Pub0 {
    var subscribers: seq<Conn>
    ghost var joined: seq<Joined>
    ghost var published: seq<Msg>

    /** The list is exactly those on whom no send has failed since they joined. */
    ghost predicate Valid()
      reads this
    {
      && (forall j :: j in joined ==> j.since <= |published|)
      && multiset(subscribers) == multiset(Remaining(joined, published))
    }

    constructor ()
      ensures Valid() && joined == [] && published == []
    {
      subscribers, joined, published := [], [], [];
    }

    /** Accept the connections that have come in. */
    method DrainIncoming(arrivals: seq<Conn>)
      requires Valid()
      modifies this
      ensures Valid() && published == old(published)
      ensures subscribers == old(subscribers) + arrivals
      ensures joined == old(joined) + JoinNow(arrivals, |published|)
    {
      NewcomersRemain(arrivals, published);
      RemainingAppend(joined, JoinNow(arrivals, |published|), published);
      joined := joined + JoinNow(arrivals, |published|);
      subscribers := subscribers + arrivals;
    }

    /** Publish to all connected subscribers; drop those whose connection broke. */
    method Publish(msg: Msg, arrivals: seq<Conn>)
      requires Valid()
      modifies this
      ensures Valid() && published == old(published) + [msg]
      ensures joined == old(joined) + JoinNow(arrivals, |old(published)|)
      ensures multiset(subscribers) == multiset(Survivors(SendOn, old(subscribers) + arrivals, msg))
    {
      DrainIncoming(arrivals);
      ghost var broken;
      ghost var before := subscribers;
      subscribers, broken := FanOut(SendOn, subscribers, msg);
      SurvivorsOfPermutation(SendOn, before, Remaining(joined, published), msg);
      RemainingAfter(joined, published, msg);
      published := published + [msg];
    }
  }

  // ── The subscriber ──────────────────────────────────────────────────────

  /** A message read, and the subscription changes made before it was. */
  datatype Reading = Reading(body: seq<byte>, changes: seq<Change>)

  /** The readings that some topic subscribed at the time is a prefix of. */
  ghost function Matching(read: seq<Reading>): seq<seq<byte>> {
    if read == [] then []
    else
      var last := read[|read| - 1];
      Matching(read[..|read| - 1]) + if Passes(last.changes, last.body) then [last.body] else []
  }

  function Bodies(read: seq<Reading>): (bs: seq<seq<byte>>)
    ensures |bs| == |read|
    ensures forall i :: 0 <= i < |read| ==> bs[i] == read[i].body
  {
    seq(|read|, i requires 0 <= i < |read| => read[i].body)
  }

  function Times(read: seq<Reading>): (at: seq<seq<Change>>)
    ensures |at| == |read|
    ensures forall i :: 0 <= i < |read| ==> at[i] == read[i].changes
  {
    seq(|read|, i requires 0 <= i < |read| => read[i].changes)
  }

  /** Of the first messages sent, the payloads that pass the filter; the i-th is
      judged by the changes made before its own time `at[i]`. */
  ghost function Picked(ms: seq<Msg>, at: seq<seq<Change>>): seq<seq<byte>>
    requires |at| <= |ms|
    decreases |at|
  {
    if at == [] then []
    else
      var n := |at| - 1;
      Picked(ms, at[..n]) + if Passes(at[n], PayloadOf(ms[n])) then [PayloadOf(ms[n])] else []
  }

  lemma {:induction false} MatchingIsPicked(read: seq<Reading>, ms: seq<Msg>)
    requires |read| <= |ms| && forall i :: 0 <= i < |read| ==> read[i].body == PayloadOf(ms[i])
    ensures Matching(read) == Picked(ms, Times(read))
    decreases |read|
  {
    if read != [] {
      var n := |read| - 1;
      MatchingIsPicked(read[..n], ms);
      assert Times(read)[..n] == Times(read[..n]);
    }
  }

  lemma {:induction false} MatchingLast(read: seq<Reading>, r: Reading)
    ensures Matching(read + [r]) == Matching(read) + if Passes(r.changes, r.body) then [r.body] else []
    ensures Bodies(read + [r]) == Bodies(read) + [r.body]
  {
    assert (read + [r])[..|read|] == read;
  }

  lemma {:induction false} HeardOne(h: History, m: Msg)
    ensures Heard(h, Received(m)).heard == h.heard + [m.body]
  {
    assert [Payload(m.body)][1..] == [];
    assert PayloadsIn([Payload(m.body)]) == [m.body] + PayloadsIn([]);
  }

  /** All that was read from then on was judged by these changes. */
  ghost predicate ReadUnder(earlier: seq<Reading>, now: seq<Reading>, changes: seq<Change>) {
    earlier <= now && forall k :: |earlier| <= k < |now| ==> now[k].changes == changes
  }

  lemma {:induction false} ReadUnderMore(earlier: seq<Reading>, now: seq<Reading>, body: seq<byte>,
                                         changes: seq<Change>)
    requires ReadUnder(earlier, now, changes)
    ensures ReadUnder(earlier, now + [Reading(body, changes)], changes)
  {
  }

  datatype NextResult = NotYet | Next(msg: Msg) | TransportFailed(error: TransportError) | ReconnectExhausted

  /** One poll of `next`, and what it does about it; None is to go on. */
  ghost function NextStep(changes: seq<Change>, reconnect: Option<ReconnectOptions>, c: Conn, dials: seq<Dial>)
    : (Conn, seq<Dial>, Option<NextResult>)
  {
    var (c', o) := Poll(c);
    if o.Failed? then AfterError(reconnect, c', dials, o.error)
    else (c', dials, if o.Received? && Passes(changes, o.msg.body) then Some(Next(o.msg)) else None)
  }

  function AfterError(reconnect: Option<ReconnectOptions>, c: Conn, dials: seq<Dial>, error: TransportError)
    : (Conn, seq<Dial>, Option<NextResult>)
  {
    if reconnect.None? then (c, dials, Some(TransportFailed(error)))
    else
      var (c', dials', r) := AfterReconnect(c, dials, reconnect.value);
      (c', dials', match r
                   case Reconnected => None
                   case Exhausted => Some(ReconnectExhausted)
                   case Interrupted => Some(NextResult.NotYet))
  }

  /** One step after the other, until one ends the call or the future is dropped. */
  ghost function Seek<C, D>(step: (C, D) -> (C, D, Option<NextResult>), c: C, d: D, rounds: nat): (C, D, NextResult)
    decreases rounds
  {
    if rounds == 0 then (c, d, NextResult.NotYet)
    else
      var (c', d', stop) := step(c, d);
      if stop.Some? then (c', d', stop.value) else Seek(step, c', d', rounds - 1)
  }

  lemma {:induction false} SeekUnfolds<C, D>(step: (C, D) -> (C, D, Option<NextResult>), c: C, d: D, rounds: nat,
                                             c': C, d': D, stop: Option<NextResult>)
    requires rounds > 0 && step(c, d) == (c', d', stop)
    ensures Seek(step, c, d, rounds) == if stop.Some? then (c', d', stop.value) else Seek(step, c', d', rounds - 1)
  {
  }

  lemma {:induction false} SeekEnds<C, D>(step: (C, D) -> (C, D, Option<NextResult>), c: C, d: D)
    ensures Seek(step, c, d, 0) == (c, d, NextResult.NotYet)
  {
  }

  ghost function StepWith(changes: seq<Change>, reconnect: Option<ReconnectOptions>)
    : (Conn, seq<Dial>) -> (Conn, seq<Dial>, Option<NextResult>)
  {
    (c, dials) => NextStep(changes, reconnect, c, dials)
  }

  ghost predicate Steps(step: (Conn, seq<Dial>) -> (Conn, seq<Dial>, Option<NextResult>),
                        changes: seq<Change>, reconnect: Option<ReconnectOptions>)
  {
    forall c, dials {:trigger NextStep(changes, reconnect, c, dials)} :: step(c, dials) == NextStep(changes, reconnect, c, dials)
  }

  lemma {:induction false} StepWithSteps(changes: seq<Change>, reconnect: Option<ReconnectOptions>)
    ensures Steps(StepWith(changes, reconnect), changes, reconnect)
  {
  }

  /** What an error leads to: without a reconnect, to the error itself, at once;
      otherwise to whatever the reconnect comes to, told apart. */
  predicate Recovered(reconnect: Option<ReconnectOptions>, c: Conn, dials: seq<Dial>, error: TransportError,
                      c': Conn, dials': seq<Dial>, stop: Option<NextResult>)
  {
    if reconnect.None? then (c', dials', stop) == (c, dials, Some(TransportFailed(error)))
    else
      match stop
      case None => IsOutcome(c, dials, reconnect.value, c', dials', Reconnected)
      case Some(ReconnectExhausted) => IsOutcome(c, dials, reconnect.value, c', dials', Exhausted)
      case Some(NotYet) => IsOutcome(c, dials, reconnect.value, c', dials', Interrupted)
      case Some(_) => false
  }

  lemma {:induction false} ErrorIsRecovered(reconnect: Option<ReconnectOptions>, c: Conn, dials: seq<Dial>,
                                            error: TransportError)
    ensures var (c', dials', stop) := AfterError(reconnect, c, dials, error);
            Recovered(reconnect, c, dials, error, c', dials', stop)
  {
    hide IsOutcome, AfterReconnect;
    if reconnect.Some? {
      ReconnectHasOutcome(c, dials, reconnect.value);
    }
  }

  /** How many polls a wait takes. */
  function PollsUsed(c: Conn, rounds: nat): (n: nat)
    ensures n <= rounds
    decreases rounds
  {
    if rounds == 0 then 0
    else 1 + if Poll(c).1.Pending? then PollsUsed(Poll(c).0, rounds - 1) else 0
  }

  /** `next` waits for the next message or error.  A message that matches is returned;
      after one that does not it goes on with the polls left, and so it does after
      an error that is recovered from. */
  lemma {:induction false} NextFollowsStream(changes: seq<Change>, reconnect: Option<ReconnectOptions>, c: Conn,
                                             dials: seq<Dial>, rounds: nat)
    ensures var (c', o) := Await(FRAMED, c, rounds);
            var left := rounds - PollsUsed(c, rounds);
            Seek(StepWith(changes, reconnect), c, dials, rounds)
            == match o
               case Pending => (c', dials, NextResult.NotYet)
               case Received(m) =>
                 if Passes(changes, m.body) then (c', dials, Next(m))
                 else Seek(StepWith(changes, reconnect), c', dials, left)
               case Failed(e) =>
                 var (c2, dials2, stop) := AfterError(reconnect, c', dials, e);
                 if stop.Some? then (c2, dials2, stop.value) else Seek(StepWith(changes, reconnect), c2, dials2, left)
    decreases rounds
  {
    hide Poll, Passes, AfterError;
    if rounds == 0 {
      SeekEnds(StepWith(changes, reconnect), c, dials);
    } else {
      var step := StepWith(changes, reconnect);
      var (c1, dials1, stop) := step(c, dials);
      SeekUnfolds(step, c, dials, rounds, c1, dials1, stop);
      if Poll(c).1.Pending? {
        NextFollowsStream(changes, reconnect, c1, dials, rounds - 1);
      }
    }
  }

  /** A matching message all of whose bytes arrive in time is returned, if nothing is
      before it on the stream. */
  lemma {:induction false} MatchingMessageIsReturned(changes: seq<Change>, reconnect: Option<ReconnectOptions>, c: Conn,
                                                     dials: seq<Dial>, payload: seq<byte>, rest: seq<byte>, rounds: nat)
    requires MidFrame(c.format, c.part, c.inner, payload, rest) && Passes(changes, payload)
    ensures Seek(StepWith(changes, reconnect), c, dials, rounds).2 == Next(Msg([], payload))
            <== ArrivesOn(c.format, c.part, c.inner, payload, rounds)
  {
    hide Poll, Passes, AfterError, Seek;
    ReadyMessageArrives(c, payload, rest, rounds);
    NextFollowsStream(changes, reconnect, c, dials, rounds);
  }

  class Sub0 {
    var transport: Conn
    const state: Sub0State
    const reconnect: Option<ReconnectOptions>
    var dials: seq<Dial>

    /** All connections so far, every message read, every message returned. */
    ghost var history: History
    ghost var read: seq<Reading>
    ghost var returned: seq<seq<byte>>

    ghost predicate Valid()
      reads this, state
    {
      && state.Valid() && HistoryOk(history, transport)
      && Bodies(read) == history.heard && returned == Matching(read)
    }

    constructor (format: Format, inner: Stream, reconnect: Option<ReconnectOptions>, dials: seq<Dial>)
      ensures Valid() && fresh(state) && state.changes == []
      ensures transport == NewConn(format, inner) && history == Begun(transport) && read == []
      ensures this.reconnect == reconnect && this.dials == dials
    {
      transport, history := NewConn(format, inner), Begun(NewConn(format, inner));
      this.reconnect, this.dials := reconnect, dials;
      state := new Sub0State();
      read, returned := [], [];
      HistoryBegins(NewConn(format, inner));
    }

    /** The next message that matches a subscription.  Others are read and dropped;
        a failed transport is replaced, if that is configured, and reading goes on.
        The future is dropped after `rounds` polls. */
    method NextMessage(rounds: nat) returns (r: NextResult)
      requires Valid()
      modifies this
      ensures Valid() && state.changes == old(state.changes)
      ensures (transport, dials, r) == Seek(StepWith(state.changes, reconnect), old(transport), old(dials), rounds)
      ensures ReadUnder(old(read), read, state.changes)
      ensures returned == old(returned) + if r.Next? then [r.msg.body] else []
      ensures reconnect.None? ==> history.closed == old(history).closed && history.brought == old(history).brought
    {
      StepWithSteps(state.changes, reconnect);
      r := Loop(StepWith(state.changes, reconnect), rounds);
    }

    method Loop(ghost step: (Conn, seq<Dial>) -> (Conn, seq<Dial>, Option<NextResult>),
                rounds: nat) returns (r: NextResult)
      requires Valid() && Steps(step, state.changes, reconnect)
      modifies this
      ensures Valid() && state.changes == old(state.changes)
      ensures (transport, dials, r) == Seek(step, old(transport), old(dials), rounds)
      ensures ReadUnder(old(read), read, state.changes)
      ensures returned == old(returned) + if r.Next? then [r.msg.body] else []
      ensures reconnect.None? ==> history.closed == old(history).closed && history.brought == old(history).brought
    {
      hide HistoryOk, Matching, Bodies;
      var left: nat := rounds;
      var stop: Option<NextResult> := None;
      while stop.None? && left > 0
        invariant Valid() && state.changes == old(state.changes) && ReadUnder(old(read), read, state.changes)
        invariant returned == old(returned) + if stop.Some? && stop.value.Next? then [stop.value.msg.body] else []
        invariant Seek(step, old(transport), old(dials), rounds)
               == if stop.Some? then (transport, dials, stop.value) else Seek(step, transport, dials, left)
        invariant reconnect.None? ==> history.closed == old(history).closed && history.brought == old(history).brought
      {
        ghost var c, d := transport, dials;
        stop := Step(step, old(read));
        SeekUnfolds(step, c, d, left, transport, dials, stop);
        left := left - 1;
      }
      r := if stop.Some? then stop.value else NextResult.NotYet;
      SeekEnds(step, transport, dials);
    }

    /** Poll once and act on the outcome. */
    method Step(ghost step: (Conn, seq<Dial>) -> (Conn, seq<Dial>, Option<NextResult>), ghost earlier: seq<Reading>)
      returns (stop: Option<NextResult>)
      requires Valid() && Steps(step, state.changes, reconnect) && ReadUnder(earlier, read, state.changes)
      modifies this
      ensures Valid() && ReadUnder(earlier, read, state.changes)
      ensures (transport, dials, stop) == step(old(transport), old(dials))
      ensures returned == old(returned) + if stop.Some? && stop.value.Next? then [stop.value.msg.body] else []
      ensures reconnect.None? ==> history.closed == old(history).closed && history.brought == old(history).brought
    {
      hide HistoryOk, Matching, Bodies, Poll, Passes;
      assert step(transport, dials) == NextStep(state.changes, reconnect, transport, dials);
      ghost var before := read;
      var o, yes := ReadOne();
      stop := None;
      if o.Received? {
        ReadUnderMore(earlier, before, o.msg.body, state.changes);
      }
      if yes {
        stop := Some(Next(o.msg));
      } else if o.Failed? {
        stop := Recover(o.error);
      }
    }

    /** Read one message, if there is one; is it to be returned? */
    method ReadOne() returns (o: Outcome, yes: bool)
      requires Valid()
      modifies this`transport, this`history, this`read, this`returned
      ensures (transport, o) == Poll(old(transport))
      ensures Valid()
      ensures history.closed == old(history).closed && history.brought == old(history).brought
      ensures read == old(read) + if o.Received? then [Reading(o.msg.body, state.changes)] else []
      ensures yes <==> o.Received? && Passes(state.changes, o.msg.body)
      ensures returned == old(returned) + if yes then [o.msg.body] else []
    {
      o := Receive();
      yes := false;
      if o.Received? {
        yes := Filter(o.msg);
      }
    }

    method Receive() returns (o: Outcome)
      requires HistoryOk(history, transport)
      modifies this`transport, this`history
      ensures (transport, o) == Poll(old(transport)) && HistoryOk(history, transport)
      ensures history == old(history).(heard := history.heard)
      ensures history.heard == old(history).heard + if o.Received? then [o.msg.body] else []
    {
      PollParses(transport);
      var (c, outcome) := Poll(transport);
      HistoryAdvances(history, transport, c, outcome);
      if outcome.Received? {
        HeardOne(history, outcome.msg);
      } else {
        NothingHeard(history, outcome);
      }
      transport, history, o := c, Heard(history, outcome), outcome;
    }

    method Filter(msg: Msg) returns (yes: bool)
      requires state.Valid() && HistoryOk(history, transport)
      requires Bodies(read) + [msg.body] == history.heard && returned == Matching(read)
      modifies this`read, this`returned
      ensures Valid() && read == old(read) + [Reading(msg.body, state.changes)]
      ensures yes <==> Passes(state.changes, msg.body)
      ensures returned == old(returned) + if yes then [msg.body] else []
    {
      hide HistoryOk, Passes, ApplyAll, Sorted;
      yes := state.MatchesMessage(msg);
      MatchingLast(read, Reading(msg.body, state.changes));
      read := read + [Reading(msg.body, state.changes)];
      if yes {
        returned := returned + [msg.body];
      }
    }

    /** After an error: go on with a new connection, or end the call. */
    method Recover(error: TransportError) returns (stop: Option<NextResult>)
      requires Valid()
      modifies this`transport, this`history, this`dials
      ensures Valid() && (transport, dials, stop) == AfterError(reconnect, old(transport), old(dials), error)
      ensures Recovered(reconnect, old(transport), old(dials), error, transport, dials, stop)
      ensures history == if stop.None? then Replaced(old(history), old(transport), transport) else old(history)
    {
      hide Recovered, IsOutcome, HistoryOk, Matching, Bodies, Delays;
      ErrorIsRecovered(reconnect, transport, dials, error);
      if reconnect.None? {
        return Some(TransportFailed(error));
      }
      var conn, rest, pauses, outcome := ReconnectTransport(transport, dials, reconnect.value);
      if outcome.Reconnected? {
        HistoryReplaces(history, transport, conn);
        history := Replaced(history, transport, conn);
      }
      transport, dials := conn, rest;
      stop := if outcome.Exhausted? then Some(ReconnectExhausted)
              else if outcome.Interrupted? then Some(NextResult.NotYet) else None;
    }
  }

  // ── From publisher to subscriber ────────────────────────────────────────

  /** All of `ms` was sent to the peer, all of that was brought, and all of that read. */
  predicate AllBrought(peer: Conn, ms: seq<Msg>, brought: seq<byte>, transport: Conn) {
    var (c, e) := SendEach(peer, ms);
    e.None? && brought == c.inner.output && transport.inner.input == []
  }

  /** A subscriber that stays connected: publish loop, framing, chunked receive and
      filter together.  Its peer at the publisher joined after `j.since` messages;
      its stream has brought some of what was written to that peer, perhaps up
      to the middle of a frame.  Then it has read the first of the messages
      published since, in order and without a gap, and returned exactly those
      that matched the subscriptions at the time it read them; when every send
      succeeded and the stream has brought all and is used up, it has read every
      message published since. */
  lemma {:induction false} SubscriberGetsWhatMatches(j: Joined, published: seq<Msg>, h: History, transport: Conn,
                                  read: seq<Reading>, returned: seq<seq<byte>>)
    requires j.since <= |published| && j.conn.inner.output == []
    requires Deliverable(PayloadsOf(published[j.since..]))
    requires HistoryOk(h, transport) && h.closed == [] && transport.format == j.conn.format
    requires h.brought[0] <= SendEach(j.conn, published[j.since..]).0.inner.output
    requires Bodies(read) == h.heard && returned == Matching(read)
    ensures |read| <= |published| - j.since
    ensures forall i :: 0 <= i < |read| ==> read[i].body == PayloadOf(published[j.since + i])
    ensures returned == Picked(published[j.since..], Times(read))
    ensures AllBrought(j.conn, published[j.since..], h.brought[0], transport) ==> |read| == |published| - j.since
  {
    hide HistoryOk, SendEach, AllBrought, Passes, Matching, Picked;
    var ms := published[j.since..];
    HeardAreFirstSent(j.conn, ms, h, transport);
    forall i | 0 <= i < |read|
      ensures read[i].body == PayloadOf(ms[i])
    {
      assert read[i].body == h.heard[i];
    }
    MatchingIsPicked(read, ms);
  }

  lemma {:induction false} HeardAreFirstSent(c: Conn, ms: seq<Msg>, h: History, transport: Conn)
    requires Deliverable(PayloadsOf(ms)) && c.inner.output == []
    requires HistoryOk(h, transport) && h.closed == [] && transport.format == c.format
    requires h.brought[0] <= SendEach(c, ms).0.inner.output
    ensures h.heard <= PayloadsOf(ms)
    ensures AllBrought(c, ms, h.brought[0], transport) ==> h.heard == PayloadsOf(ms)
  {
    SendEachWrites(c, ms);
    var wire := Wire(c.format, PayloadsOf(ms));
    assert [] + wire == wire;
    assert h.brought[0] <= wire;
    HeardIsPrefix(transport, h.brought[0], PayloadsOf(ms));
    assert PartsOn([]) == [];
    assert h.heard == PayloadsIn(Delivered(transport));
    if AllBrought(c, ms, h.brought[0], transport) {
      assert transport.consumed == wire;
      WireParses(c.format, PayloadsOf(ms));
      AllPayloads(Delivered(transport), PayloadsOf(ms));
    }
  }
}
