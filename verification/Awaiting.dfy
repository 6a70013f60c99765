/** Waiting for one peer: what sockets do with a transport, and polling it until
    it is not pending. */
module Awaiting {
  import opened Bytes
  import opened Framing
  import opened Messages
  import opened Transport

  type Sender<!C> = (C, Msg) -> (C, Option<TransportError>)
  type Poller<!C> = C -> (C, Outcome)

  /** The two things a socket does with a peer's transport, whichever
      kind of transport it is. */
  datatype Ops<!C> = Ops(send: Sender<C>, poll: Poller<C>)

  /** Poll one peer alone, up to `rounds` times, until it is not pending. */
  function Await<C>(ops: Ops<C>, c: C, rounds: nat): (C, Outcome)
    decreases rounds
  {
    if rounds == 0 then (c, Pending)
    else
      var (c', o) := ops.poll(c);
      if o.Pending? then Await(ops, c', rounds - 1) else (c', o)
  }

  /** `n` polls that all returned pending lead from `c` to `c'`. */
  ghost predicate Waited<C>(poll: Poller<C>, c: C, c': C, n: nat)
    decreases n
  {
    if n == 0 then c == c' else poll(c).1.Pending? && Waited(poll, poll(c).0, c', n - 1)
  }

  /** After `n` such polls, the next one gave `o`. */
  ghost predicate CameTo<C(!new)>(poll: Poller<C>, c: C, c': C, o: Outcome, n: nat) {
    exists mid :: Waited(poll, c, mid, n) && poll(mid) == (c', o)
  }

  lemma {:induction false} WaitedMore<C>(poll: Poller<C>, c: C, c': C, n: nat)
    requires Waited(poll, c, c', n) && poll(c').1.Pending?
    ensures Waited(poll, c, poll(c').0, n + 1)
    decreases n
  {
    if n == 0 {
      assert Waited(poll, poll(c').0, poll(c').0, 0);
    } else {
      WaitedMore(poll, poll(c).0, c', n - 1);
    }
  }

  /** Waiting ends at the first poll that is not pending, if there is one in time. */
  lemma {:induction false} AwaitIsFirst<C(!new)>(ops: Ops<C>, c: C, rounds: nat)
    ensures var (c', o) := Await(ops, c, rounds);
            if o.Pending? then Waited(ops.poll, c, c', rounds)
            else exists n: nat :: n < rounds && CameTo(ops.poll, c, c', o, n)
    decreases rounds
  {
    if rounds == 0 {
      assert Waited(ops.poll, c, c, 0);
    } else if ops.poll(c).1.Pending? {
      var c1 := ops.poll(c).0;
      AwaitIsFirst(ops, c1, rounds - 1);
      var (c', o) := Await(ops, c1, rounds - 1);
      if !o.Pending? {
        var n: nat :| n < rounds - 1 && CameTo(ops.poll, c1, c', o, n);
        var mid :| Waited(ops.poll, c1, mid, n) && ops.poll(mid) == (c', o);
        assert Waited(ops.poll, c, mid, n + 1);
        assert CameTo(ops.poll, c, c', o, n + 1);
      }
    } else {
      assert Waited(ops.poll, c, c, 0);
      assert CameTo(ops.poll, c, ops.poll(c).0, ops.poll(c).1, 0);
    }
  }

  /** A peer that was pending for so many polls did not come to anything in fewer. */
  lemma {:induction false} WaitedOnce<C(!new)>(poll: Poller<C>, c: C, c': C, c2: C, n: nat, o: Outcome)
    requires Waited(poll, c, c', n)
    ensures !o.Pending? ==> !exists k: nat :: k < n && CameTo(poll, c, c2, o, k)
  {
    forall k: nat | k < n && CameTo(poll, c, c2, o, k)
      ensures o.Pending?
    {
      var mid :| Waited(poll, c, mid, k) && poll(mid) == (c2, o);
      NextIsPending(poll, c, c', n, mid, k);
    }
  }

  lemma {:induction false} NextIsPending<C>(poll: Poller<C>, c: C, c': C, n: nat, mid: C, k: nat)
    requires Waited(poll, c, c', n) && Waited(poll, c, mid, k) && k < n
    ensures poll(mid).1.Pending?
    decreases k
  {
    if k > 0 {
      NextIsPending(poll, poll(c).0, c', n - 1, mid, k - 1);
    }
  }

  /** Peers on framed transports. */
  const FRAMED: Ops<Conn> := Ops(SendOn, Poll)

  /** Waiting takes at most one message from a peer, and whatever else it
      read of the stream stays with the transport. */
  lemma {:induction false} AtMostOneMessage(c: Conn, rounds: nat)
    requires ConnOk(c)
    ensures Advanced(c, Await(FRAMED, c, rounds).0, EventsOf(Await(FRAMED, c, rounds).1))
    decreases rounds
  {
    if rounds == 0 {
      assert Delivered(c) + [] == Delivered(c);
    } else {
      PollParses(c);
      var (c', o) := Poll(c);
      if o.Pending? {
        AtMostOneMessage(c', rounds - 1);
        AdvancedTwice(c, c', Await(FRAMED, c', rounds - 1).0, [], EventsOf(Await(FRAMED, c', rounds - 1).1));
      }
    }
  }

  lemma {:induction false} ReceivedHasNoHeader(c: Conn, rounds: nat)
    ensures Await(FRAMED, c, rounds).1.Received? ==> Await(FRAMED, c, rounds).1.msg.header == []
    decreases rounds
  {
    if rounds > 0 {
      PolledHasNoHeader(c.format, c.part, c.inner);
      if Poll(c).1.Pending? {
        ReceivedHasNoHeader(Poll(c).0, rounds - 1);
      }
    }
  }

  lemma {:induction false} PolledHasNoHeader(f: Format, part: seq<byte>, inner: Stream)
    ensures var (_, _, o) := PollFrom(f, part, inner);
            o.Received? ==> o.msg.header == []
    decreases |inner.readPlan|
  {
    if ParseOne(f, part).More? {
      var (inner', got) := StreamRead(inner, Want(f, part));
      if got.Got? && got.data != [] {
        PolledHasNoHeader(f, part + got.data, inner');
      }
    }
  }

  /** A message all of whose bytes are on the stream is received within the rounds
      exactly when the schedule brings them all in that time. */
  lemma {:induction false} ReadyMessageArrives(c: Conn, payload: seq<byte>, rest: seq<byte>, rounds: nat)
    requires MidFrame(c.format, c.part, c.inner, payload, rest)
    ensures Await(FRAMED, c, rounds).1 == Received(Msg([], payload)) <==> ArrivesOn(c.format, c.part, c.inner, payload, rounds)
    ensures Await(FRAMED, c, rounds).1.Received? ==> Await(FRAMED, c, rounds).1 == Received(Msg([], payload))
    decreases rounds
  {
    if rounds > 0 {
      ReadyFrameComes(c.format, c.part, c.inner, payload, rest, rounds);
      var (c', o) := Poll(c);
      if o.Pending? {
        ReadyMessageArrives(c', payload, rest, rounds - 1);
      }
    }
  }
}
