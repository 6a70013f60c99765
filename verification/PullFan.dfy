/** `Pull0Fan`: one reader task per pusher, all feeding one bounded channel, and
    `pull_any` at its other end -- in every interleaving. */
module PullFan {
  import opened Bytes
  import Framing
  import Transport

  /** What a pusher's transport yields: a message, or the error that ends it. */
  datatype Item = Msg(payload: seq<byte>) | Broken

  /** Where a reader task is: at the `select!`, at `tx.send(item)`, or finished. */
  datatype Stage = Selecting | Sending(item: Item) | Finished

  /** `incoming` is what the transport will still yield, `received` (history)
      what it has yielded. */
  datatype Reader = Reader(stage: Stage, incoming: seq<Item>, received: seq<Item>)

  /** An entry of the channel; `from` is history, `pull_any` never looks at it. */
  datatype Entry = Entry(from: nat, item: Item)

  /** `senders` counts the sending ends of the channel, as the channel does; `taken`
      is the history of all entries that left it. */
  datatype Fan = Fan(capacity: nat, senders: int, readers: seq<Reader>, queue: seq<Entry>, taken: seq<Entry>)

  datatype Action =
    | Spawn(incoming: seq<Item>)  // spawn_reader on a new connection
    | Recv(i: nat)                // reader i's transport.recv() completes
    | Send(i: nat)                // reader i's tx.send() finds room
    | Take                        // pull_any takes the next entry

  /** The fan keeps a sender of its own, to clone for each reader. */
  function NewFan(capacity: nat): Fan {
    Fan(capacity, 1, [], [], [])
  }

  /** What `rx.recv()` yields: an entry, None when nothing is queued and no sending
      end is left, and nothing yet otherwise. */
  datatype Yield = Entered(entry: Entry) | Disconnected | NothingYet

  function ChannelRecv(s: Fan): Yield {
    if s.queue != [] then Entered(s.queue[0]) else if s.senders == 0 then Disconnected else NothingYet
  }

  function Next(s: Fan, a: Action): Fan {
    match a
    case Spawn(incoming) => s.(readers := s.readers + [Reader(Selecting, incoming, [])], senders := s.senders + 1)
    case Recv(i) =>
      if i >= |s.readers| || !s.readers[i].stage.Selecting? || s.readers[i].incoming == [] then s
      else
        var r := s.readers[i];
        s.(readers := s.readers[i := Reader(Sending(r.incoming[0]), r.incoming[1..], r.received + [r.incoming[0]])])
    case Send(i) =>
      if i >= |s.readers| || !s.readers[i].stage.Sending? || |s.queue| >= s.capacity then s
      else
        var item := s.readers[i].stage.item;
        s.(queue := s.queue + [Entry(i, item)],
           senders := if item.Broken? then s.senders - 1 else s.senders,
           readers := s.readers[i := s.readers[i].(stage := if item.Broken? then Finished else Selecting)])
    case Take =>
      if s.queue == [] then s else s.(queue := s.queue[1..], taken := s.taken + [s.queue[0]])
  }

  function Run(s: Fan, actions: seq<Action>): Fan
    decreases |actions|
  {
    if actions == [] then s else Run(Next(s, actions[0]), actions[1..])
  }

  /** The items that came from reader i, in order. */
  function From(entries: seq<Entry>, i: nat): seq<Item> {
    if entries == [] then []
    else (if entries[0].from == i then [entries[0].item] else []) + From(entries[1..], i)
  }

  function InHand(r: Reader): seq<Item> {
    if r.stage.Sending? then [r.stage.item] else []
  }

  function Messages(items: seq<Item>): seq<seq<byte>> {
    if items == [] then []
    else (if items[0].Msg? then [items[0].payload] else []) + Messages(items[1..])
  }

  /** The messages `pull_any` has returned: disconnect errors are skipped. */
  function Pulled(s: Fan): seq<seq<byte>> {
    Messages(Everything(s.taken))
  }

  function Everything(entries: seq<Entry>): seq<Item> {
    seq(|entries|, i requires 0 <= i < |entries| => entries[i].item)
  }

  // ── Conservation ────────────────────────────────────────────────────────

  /** For reader i: what was pulled, what is queued and what the reader holds are
      together exactly what it received, in order. */
  ghost predicate Conserved(s: Fan, i: nat)
    requires i < |s.readers|
  {
    From(s.taken, i) + From(s.queue, i) + InHand(s.readers[i]) == s.readers[i].received
  }

  ghost predicate ReaderOk(r: Reader) {
    && (forall k :: 0 <= k < |r.received| - 1 ==> r.received[k].Msg?)
    && (r.stage.Selecting? && r.received != [] ==> r.received[|r.received| - 1].Msg?)
    && (r.stage.Sending? ==> r.received != [] && r.received[|r.received| - 1] == r.stage.item)
    && (r.stage.Finished? ==> r.received != [] && r.received[|r.received| - 1].Broken?)
  }

  /** A reader task owns a sending end until it finishes. */
  function Running(readers: seq<Reader>): nat {
    if readers == [] then 0
    else Running(readers[..|readers| - 1]) + if readers[|readers| - 1].stage.Finished? then 0 else 1
  }

  ghost predicate Inv(s: Fan) {
    && s.senders == 1 + Running(s.readers)
    && |s.queue| <= s.capacity
    && (forall e :: e in s.queue || e in s.taken ==> e.from < |s.readers|)
    && (forall i :: 0 <= i < |s.readers| ==> Conserved(s, i) && ReaderOk(s.readers[i]))
  }

  lemma {:induction false} FromAppend(a: seq<Entry>, b: seq<Entry>, i: nat)
    ensures From(a + b, i) == From(a, i) + From(b, i)
    decreases |a|
  {
    if a == [] {
      assert a + b == b;
    } else {
      FromAppend(a[1..], b, i);
      var first := if a[0].from == i then [a[0].item] else [];
      assert (a + b)[1..] == a[1..] + b && (a + b)[0] == a[0];
      assert first + (From(a[1..], i) + From(b, i)) == first + From(a[1..], i) + From(b, i);
    }
  }

  lemma {:induction false} FromOne(e: Entry, i: nat)
    ensures From([e], i) == if e.from == i then [e.item] else []
  {
    assert [e][1..] == [];
  }

  lemma {:induction false} FromNobody(entries: seq<Entry>, i: nat)
    requires forall e :: e in entries ==> e.from < i
    ensures From(entries, i) == []
  {
    if entries != [] {
      assert entries[0] in entries;
      FromNobody(entries[1..], i);
    }
  }

  lemma {:induction false} RunningOneMore(readers: seq<Reader>, r: Reader)
    ensures Running(readers + [r]) == Running(readers) + if r.stage.Finished? then 0 else 1
  {
    assert (readers + [r])[..|readers|] == readers;
  }

  lemma {:induction false} RunningAfter(readers: seq<Reader>, i: nat, r: Reader)
    requires i < |readers|
    ensures Running(readers[i := r]) + (if readers[i].stage.Finished? then 0 else 1)
         == Running(readers) + if r.stage.Finished? then 0 else 1
    decreases |readers|
  {
    var n := |readers| - 1;
    if i == n {
      assert readers[i := r][..n] == readers[..n];
    } else {
      assert readers[i := r][..n] == readers[..n][i := r];
      RunningAfter(readers[..n], i, r);
    }
  }

  /** The channel's count stays one above the number of running readers. */
  lemma {:induction false} SendersCounted(s: Fan, a: Action)
    requires s.senders == 1 + Running(s.readers)
    ensures Next(s, a).senders == 1 + Running(Next(s, a).readers)
  {
    var s' := Next(s, a);
    match a
    case Spawn(incoming) => RunningOneMore(s.readers, Reader(Selecting, incoming, []));
    case Recv(i) =>
      if s' != s {
        RunningAfter(s.readers, i, s'.readers[i]);
      }
    case Send(i) =>
      if s' != s {
        RunningAfter(s.readers, i, s'.readers[i]);
      }
    case Take =>
  }

  lemma {:induction false} QueuedOneMore(taken: seq<Entry>, queue: seq<Entry>, e: Entry, j: nat)
    ensures From(taken, j) + From(queue + [e], j) == From(taken, j) + From(queue, j) + if e.from == j then [e.item] else []
  {
    FromAppend(queue, [e], j);
    FromOne(e, j);
    assert From(taken, j) + (From(queue, j) + From([e], j)) == From(taken, j) + From(queue, j) + From([e], j);
  }

  lemma {:induction false} SendConserves(s: Fan, i: nat, j: nat)
    requires Inv(s) && j < |s.readers|
    ensures Conserved(Next(s, Send(i)), j)
  {
    var s' := Next(s, Send(i));
    assert Conserved(s, j);
    if s' != s {
      QueuedOneMore(s.taken, s.queue, Entry(i, s.readers[i].stage.item), j);
    }
  }

  lemma {:induction false} TakeConserves(s: Fan, j: nat)
    requires Inv(s) && j < |s.readers|
    ensures Conserved(Next(s, Take), j)
  {
    assert Conserved(s, j);
    if s.queue != [] {
      TakenOneMore(s.taken, s.queue, j);
    }
  }

  lemma {:induction false} TakenOneMore(taken: seq<Entry>, queue: seq<Entry>, j: nat)
    requires queue != []
    ensures From(taken + [queue[0]], j) + From(queue[1..], j) == From(taken, j) + From(queue, j)
  {
    hide From;
    var e := queue[0];
    FromAppend(taken, [e], j);
    FromAppend([e], queue[1..], j);
    assert queue == [e] + queue[1..];
    assert From(taken, j) + From([e], j) + From(queue[1..], j) == From(taken, j) + (From([e], j) + From(queue[1..], j));
  }

  lemma {:induction false} RecvConserves(s: Fan, i: nat, j: nat)
    requires Inv(s) && j < |s.readers|
    ensures Conserved(Next(s, Recv(i)), j)
  {
    assert Conserved(s, j);
    var s' := Next(s, Recv(i));
    if s' != s && i == j {
      assert InHand(s.readers[i]) == [];
    }
  }

  lemma {:induction false} SpawnConserves(s: Fan, incoming: seq<Item>, j: nat)
    requires Inv(s) && j <= |s.readers|
    ensures Conserved(Next(s, Spawn(incoming)), j) && ReaderOk(Next(s, Spawn(incoming)).readers[j])
  {
    if j < |s.readers| {
      assert Conserved(s, j);
    } else {
      FromNobody(s.taken, j);
      FromNobody(s.queue, j);
    }
  }

  lemma {:induction false} SpawnKeepsInv(s: Fan, incoming: seq<Item>)
    requires Inv(s)
    ensures Inv(Next(s, Spawn(incoming)))
  {
    hide From, ReaderOk, Running, Conserved;
    var s' := Next(s, Spawn(incoming));
    SendersCounted(s, Spawn(incoming));
    forall j | 0 <= j < |s'.readers|
      ensures Conserved(s', j) && ReaderOk(s'.readers[j])
    {
      SpawnConserves(s, incoming, j);
    }
  }

  lemma {:induction false} StepKeepsInv(s: Fan, a: Action)
    requires Inv(s)
    ensures Inv(Next(s, a))
  {
    var s' := Next(s, a);
    if a.Spawn? {
      SpawnKeepsInv(s, a.incoming);
    } else {
      forall j | 0 <= j < |s'.readers|
        ensures Conserved(s', j)
      {
        match a
        case Recv(i) => RecvConserves(s, i, j);
        case Send(i) => SendConserves(s, i, j);
        case Take => TakeConserves(s, j);
      }
      ReadersStayOk(s, a);
      SendersCounted(s, a);
    }
  }

  lemma {:induction false} ReadersStayOk(s: Fan, a: Action)
    requires Inv(s) && !a.Spawn?
    ensures forall j :: 0 <= j < |s.readers| ==> ReaderOk(Next(s, a).readers[j])
  {
  }

  lemma {:induction false} RunKeepsInv(s: Fan, actions: seq<Action>)
    requires Inv(s)
    ensures Inv(Run(s, actions))
    decreases |actions|
  {
    if actions != [] {
      StepKeepsInv(s, actions[0]);
      RunKeepsInv(Next(s, actions[0]), actions[1..]);
    }
  }

  lemma {:induction false} MessagesAppend(a: seq<Item>, b: seq<Item>)
    ensures Messages(a + b) == Messages(a) + Messages(b)
    decreases |a|
  {
    if a == [] {
      assert a + b == b;
    } else {
      MessagesAppend(a[1..], b);
      var first := if a[0].Msg? then [a[0].payload] else [];
      assert (a + b)[1..] == a[1..] + b && (a + b)[0] == a[0];
      assert first + (Messages(a[1..]) + Messages(b)) == first + Messages(a[1..]) + Messages(b);
    }
  }

  // ── Main results ────────────────────────────────────────────────────────

  /** In every interleaving, for each pusher: the messages pulled, then those
      queued, then the one its reader is blocked on, are exactly the messages
      received from it -- none lost, doubled or out of order -- and the channel
      never holds more than its capacity. */
  lemma {:induction false} EveryInterleavingConserves(capacity: nat, actions: seq<Action>, i: nat)
    requires i < |Run(NewFan(capacity), actions).readers|
    ensures var s := Run(NewFan(capacity), actions);
            && |s.queue| <= s.capacity
            && Messages(From(s.taken, i)) + Messages(From(s.queue, i)) + Messages(InHand(s.readers[i]))
               == Messages(s.readers[i].received)
  {
    RunKeepsInv(NewFan(capacity), actions);
    var s := Run(NewFan(capacity), actions);
    assert Conserved(s, i);
    MessagesAppend(From(s.taken, i) + From(s.queue, i), InHand(s.readers[i]));
    MessagesAppend(From(s.taken, i), From(s.queue, i));
  }

  /** The fan's own sender keeps the channel open: in no run, however many readers
      have finished, does the channel report that it is closed. */
  lemma {:induction false} ChannelNeverCloses(capacity: nat, actions: seq<Action>)
    ensures var s := Run(NewFan(capacity), actions);
            s.senders == 1 + Running(s.readers) && ChannelRecv(s) != Disconnected
  {
    assert Running([]) == 0;
    RunKeepsInv(NewFan(capacity), actions);
  }

  /** What a connection yields in all: `received` then `incoming`. */
  ghost predicate SameStreams(s: Fan, s': Fan) {
    && |s.readers| <= |s'.readers|
    && (forall i :: 0 <= i < |s.readers| ==>
          s'.readers[i].received + s'.readers[i].incoming == s.readers[i].received + s.readers[i].incoming)
    && s'.capacity == s.capacity
  }

  lemma {:induction false} StreamsStay(s: Fan, actions: seq<Action>)
    ensures SameStreams(s, Run(s, actions))
    decreases |actions|
  {
    if actions != [] {
      var s1 := Next(s, actions[0]);
      forall i | 0 <= i < |s.readers|
        ensures s1.readers[i].received + s1.readers[i].incoming == s.readers[i].received + s.readers[i].incoming
      {
        if s.readers[i].incoming != [] {
          assert s.readers[i].incoming == [s.readers[i].incoming[0]] + s.readers[i].incoming[1..];
        }
      }
      StreamsStay(s1, actions[1..]);
    }
  }

  /** Nothing is invented: from each connection the fan pulls a prefix of what the
      connection yields; once that connection's reader has finished and the
      channel is empty it has pulled all messages before the error. */
  lemma {:induction false} PulledIsPrefixOfStream(s: Fan, actions: seq<Action>, i: nat)
    requires Inv(s) && i < |s.readers|
    ensures var s' := Run(s, actions);
            && i < |s'.readers|
            && From(s'.taken, i) <= s.readers[i].received + s.readers[i].incoming
            && (s'.readers[i].stage.Finished? && s'.queue == [] ==>
                  From(s'.taken, i) == s'.readers[i].received != [] && s'.readers[i].received[|s'.readers[i].received| - 1].Broken?)
  {
    RunKeepsInv(s, actions);
    StreamsStay(s, actions);
    var s' := Run(s, actions);
    assert Conserved(s', i);
    var r := s'.readers[i];
    assert From(s'.taken, i) <= r.received;
    assert r.received <= r.received + r.incoming;
  }

  /** The channel is first in, first out: entries leave in the order they entered. */
  lemma {:induction false} ChannelIsFifo(s: Fan, actions: seq<Action>)
    ensures var s' := Run(s, actions);
            s.taken + s.queue <= s'.taken + s'.queue && s.taken <= s'.taken
    decreases |actions|
  {
    if actions != [] {
      var s1 := Next(s, actions[0]);
      assert s.taken + s.queue <= s1.taken + s1.queue;
      ChannelIsFifo(s1, actions[1..]);
    }
  }

  // ── From the pusher's wire to the puller ────────────────────────────────

  /** What a reader task gets out of its transport: the messages, up to and with the
      first error, where it stops. */
  function Yielded(os: seq<Transport.Outcome>): seq<Item> {
    if os == [] then []
    else
      match os[0]
      case Pending => Yielded(os[1..])
      case Received(m) => [Msg(m.body)] + Yielded(os[1..])
      case Failed(_) => [Broken]
  }

  lemma {:induction false} YieldedIsSent(os: seq<Transport.Outcome>, payloads: seq<seq<byte>>)
    requires Transport.AllEvents(os) <= Framing.Payloads(payloads)
    ensures Messages(Yielded(os)) <= payloads
    decreases |os|
  {
    if os != [] {
      match os[0]
      case Pending => YieldedIsSent(os[1..], payloads);
      case Received(m) =>
        FirstEvent(os, payloads);
        YieldedIsSent(os[1..], payloads[1..]);
        assert payloads == [m.body] + payloads[1..];
      case Failed(_) => assert Messages([Broken]) == Messages([]);
    }
  }

  lemma {:induction false} FirstEvent(os: seq<Transport.Outcome>, payloads: seq<seq<byte>>)
    requires os != [] && os[0].Received? && Transport.AllEvents(os) <= Framing.Payloads(payloads)
    ensures payloads != [] && payloads[0] == os[0].msg.body
    ensures Transport.AllEvents(os[1..]) <= Framing.Payloads(payloads[1..])
  {
    var es := Transport.AllEvents(os);
    assert es == [Framing.Payload(os[0].msg.body)] + Transport.AllEvents(os[1..]);
    assert es[0] == Framing.Payloads(payloads)[0];
    assert Framing.Payloads(payloads)[1..] == Framing.Payloads(payloads[1..]);
    assert Transport.AllEvents(os[1..]) == es[1..];
  }

  lemma {:induction false} YieldedStopsAtError(os: seq<Transport.Outcome>)
    ensures forall k :: 0 <= k < |Yielded(os)| - 1 ==> Yielded(os)[k].Msg?
    decreases |os|
  {
    if os != [] {
      YieldedStopsAtError(os[1..]);
    }
  }

  lemma {:induction false} MessagesPrefix(a: seq<Item>, b: seq<Item>)
    requires a <= b
    ensures Messages(a) <= Messages(b)
  {
    assert b == a + b[|a|..];
    MessagesAppend(a, b[|a|..]);
  }

  /** From a pusher's wire, cut off anywhere, over a framed transport polled any
      number of times, through its reader task and the channel: what `pull_any` has
      got from that pusher is a prefix of what it sent; and once its reader has
      finished and the channel is empty, it is all that the transport delivered. */
  lemma {:induction false} PulledIsPrefixOfSent(c: Transport.Conn, payloads: seq<seq<byte>>, n: nat,
                                                s: Fan, actions: seq<Action>, i: nat)
    requires Framing.Deliverable(payloads)
    requires c == Transport.NewConn(c.format, c.inner) && c.inner.input <= Framing.Wire(c.format, payloads)
    requires Inv(s) && i < |s.readers|
    requires s.readers[i].received + s.readers[i].incoming == Yielded(Transport.Polls(c, n).1)
    ensures var s' := Run(s, actions);
            && i < |s'.readers|
            && Messages(From(s'.taken, i)) <= payloads
            && (s'.readers[i].stage.Finished? && s'.queue == [] ==>
                  Messages(From(s'.taken, i)) == Messages(Yielded(Transport.Polls(c, n).1)))
  {
    hide Transport.Polls, Framing.Wire, Inv;
    var os := Transport.Polls(c, n).1;
    Transport.ReceivedIsPrefixOfSent(c.format, payloads, c.inner.input, c, n);
    YieldedIsSent(os, payloads);
    PulledIsPrefixOfStream(s, actions, i);
    StreamsStay(s, actions);
    var s' := Run(s, actions);
    MessagesPrefix(From(s'.taken, i), Yielded(os));
    if s'.readers[i].stage.Finished? && s'.queue == [] {
      YieldedStopsAtError(os);
      assert From(s'.taken, i) == Yielded(os);
    }
  }

  // ── Progress ────────────────────────────────────────────────────────────

  /** What a reader passes on of what its connection yields. */
  function UpToError(items: seq<Item>): seq<Item> {
    if items == [] then []
    else if items[0].Broken? then [Broken] else [items[0]] + UpToError(items[1..])
  }

  lemma {:induction false} AllBeforeError(items: seq<Item>, rest: seq<Item>)
    requires forall k :: 0 <= k < |items| - 1 ==> items[k].Msg?
    requires (items != [] && items[|items| - 1].Broken?) || (rest == [] && forall k :: 0 <= k < |items| ==> items[k].Msg?)
    ensures UpToError(items + rest) == items
    decreases |items|
  {
    if items != [] {
      assert (items + rest)[1..] == items[1..] + rest;
      if items[0].Msg? {
        AllBeforeError(items[1..], rest);
      } else {
        assert |items| == 1;
      }
    } else {
      assert items + rest == [];
    }
  }

  /** Reader i has nothing more to do, and the channel is empty. */
  predicate Idle(s: Fan, i: nat) {
    && i < |s.readers| && s.queue == []
    && (s.readers[i].stage.Finished? || (s.readers[i].stage.Selecting? && s.readers[i].incoming == []))
  }

  lemma {:induction false} IdleMeansPulled(s: Fan, i: nat)
    requires Inv(s) && Idle(s, i)
    ensures From(s.taken, i) == UpToError(s.readers[i].received + s.readers[i].incoming)
  {
    assert Conserved(s, i) && ReaderOk(s.readers[i]);
    AllBeforeError(s.readers[i].received, s.readers[i].incoming);
  }

  /** Taking everything that is queued. */
  lemma {:induction false} Drain(s: Fan) returns (actions: seq<Action>)
    ensures var s' := Run(s, actions);
            s'.queue == [] && s'.readers == s.readers && s'.capacity == s.capacity
    decreases |s.queue|
  {
    if s.queue == [] {
      actions := [];
    } else {
      var rest := Drain(Next(s, Take));
      actions := [Take] + rest;
      assert actions[1..] == rest;
    }
  }

  /** A reader that holds an item puts it into an empty channel. */
  lemma {:induction false} HeldItemEnters(s: Fan, i: nat)
    requires i < |s.readers| && s.readers[i].stage.Sending? && s.queue == [] && s.capacity > 0
    ensures Next(s, Send(i)).queue == [Entry(i, s.readers[i].stage.item)]
    ensures Next(s, Send(i)).readers[i].stage == if s.readers[i].stage.item.Broken? then Finished else Selecting
    ensures Next(s, Send(i)).readers[i].incoming == s.readers[i].incoming
    ensures |Next(s, Send(i)).readers| == |s.readers| && Next(s, Send(i)).capacity == s.capacity
  {
  }

  function Work(r: Reader): nat {
    2 * |r.incoming| + if r.stage.Sending? then 1 else 0
  }

  /** From every state there is a way for reader i to hand on all it yields. */
  lemma {:induction false} CanBecomeIdle(s: Fan, i: nat) returns (actions: seq<Action>)
    requires i < |s.readers| && s.capacity > 0
    ensures Idle(Run(s, actions), i)
    decreases Work(s.readers[i])
  {
    var drain := Drain(s);
    var s1 := Run(s, drain);
    var r := s1.readers[i];
    if Idle(s1, i) {
      actions := drain;
    } else {
      var step := if r.stage.Sending? then Send(i) else Recv(i);
      StepDoesWork(s1, i, step);
      var rest := CanBecomeIdle(Next(s1, step), i);
      actions := drain + ([step] + rest);
      RunAppend(s, drain, [step] + rest);
      assert ([step] + rest)[1..] == rest;
    }
  }

  lemma {:induction false} StepDoesWork(s: Fan, i: nat, a: Action)
    requires i < |s.readers| && s.capacity > 0 && s.queue == [] && !Idle(s, i)
    requires a == if s.readers[i].stage.Sending? then Send(i) else Recv(i)
    ensures |Next(s, a).readers| == |s.readers| && Next(s, a).capacity == s.capacity
    ensures Work(Next(s, a).readers[i]) < Work(s.readers[i])
  {
  }

  lemma {:induction false} RunAppend(s: Fan, a: seq<Action>, b: seq<Action>)
    ensures Run(s, a + b) == Run(Run(s, a), b)
    decreases |a|
  {
    if a == [] {
      assert a + b == b;
    } else {
      assert (a + b)[1..] == a[1..] + b;
      RunAppend(Next(s, a[0]), a[1..], b);
    }
  }

  /** No state is a dead end: from every reachable one, for every reader, there is a
      run after which all that its connection yields, up to its error, has been
      pulled. */
  lemma {:induction false} EverythingCanBePulled(s: Fan, i: nat) returns (actions: seq<Action>)
    requires Inv(s) && i < |s.readers| && s.capacity > 0
    ensures i < |Run(s, actions).readers|
    ensures From(Run(s, actions).taken, i) == UpToError(s.readers[i].received + s.readers[i].incoming)
  {
    actions := CanBecomeIdle(s, i);
    RunKeepsInv(s, actions);
    StreamsStay(s, actions);
    IdleMeansPulled(Run(s, actions), i);
  }

  /** The same of a connection just added: it is pulled from the start. */
  lemma {:induction false} NewConnectionCanBePulled(s: Fan, incoming: seq<Item>) returns (actions: seq<Action>)
    requires Inv(s) && s.capacity > 0
    ensures var s' := Run(s, [Spawn(incoming)] + actions);
            |s'.readers| > |s.readers| && From(s'.taken, |s.readers|) == UpToError(incoming)
  {
    var s1 := Next(s, Spawn(incoming));
    StepKeepsInv(s, Spawn(incoming));
    actions := EverythingCanBePulled(s1, |s.readers|);
    assert [] + incoming == incoming;
    assert ([Spawn(incoming)] + actions)[1..] == actions;
  }

  // ── pull_any ────────────────────────────────────────────────────────────

  datatype PullResult = Got(payload: seq<byte>) | NoPeers | StillPending

  /** What `pull_any` comes to: it takes entries while there are any, until a message;
      the readers move while there are none. */
  function Pull(s: Fan, script: seq<Action>): (Fan, PullResult)
    decreases |script|, |s.queue|
  {
    if s.queue != [] then
      var s' := Next(s, Take);
      if s.queue[0].item.Msg? then (s', Got(s.queue[0].item.payload)) else Pull(s', script)
    else if s.senders == 0 then (s, NoPeers)
    else if script == [] then (s, StillPending)
    else Pull(Next(s, script[0]), script[1..])
  }

  /** A message that is there is pulled, whatever errors are queued before it. */
  lemma {:induction false} QueuedMessageIsPulled(s: Fan, script: seq<Action>, k: nat)
    requires k < |s.queue| && s.queue[k].item.Msg? && forall j :: 0 <= j < k ==> s.queue[j].item.Broken?
    ensures Pull(s, script).1 == Got(s.queue[k].item.payload)
    ensures Pull(s, script).0 == s.(queue := s.queue[k + 1..], taken := s.taken + s.queue[..k + 1])
    decreases k
  {
    var s' := Next(s, Take);
    if k > 0 {
      QueuedMessageIsPulled(s', script, k - 1);
      assert s.queue[..k + 1] == [s.queue[0]] + s'.queue[..k];
      assert s.taken + [s.queue[0]] + s'.queue[..k] == s.taken + s.queue[..k + 1];
      assert s'.queue[k..] == s.queue[k + 1..];
    } else {
      assert s.queue[..1] == [s.queue[0]];
    }
  }

  /** A message that comes in while the channel is empty is received, sent on and
      pulled. */
  lemma {:induction false} ArrivingMessageIsPulled(s: Fan, i: nat, script: seq<Action>)
    requires Inv(s) && s.capacity > 0 && s.queue == [] && i < |s.readers|
    requires s.readers[i].stage.Selecting? && s.readers[i].incoming != [] && s.readers[i].incoming[0].Msg?
    ensures Pull(s, [Recv(i), Send(i)] + script).1 == Got(s.readers[i].incoming[0].payload)
  {
    hide Inv, Pull;
    var s1 := Next(s, Recv(i));
    StepKeepsInv(s, Recv(i));
    PullMoves(s, Recv(i), [Send(i)] + script);
    assert [Recv(i), Send(i)] + script == [Recv(i)] + ([Send(i)] + script);
    HeldItemEnters(s1, i);
    PullMoves(s1, Send(i), script);
    QueuedMessageIsPulled(Next(s1, Send(i)), script, 0);
  }

  /** The script starts with a message coming in from reader i and entering. */
  predicate ArrivesFrom(s: Fan, script: seq<Action>, i: nat) {
    && s.capacity > 0 && s.queue == [] && i < |s.readers|
    && s.readers[i].stage.Selecting? && s.readers[i].incoming != [] && s.readers[i].incoming[0].Msg?
    && |script| >= 2 && script[0] == Recv(i) && script[1] == Send(i)
  }

  lemma {:induction false} ArrivingIsPulled(s: Fan, script: seq<Action>)
    requires Inv(s)
    ensures forall i: nat :: ArrivesFrom(s, script, i) ==> Pull(s, script).1 == Got(s.readers[i].incoming[0].payload)
  {
    forall i: nat | ArrivesFrom(s, script, i)
      ensures Pull(s, script).1 == Got(s.readers[i].incoming[0].payload)
    {
      ArrivingMessageIsPulled(s, i, script[2..]);
      assert script == [Recv(i), Send(i)] + script[2..];
    }
  }

  lemma {:induction false} PullMoves(s: Fan, a: Action, script: seq<Action>)
    requires Inv(s) && s.queue == []
    ensures Pull(s, [a] + script) == Pull(Next(s, a), script)
  {
    assert ([a] + script)[1..] == script;
  }

  /** One `pull_any` future, polled while the readers move as the script says; it
      is still pending when the script ends first. */
  class Pull0Fan {
    const capacity: nat
    var senders: int
    var readers: seq<Reader>
    var queue: seq<Entry>
    ghost var taken: seq<Entry>

    ghost function View(): Fan
      reads this
    {
      Fan(capacity, senders, readers, queue, taken)
    }

    constructor (capacity: nat)
      ensures View() == NewFan(capacity)
    {
      this.capacity, senders, readers, queue, taken := capacity, 1, [], [], [];
    }

    method SpawnReader(incoming: seq<Item>)
      modifies this
      ensures View() == Next(old(View()), Spawn(incoming))
    {
      readers, senders := readers + [Reader(Selecting, incoming, [])], senders + 1;
    }

    method PullAny(script: seq<Action>) returns (r: PullResult, ghost trace: seq<Action>)
      requires Inv(View()) && forall a :: a in script ==> !a.Take?
      modifies this
      ensures Inv(View()) && View() == Run(old(View()), trace)
      ensures Moves(trace) <= script
      ensures Pulled(View()) == Pulled(old(View())) + if r.Got? then [r.payload] else []
      ensures r.StillPending? ==> queue == [] && Moves(trace) == script
      ensures !r.NoPeers?
      ensures (View(), r) == Pull(old(View()), script)
      ensures forall i: nat :: ArrivesFrom(old(View()), script, i) ==> r == Got(old(View()).readers[i].incoming[0].payload)
    {
      hide Inv, Run, Pulled, Moves, Next;
      ghost var before := View();
      ArrivingIsPulled(before, script);
      RunNothing(before);
      trace, r := [], StillPending;
      var i := 0;
      assert script[0..] == script;
      while r.StillPending? && (queue != [] || senders == 0 || i < |script|)
        invariant i <= |script| && Moves(trace) == script[..i] && !r.NoPeers?
        invariant Inv(View()) && View() == Run(before, trace)
        invariant Pulled(View()) == Pulled(before) + if r.Got? then [r.payload] else []
        invariant Pull(before, script) == if r.StillPending? then Pull(View(), script[i..]) else (View(), r)
        decreases r.StillPending?, |script| - i, |queue|
      {
        if queue != [] {
          RunMore(before, trace, Take);
          MovesMore(trace, Take);
          trace := trace + [Take];
          var item := TakeNext();
          if item.Msg? {
            r := Got(item.payload);
          }
        } else if senders == 0 {
          OwnSenderIsLeft(View());
          r := NoPeers;
        } else {
          RunMore(before, trace, script[i]);
          MovesMore(trace, script[i]);
          trace := trace + [script[i]];
          assert script[i..][1..] == script[i + 1..];
          Move(script[i]);
          i := i + 1;
        }
      }
    }

    method TakeNext() returns (item: Item)
      requires Inv(View()) && queue != []
      modifies this`queue, this`taken
      ensures View() == Next(old(View()), Take) && Inv(View()) && queue == old(queue)[1..] && item == old(queue)[0].item
      ensures Pulled(View()) == Pulled(old(View())) + if item.Msg? then [item.payload] else []
    {
      StepKeepsInv(View(), Take);
      TakeIsPull(View());
      item := queue[0].item;
      queue, taken := queue[1..], taken + [queue[0]];
    }

    method Move(a: Action)
      requires Inv(View()) && !a.Take?
      modifies this`readers, this`queue, this`senders
      ensures View() == Next(old(View()), a) && Inv(View()) && Pulled(View()) == Pulled(old(View()))
    {
      StepKeepsInv(View(), a);
      var s := Next(Fan(capacity, senders, readers, queue, []), a);
      readers, queue, senders := s.readers, s.queue, s.senders;
    }
  }

  /** The steps of the readers in a run. */
  function Moves(trace: seq<Action>): seq<Action> {
    if trace == [] then []
    else
      var last := trace[|trace| - 1];
      Moves(trace[..|trace| - 1]) + if last.Take? then [] else [last]
  }

  lemma {:induction false} RunNothing(s: Fan)
    ensures Run(s, []) == s && Moves([]) == []
  {
  }

  lemma {:induction false} OwnSenderIsLeft(s: Fan)
    requires Inv(s)
    ensures s.senders >= 1
  {
  }

  lemma {:induction false} MovesMore(trace: seq<Action>, a: Action)
    ensures Moves(trace + [a]) == Moves(trace) + if a.Take? then [] else [a]
  {
    assert (trace + [a])[..|trace|] == trace;
  }

  lemma {:induction false} RunMore(s: Fan, trace: seq<Action>, a: Action)
    ensures Run(s, trace + [a]) == Next(Run(s, trace), a)
    decreases |trace|
  {
    if trace == [] {
      assert [a][1..] == [];
      assert trace + [a] == [a];
      assert Run(Next(s, a), []) == Next(s, a);
    } else {
      assert (trace + [a])[1..] == trace[1..] + [a];
      RunMore(Next(s, trace[0]), trace[1..], a);
    }
  }

  lemma {:induction false} TakeIsPull(s: Fan)
    requires s.queue != []
    ensures Pulled(Next(s, Take)) == Pulled(s) + (if s.queue[0].item.Msg? then [s.queue[0].item.payload] else [])
  {
    var item := s.queue[0].item;
    assert Everything(s.taken + [s.queue[0]]) == Everything(s.taken) + [item];
    MessagesAppend(Everything(s.taken), [item]);
    assert [item][1..] == [];
  }
}
