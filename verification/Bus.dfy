/** Several peers in one list: the fan-out loop that `broadcast` and `publish`
    share, and BUS0. */
module Bus {
  import opened Awaiting
  import opened Bytes
  import opened Framing
  import opened Messages
  import opened Transport

  /** `Vec::swap_remove`: the last element fills the gap. */
  function SwapRemove<T>(s: seq<T>, i: nat): (r: seq<T>)
    requires i < |s|
    ensures |r| == |s| - 1
    ensures forall k :: 0 <= k < |r| ==> r[k] == if k == i then s[|s| - 1] else s[k]
  {
    var last := |s| - 1;
    if i == last then s[..last] else s[..last][i := s[last]]
  }

  lemma {:induction false} SwapRemoveLaw<T>(s: seq<T>, i: nat)
    requires i < |s|
    ensures SwapRemove(s, i)[..i] == s[..i]
    ensures SwapRemove(s, i)[i..] == if i == |s| - 1 then [] else [s[|s| - 1]] + s[i + 1..|s| - 1]
    ensures s[i..] == [s[i]] + (if i == |s| - 1 then [] else s[i + 1..|s| - 1] + [s[|s| - 1]])
    ensures multiset(SwapRemove(s, i)) + multiset{s[i]} == multiset(s)
  {
    hide SwapRemove;
    SwapRemoveTails(s, i);
    CutAt(s, i);
    CutAt(SwapRemove(s, i), i);
    SameButOne(SwapRemove(s, i)[i..], s[i..], s[i], s, i);
  }

  lemma {:induction false} SwapRemoveTails<T>(s: seq<T>, i: nat)
    requires i < |s|
    ensures SwapRemove(s, i)[..i] == s[..i]
    ensures SwapRemove(s, i)[i..] == if i == |s| - 1 then [] else [s[|s| - 1]] + s[i + 1..|s| - 1]
    ensures s[i..] == [s[i]] + (if i == |s| - 1 then [] else s[i + 1..|s| - 1] + [s[|s| - 1]])
  {
    FrontStays(s, i);
    if i < |s| - 1 {
      assert SwapRemove(s, i)[i..] == [s[|s| - 1]] + s[i + 1..|s| - 1];
      assert s[i..] == [s[i]] + (s[i + 1..|s| - 1] + [s[|s| - 1]]);
    } else {
      assert SwapRemove(s, i)[i..] == [];
    }
  }

  lemma {:induction false} FrontStays<T>(s: seq<T>, i: nat)
    requires i < |s|
    ensures SwapRemove(s, i)[..i] == s[..i]
  {
  }

  lemma {:induction false} CutAt<T>(s: seq<T>, i: nat)
    requires i <= |s|
    ensures multiset(s) == multiset(s[..i]) + multiset(s[i..])
  {
    assert s == s[..i] + s[i..];
  }

  /** The tails differ by the element removed. */
  lemma {:induction false} SameButOne<T>(after: seq<T>, before: seq<T>, x: T, s: seq<T>, i: nat)
    requires i < |s|
    requires after == if i == |s| - 1 then [] else [s[|s| - 1]] + s[i + 1..|s| - 1]
    requires before == [x] + (if i == |s| - 1 then [] else s[i + 1..|s| - 1] + [s[|s| - 1]])
    ensures multiset(after) + multiset{x} == multiset(before)
  {
  }

  // ── Fan-out ─────────────────────────────────────────────────────────────

  /** The peers a send succeeds on, each after exactly one attempt, in order. */
  function Survivors<C>(send: Sender<C>, peers: seq<C>, m: Msg): seq<C> {
    if peers == [] then []
    else (if send(peers[0], m).1.None? then [send(peers[0], m).0] else []) + Survivors(send, peers[1..], m)
  }

  /** The peers it fails on, likewise. */
  function Casualties<C>(send: Sender<C>, peers: seq<C>, m: Msg): seq<C> {
    if peers == [] then []
    else (if send(peers[0], m).1.Some? then [send(peers[0], m).0] else []) + Casualties(send, peers[1..], m)
  }

  lemma {:induction false} AttemptsAppend<C>(send: Sender<C>, a: seq<C>, b: seq<C>, m: Msg)
    ensures multiset(Survivors(send, a + b, m)) == multiset(Survivors(send, a, m)) + multiset(Survivors(send, b, m))
    ensures multiset(Casualties(send, a + b, m)) == multiset(Casualties(send, a, m)) + multiset(Casualties(send, b, m))
    decreases |a|
  {
    if a == [] {
      assert a + b == b;
    } else {
      assert (a + b)[0] == a[0] && (a + b)[1..] == a[1..] + b;
      AttemptsAppend(send, a[1..], b, m);
    }
  }

  lemma {:induction false} OneAttempt<C>(send: Sender<C>, c: C, m: Msg)
    ensures Survivors(send, [c], m) == if send(c, m).1.None? then [send(c, m).0] else []
    ensures Casualties(send, [c], m) == if send(c, m).1.Some? then [send(c, m).0] else []
  {
    assert [c][1..] == [];
  }

  lemma {:induction false} SurvivorsAppend<C>(send: Sender<C>, a: seq<C>, b: seq<C>, m: Msg)
    ensures Survivors(send, a + b, m) == Survivors(send, a, m) + Survivors(send, b, m)
    decreases |a|
  {
    if a == [] {
      assert a + b == b;
    } else {
      assert (a + b)[1..] == a[1..] + b;
      SurvivorsAppend(send, a[1..], b, m);
    }
  }

  /** What becomes of the peers does not depend on their order. */
  lemma {:induction false} SurvivorsOfPermutation<C(!new)>(send: Sender<C>, a: seq<C>, b: seq<C>, m: Msg)
    requires multiset(a) == multiset(b)
    ensures multiset(Survivors(send, a, m)) == multiset(Survivors(send, b, m))
  {
    ghost var bag := (s: seq<C>) => multiset(Survivors(send, s, m));
    ghost var one := (c: C) => multiset(Survivors(send, [c], m));
    forall s: seq<C>, c, t: seq<C>
      ensures bag(s + ([c] + t)) == one(c) + bag(s + t)
    {
      OneOutOf(send, s, c, t, m);
    }
    OrderDoesNotMatter(bag, one, a, b);
  }

  lemma {:induction false} OrderDoesNotMatter<C(!new)>(bag: seq<C> -> multiset<C>, one: C -> multiset<C>, a: seq<C>,
                                                b: seq<C>)
    requires forall s: seq<C>, c, t: seq<C> :: bag(s + ([c] + t)) == one(c) + bag(s + t)
    requires multiset(a) == multiset(b)
    ensures bag(a) == bag(b)
    decreases |a|
  {
    if a == [] {
      assert |multiset(b)| == 0;
    } else {
      var front, back := FirstOfOtherIn(a, b);
      OrderDoesNotMatter(bag, one, a[1..], front + back);
      assert bag([] + ([a[0]] + a[1..])) == one(a[0]) + bag([] + a[1..]);
      assert [] + ([a[0]] + a[1..]) == a && [] + a[1..] == a[1..];
    }
  }

  lemma {:induction false} OneOutOf<C>(send: Sender<C>, a: seq<C>, c: C, b: seq<C>, m: Msg)
    ensures multiset(Survivors(send, a + ([c] + b), m)) == multiset(Survivors(send, [c], m)) + multiset(Survivors(send, a + b, m))
  {
    AttemptsAppend(send, a, [c] + b, m);
    AttemptsAppend(send, [c], b, m);
    AttemptsAppend(send, a, b, m);
  }

  lemma {:induction false} FirstOfOtherIn<T>(a: seq<T>, b: seq<T>) returns (front: seq<T>, back: seq<T>)
    requires a != [] && multiset(a) == multiset(b)
    ensures b == front + ([a[0]] + back) && multiset(a[1..]) == multiset(front + back)
  {
    assert a[0] in multiset(b);
    var k :| 0 <= k < |b| && b[k] == a[0];
    front, back := b[..k], b[k + 1..];
    assert b == front + ([a[0]] + back);
    OneTakenFromBoth(a, front, back);
  }

  lemma {:induction false} OneTakenFromBoth<T>(a: seq<T>, front: seq<T>, back: seq<T>)
    requires a != [] && multiset(a) == multiset(front + ([a[0]] + back))
    ensures multiset(a[1..]) == multiset(front + back)
  {
    assert a == [a[0]] + a[1..];
    assert multiset(a) == multiset{a[0]} + multiset(a[1..]);
    assert multiset(front + ([a[0]] + back)) == multiset{a[0]} + multiset(front + back);
    assert multiset(a[1..]) == multiset(a) - multiset{a[0]};
    assert multiset(front + back) == multiset(front + ([a[0]] + back)) - multiset{a[0]};
  }

  /** All peers are accounted for: done, broken, or still to come. */
  ghost predicate Underway<C>(send: Sender<C>, peers: seq<C>, m: Msg, done: seq<C>, todo: seq<C>, broken: seq<C>) {
    && |done| + |todo| + |broken| == |peers|
    && multiset(done) + multiset(Survivors(send, todo, m)) == multiset(Survivors(send, peers, m))
    && multiset(broken) + multiset(Casualties(send, todo, m)) == multiset(Casualties(send, peers, m))
  }

  /** One attempt, after which the rest may come in another order. */
  lemma {:induction false} Attempted<C>(send: Sender<C>, peers: seq<C>, m: Msg, done: seq<C>, c: C, rest: seq<C>,
                                        broken: seq<C>, todo: seq<C>)
    requires Underway(send, peers, m, done, [c] + rest, broken)
    requires |todo| == |rest|
    requires multiset(Survivors(send, todo, m)) == multiset(Survivors(send, rest, m))
    requires multiset(Casualties(send, todo, m)) == multiset(Casualties(send, rest, m))
    ensures Underway(send, peers, m, done + Survivors(send, [c], m), todo, broken + Casualties(send, [c], m))
  {
    AttemptsAppend(send, [c], rest, m);
    OneAttempt(send, c, m);
    assert |Survivors(send, [c], m)| + |Casualties(send, [c], m)| == 1;
    AddUp(done, Survivors(send, [c], m), Survivors(send, rest, m), Survivors(send, todo, m), Survivors(send, [c] + rest, m));
    AddUp(broken, Casualties(send, [c], m), Casualties(send, rest, m), Casualties(send, todo, m), Casualties(send, [c] + rest, m));
  }

  lemma {:induction false} AddUp<C>(had: seq<C>, more: seq<C>, rest: seq<C>, todo: seq<C>, all: seq<C>)
    requires multiset(all) == multiset(more) + multiset(rest) && multiset(todo) == multiset(rest)
    ensures multiset(had + more) + multiset(todo) == multiset(had) + multiset(all)
  {
  }

  lemma {:induction false} Rotated<C>(send: Sender<C>, mid: seq<C>, last: seq<C>, m: Msg)
    ensures multiset(Survivors(send, last + mid, m)) == multiset(Survivors(send, mid + last, m))
    ensures multiset(Casualties(send, last + mid, m)) == multiset(Casualties(send, mid + last, m))
  {
    AttemptsAppend(send, mid, last, m);
    AttemptsAppend(send, last, mid, m);
  }

  lemma {:induction false} SentOn<C>(send: Sender<C>, peers: seq<C>, m: Msg, list: seq<C>, i: nat, broken: seq<C>)
    requires i < |list| && send(list[i], m).1.None?
    requires Underway(send, peers, m, list[..i], list[i..], broken)
    ensures var next := list[i := send(list[i], m).0];
            Underway(send, peers, m, next[..i + 1], next[i + 1..], broken)
  {
    var next := list[i := send(list[i], m).0];
    assert list[i..] == [list[i]] + list[i + 1..];
    Attempted(send, peers, m, list[..i], list[i], list[i + 1..], broken, list[i + 1..]);
    OneAttempt(send, list[i], m);
    assert next[..i + 1] == list[..i] + Survivors(send, [list[i]], m) && broken == broken + Casualties(send, [list[i]], m);
    assert next[i + 1..] == list[i + 1..];
  }

  lemma {:induction false} BrokenOn<C>(send: Sender<C>, peers: seq<C>, m: Msg, list: seq<C>, i: nat, broken: seq<C>)
    requires i < |list| && send(list[i], m).1.Some?
    requires Underway(send, peers, m, list[..i], list[i..], broken)
    ensures var next := SwapRemove(list, i);
            Underway(send, peers, m, next[..i], next[i..], broken + [send(list[i], m).0])
  {
    SwapRemoveLaw(list, i);
    var rest, todo := list[i + 1..], SwapRemove(list, i)[i..];
    assert list[i..] == [list[i]] + rest;
    if i < |list| - 1 {
      var mid, last := list[i + 1..|list| - 1], [list[|list| - 1]];
      assert rest == mid + last && todo == last + mid;
      Rotated(send, mid, last, m);
    }
    Attempted(send, peers, m, list[..i], list[i], rest, broken, todo);
    OneAttempt(send, list[i], m);
    assert list[..i] == list[..i] + Survivors(send, [list[i]], m);
  }

  /** The loop of `broadcast` and of `publish`.  Every peer is tried exactly once;
      as a multiset, exactly those whose send succeeded remain. */
  method FanOut<C>(send: Sender<C>, peers: seq<C>, m: Msg) returns (kept: seq<C>, ghost broken: seq<C>)
    ensures multiset(kept) == multiset(Survivors(send, peers, m))
    ensures multiset(broken) == multiset(Casualties(send, peers, m))
    ensures |kept| + |broken| == |peers|
  {
    kept, broken := peers, [];
    var i := 0;
    assert kept[0..] == peers && kept[..0] == [];
    while i < |kept|
      invariant i <= |kept|
      invariant Underway(send, peers, m, kept[..i], kept[i..], broken)
      decreases |kept| - i
    {
      var (c, e) := send(kept[i], m);
      if e.Some? {
        BrokenOn(send, peers, m, kept, i, broken);
        kept, broken := SwapRemove(kept, i), broken + [c];
      } else {
        SentOn(send, peers, m, kept, i, broken);
        kept := kept[i := c];
        i := i + 1;
      }
    }
    assert kept[..i] == kept && kept[i..] == [];
  }

  // ── Receiving from any peer ─────────────────────────────────────────────

  ghost predicate HasFailed<C(!new)>(poll: Poller<C>, c: C) {
    exists c', e, n: nat :: CameTo(poll, c, c', Failed(e), n)
  }

  /** Polling a peer that is not ready loses no partial read: what it read counts
      towards its next message. */
  lemma {:induction false} WaitingLosesNothing(c: Conn, c': Conn, n: nat)
    requires ConnOk(c) && Waited(Poll, c, c', n)
    ensures Advanced(c, c', [])
    decreases n
  {
    if n > 0 {
      PollParses(c);
      var c1 := Poll(c).0;
      WaitingLosesNothing(c1, c', n - 1);
      AdvancedTwice(c, c1, c', [], []);
    }
  }

  /** A peer that delivers gives up exactly its next message. */
  lemma {:induction false} DeliveryTakesOneMessage(c: Conn, c': Conn, m: Msg, n: nat)
    requires ConnOk(c) && CameTo(Poll, c, c', Received(m), n)
    ensures Advanced(c, c', [Payload(m.body)]) && c'.part == []
  {
    var mid :| Waited(Poll, c, mid, n) && Poll(mid) == (c', Received(m));
    WaitingLosesNothing(c, mid, n);
    PollParses(mid);
    AdvancedTwice(c, mid, c', [], [Payload(m.body)]);
  }

  datatype AnyResult = NotYet | FromPeer(msg: Msg) | NoPeers

  function Indices(n: nat): seq<nat> {
    seq(n, i => i)
  }

  /** `origin` names, for each peer in the list, the peer it was at the start, and
      `gone` the peers dropped; together they are all of them, once each. */
  ghost predicate AllAccounted<C(!new)>(poll: Poller<C>, before: seq<C>, origin: seq<nat>, gone: seq<nat>) {
    && multiset(origin) + multiset(gone) == multiset(Indices(|before|))
    && (forall k :: 0 <= k < |origin| ==> origin[k] < |before|)
    && (forall g :: g in gone ==> g < |before| && HasFailed(poll, before[g]))
  }

  /** In round `pass`, counting from 0, the peers up to i have had their turn: nobody
      listed has been ready so far, and all have been polled once in every round. */
  ghost predicate InTurn<C>(poll: Poller<C>, before: seq<C>, peers: seq<C>, origin: seq<nat>, i: nat, pass: nat) {
    && |origin| == |peers|
    && forall k :: 0 <= k < |peers| ==>
         origin[k] < |before| && Waited(poll, before[origin[k]], peers[k], if k < i then pass + 1 else pass)
  }

  lemma {:induction false} RoundsBegin<C(!new)>(poll: Poller<C>, peers: seq<C>)
    ensures AllAccounted(poll, peers, Indices(|peers|), [])
    ensures InTurn(poll, peers, peers, Indices(|peers|), 0, 0)
  {
  }

  lemma {:induction false} NextRound<C>(poll: Poller<C>, before: seq<C>, peers: seq<C>, origin: seq<nat>, pass: nat)
    requires InTurn(poll, before, peers, origin, |peers|, pass)
    ensures InTurn(poll, before, peers, origin, 0, pass + 1)
  {
  }

  lemma {:induction false} StaysPending<C>(poll: Poller<C>, before: seq<C>, peers: seq<C>, origin: seq<nat>, i: nat,
                                           pass: nat)
    requires InTurn(poll, before, peers, origin, i, pass) && i < |peers| && poll(peers[i]).1.Pending?
    ensures InTurn(poll, before, peers[i := poll(peers[i]).0], origin, i + 1, pass)
  {
    WaitedMore(poll, before[origin[i]], peers[i], pass);
  }

  /** A peer that fails leaves the list, and the last one moves into its place --
      where it still gets its turn. */
  lemma {:induction false} Dropped<C(!new)>(poll: Poller<C>, before: seq<C>, peers: seq<C>, origin: seq<nat>,
                                     gone: seq<nat>, i: nat, pass: nat)
    requires AllAccounted(poll, before, origin, gone) && InTurn(poll, before, peers, origin, i, pass)
    requires i < |peers| && poll(peers[i]).1.Failed?
    ensures AllAccounted(poll, before, SwapRemove(origin, i), gone + [origin[i]])
    ensures InTurn(poll, before, SwapRemove(peers, i), SwapRemove(origin, i), i, pass)
  {
    SwapRemoveLaw(origin, i);
    var (c, o) := poll(peers[i]);
    assert Waited(poll, before[origin[i]], peers[i], pass);
    assert CameTo(poll, before[origin[i]], c, Failed(o.error), pass);
    ListShrinks(poll, before, peers, origin, i, pass);
  }

  lemma {:induction false} ListShrinks<C>(poll: Poller<C>, before: seq<C>, peers: seq<C>, origin: seq<nat>, i: nat,
                                          pass: nat)
    requires InTurn(poll, before, peers, origin, i, pass) && i < |peers|
    ensures InTurn(poll, before, SwapRemove(peers, i), SwapRemove(origin, i), i, pass)
  {
  }

  /** It was the turn of peer i, its state then was `asked`, and it delivered `m`. */
  ghost predicate Delivery<C>(poll: Poller<C>, before: seq<C>, peers: seq<C>, origin: seq<nat>,
                              i: nat, pass: nat, asked: C, m: Msg)
  {
    i < |peers| && InTurn(poll, before, peers[i := asked], origin, i, pass) && poll(asked) == (peers[i], Received(m))
  }

  lemma {:induction false} DeliveryIsOnePeers<C(!new)>(poll: Poller<C>, before: seq<C>, peers: seq<C>, origin: seq<nat>,
                                                       i: nat, pass: nat, asked: C, m: Msg)
    requires Delivery(poll, before, peers, origin, i, pass, asked, m)
    ensures origin[i] < |before| && CameTo(poll, before[origin[i]], peers[i], Received(m), pass)
    ensures forall k :: 0 <= k < |peers| && k != i ==>
              origin[k] < |before| && Waited(poll, before[origin[k]], peers[k], if k < i then pass + 1 else pass)
  {
    var earlier := peers[i := asked];
    assert Waited(poll, before[origin[i]], earlier[i], pass);
    forall k | 0 <= k < |peers| && k != i
      ensures origin[k] < |before| && Waited(poll, before[origin[k]], peers[k], if k < i then pass + 1 else pass)
    {
      assert earlier[k] == peers[k];
    }
  }

  /** On framed transports: the delivery took that one message from its peer, and
      nothing from any other. */
  lemma {:induction false} OnlyOneMessageIsTaken(before: seq<Conn>, peers: seq<Conn>, origin: seq<nat>,
                                                 i: nat, pass: nat, asked: Conn, m: Msg)
    requires Delivery(Poll, before, peers, origin, i, pass, asked, m)
    requires forall c :: c in before ==> ConnOk(c)
    ensures |origin| == |peers|
    ensures forall k :: 0 <= k < |peers| ==>
              origin[k] < |before|
              && Advanced(before[origin[k]], peers[k], if k == i then [Payload(m.body)] else [])
    ensures i < |peers| && peers[i].part == []
  {
    DeliveryIsOnePeers(Poll, before, peers, origin, i, pass, asked, m);
    forall k | 0 <= k < |peers|
      ensures origin[k] < |before|
              && Advanced(before[origin[k]], peers[k], if k == i then [Payload(m.body)] else [])
    {
      if k != i {
        WaitingLosesNothing(before[origin[k]], peers[k], if k < i then pass + 1 else pass);
      } else {
        DeliveryTakesOneMessage(before[origin[i]], peers[i], m, pass);
      }
    }
    DeliveryTakesOneMessage(before[origin[i]], peers[i], m, pass);
  }

  /** What a peer is after a send its write schedule takes: one whole frame more is
      out, and nothing else has changed but the schedule. */
  function Reached(c: Conn, m: Msg): Conn
    requires SendEnd(c, m).Through?
  {
    c.(inner := c.inner.(output := c.inner.output + FrameBytes(c.format, PayloadOf(m)), writePlan := SendEnd(c, m).plan))
  }

  /** The peers whose write schedules take the frame, each with the frame out. */
  function AllReached(peers: seq<Conn>, m: Msg): seq<Conn> {
    if peers == [] then []
    else (if SendEnd(peers[0], m).Through? then [Reached(peers[0], m)] else []) + AllReached(peers[1..], m)
  }

  /** On framed transports, a fan-out keeps exactly the peers whose write schedules
      take the frame, and each of them has it whole on its wire. */
  lemma {:induction false} SurvivorsAreReached(peers: seq<Conn>, m: Msg)
    ensures Survivors(SendOn, peers, m) == AllReached(peers, m)
    decreases |peers|
  {
    if peers != [] {
      SurvivorsAreReached(peers[1..], m);
      SentIsReached(peers[0], m);
    }
  }

  lemma {:induction false} SentIsReached(c: Conn, m: Msg)
    ensures SendOn(c, m).1.None? <==> SendEnd(c, m).Through?
    ensures SendOn(c, m).1.None? ==> SendOn(c, m).0 == Reached(c, m)
  {
    hide SendSpec, FrameBytes, SendEnd;
    SendIsDecided(c, m);
    SendWritesOneFrame(c, m);
    if SendEnd(c, m).Through? {
      var frame := FrameBytes(c.format, PayloadOf(m));
      assert frame[..|frame|] == frame;
    }
  }

  /** A call that ends without a message had none to take: no message that was all
      on the stream of a peer still listed was brought in its rounds. */
  lemma {:induction false} NotYetMeansNoneArrived(before: seq<Conn>, peers: seq<Conn>, origin: seq<nat>, rounds: nat,
                                                  k: nat, payload: seq<byte>, rest: seq<byte>)
    requires InTurn(Poll, before, peers, origin, 0, rounds) && k < |peers|
    requires var c := before[origin[k]]; MidFrame(c.format, c.part, c.inner, payload, rest)
    ensures var c := before[origin[k]]; !ArrivesOn(c.format, c.part, c.inner, payload, rounds)
  {
    var c := before[origin[k]];
    ReadyMessageArrives(c, payload, rest, rounds);
    AwaitIsFirst(FRAMED, c, rounds);
    WaitedOnce(Poll, c, peers[k], Await(FRAMED, c, rounds).0, rounds, Await(FRAMED, c, rounds).1);
  }

  class Bus0<C(!new)> {
    const ops: Ops<C>
    var peers: seq<C>

    constructor (ops: Ops<C>, peers: seq<C>)
      ensures this.ops == ops && this.peers == peers
    {
      this.ops, this.peers := ops, peers;
    }

    method Broadcast(msg: Msg)
      modifies this
      ensures multiset(peers) == multiset(Survivors(ops.send, old(peers), msg))
    {
      ghost var broken;
      peers, broken := FanOut(ops.send, peers, msg);
    }

    /** Poll all peers in turn, round after round, until one delivers.  The future
        is dropped after `rounds` more rounds in which none was ready. */
    method RecvAny(rounds: nat) returns (r: AnyResult, ghost origin: seq<nat>, ghost gone: seq<nat>,
                                         ghost at: nat, ghost pass: nat, ghost asked: Option<C>)
      modifies this
      ensures AllAccounted(ops.poll, old(peers), origin, gone) && |origin| == |peers|
      ensures r.NoPeers? <==> |peers| == 0
      ensures r.NotYet? ==> InTurn(ops.poll, old(peers), peers, origin, 0, rounds + 1)
      ensures r.FromPeer? ==> pass <= rounds && asked.Some? && Delivery(ops.poll, old(peers), peers, origin, at, pass, asked.value, r.msg)
    {
      hide AllAccounted, InTurn, Delivery;
      ghost var before := peers;
      origin, gone, at, pass, asked := Indices(|peers|), [], 0, 0, None;
      RoundsBegin(ops.poll, peers);
      r := NotYet;
      var round := 0;
      while r.NotYet? && |peers| > 0 && round <= rounds
        invariant round <= rounds + 1
        invariant AllAccounted(ops.poll, before, origin, gone) && |origin| == |peers| && !r.NoPeers?
        invariant r.NotYet? ==> InTurn(ops.poll, before, peers, origin, 0, round)
        invariant r.FromPeer? ==>
                    && pass <= rounds && asked.Some? && |peers| > 0
                    && Delivery(ops.poll, before, peers, origin, at, pass, asked.value, r.msg)
        decreases r.NotYet?, rounds + 1 - round
      {
        var found;
        pass := round;
        found, origin, gone, at, asked := PollAll(before, origin, gone, pass);
        if found.Some? {
          r := FromPeer(found.value);
        } else {
          round := round + 1;
        }
      }
      if r.NotYet? && |peers| == 0 {
        r := NoPeers;
      }
    }

    /** One round over the list, which shrinks as peers fail. */
    method PollAll(ghost before: seq<C>, ghost origin0: seq<nat>, ghost gone0: seq<nat>, ghost pass: nat)
      returns (found: Option<Msg>, ghost origin: seq<nat>, ghost gone: seq<nat>, ghost at: nat, ghost asked: Option<C>)
      requires AllAccounted(ops.poll, before, origin0, gone0) && InTurn(ops.poll, before, peers, origin0, 0, pass)
      modifies this
      ensures AllAccounted(ops.poll, before, origin, gone) && |origin| == |peers|
      ensures found.None? ==> InTurn(ops.poll, before, peers, origin, 0, pass + 1)
      ensures found.Some? ==> |peers| > 0 && asked.Some? && Delivery(ops.poll, before, peers, origin, at, pass, asked.value, found.value)
    {
      origin, gone, at, asked := origin0, gone0, 0, None;
      var i := 0;
      while i < |peers|
        invariant i <= |peers|
        invariant AllAccounted(ops.poll, before, origin, gone) && InTurn(ops.poll, before, peers, origin, i, pass)
        decreases |peers| - i
      {
        var (c, o) := ops.poll(peers[i]);
        if o.Received? {
          ghost var listed := peers;
          asked := Some(peers[i]);
          peers := peers[i := c];
          assert peers[i := asked.value] == listed;
          return Some(o.msg), origin, gone, i, asked;
        }
        if o.Failed? {
          Dropped(ops.poll, before, peers, origin, gone, i, pass);
          gone := gone + [origin[i]];
          origin := SwapRemove(origin, i);
          peers := SwapRemove(peers, i);
        } else {
          StaysPending(ops.poll, before, peers, origin, i, pass);
          peers := peers[i := c];
          i := i + 1;
        }
      }
      NextRound(ops.poll, before, peers, origin, pass);
      found := None;
    }
  }
}
