/** REQ and REP over two FIFO channels: resends, stale replies, requests a server
    never answers, calls given up, lost connections -- and what a reply that is
    returned can be. */
module ReqRepSystem {
  import opened Bytes
  import opened Messages
  import opened ReqRep

  /** A request and a reply in a channel.  `call` and `served` are history: they
      say where the message came from, and no step looks at them. */
  datatype Request = Request(payload: seq<byte>, call: nat)
  datatype Reply = Reply(payload: seq<byte>, served: nat)

  /** The server between `receive` and `reply`: the `Responder` and its message. */
  datatype Held = Held(routing: RoutingInfo, request: seq<byte>, call: nat)

  /** History: one reply the server produced, and the request it saw. */
  datatype Served = Served(call: nat, request: seq<byte>, reply: seq<byte>)

  /** History: one reply `request` returned. */
  datatype Returned = Returned(call: nat, reply: seq<byte>, served: nat)

  /** The locals of a `request` call that is waiting. */
  datatype Waiting = Waiting(sentId: u32, outgoing: seq<byte>)

  /** Channels and server. */
  datatype Net = Net(c2s: seq<Request>, s2c: seq<Reply>, responder: Option<Held>, served: seq<Served>)

  datatype Sys = Sys(nextId: u32, waiting: Option<Waiting>, net: Net, calls: seq<seq<byte>>, returned: seq<Returned>)

  datatype Action =
    | Call(body: seq<byte>)    // request() is called and sends
    | Resend                   // the resend timer fires
    | Deliver                  // request() receives the next reply
    | Abandon                  // the request() future is dropped
    | Serve                    // the server receives the next request
    | Answer(reply: seq<byte>) // it replies
    | Ignore                   // it drops its Responder
    | Reconnect                // the connection is replaced, losing what is in flight

  function Init(): Sys {
    Sys(1, None, Net([], [], None, []), [], [])
  }

  function ServerStep(net: Net, a: Action): Net {
    match a
    case Serve =>
      if net.c2s == [] || net.responder.Some? then net
      else
        var m := Msg([], net.c2s[0].payload);
        var routing := RepIncoming(m).result;
        net.(c2s := net.c2s[1..],
             responder := if routing.None? then None
                          else Some(Held(routing.value, m.body[4..], net.c2s[0].call)))
    case Answer(reply) =>
      if net.responder.None? then net
      else
        var h := net.responder.value;
        net.(s2c := net.s2c + [Reply(ReplyWire(h.routing, reply), |net.served|)],
             served := net.served + [Served(h.call, h.request, reply)],
             responder := None)
    case Ignore => net.(responder := None)
    case Reconnect => net.(c2s := [], s2c := [], responder := None)
    case _ => net
  }

  function SendRequest(net: Net, payload: seq<byte>, call: nat): Net {
    net.(c2s := net.c2s + [Request(payload, call)])
  }

  /** `request` looks at the reply it received. */
  function Examine(s: Sys, w: Waiting, reply: Reply): Sys
    requires s.calls != []
  {
    match ReqIncoming(Msg([], reply.payload), w.sentId).result
    case None => s.(waiting := None, returned := s.returned + [Returned(|s.calls| - 1, reply.payload[4..], reply.served)])
    case Some(IdMismatch(_, _)) => s
    case Some(MessageTooShort) => s.(waiting := None)
  }

  /** One step of the system; a step that is not enabled changes nothing. */
  function Next(s: Sys, a: Action): Sys {
    match a
    case Call(body) =>
      if s.waiting.Some? then s
      else
        var w := Waiting(s.nextId, RequestWire(s.nextId, body));
        Sys(NextId(s.nextId), Some(w), SendRequest(s.net, w.outgoing, |s.calls|), s.calls + [body], s.returned)
    case Resend =>
      if s.waiting.None? || s.calls == [] then s
      else s.(net := SendRequest(s.net, s.waiting.value.outgoing, |s.calls| - 1))
    case Deliver =>
      if s.waiting.None? || s.net.s2c == [] || s.calls == [] then s
      else Examine(s.(net := s.net.(s2c := s.net.s2c[1..])), s.waiting.value, s.net.s2c[0])
    case Abandon => s.(waiting := None)
    case _ => s.(net := ServerStep(s.net, a))
  }

  function Run(s: Sys, actions: seq<Action>): Sys
    decreases |actions|
  {
    if actions == [] then s else Run(Next(s, actions[0]), actions[1..])
  }

  // ── The invariant ───────────────────────────────────────────────────────

  ghost predicate ClientInv(s: Sys) {
    && s.nextId == IssuedId(|s.calls|)
    && (s.waiting.Some? ==>
          s.calls != [] && s.waiting.value == WaitingFor(s.calls, |s.calls| - 1))
  }

  function WaitingFor(calls: seq<seq<byte>>, k: nat): Waiting
    requires k < |calls|
  {
    Waiting(IssuedId(k), RequestWire(IssuedId(k), calls[k]))
  }

  ghost predicate RequestOk(r: Request, calls: seq<seq<byte>>) {
    r.call < |calls| && r.payload == RequestWire(IssuedId(r.call), calls[r.call])
  }

  ghost predicate ReplyOk(r: Reply, served: seq<Served>) {
    r.served < |served| && r.payload == ReplyWire(RoutingOf(IssuedId(served[r.served].call)), served[r.served].reply)
  }

  /** Every message in flight is what its origin says. */
  ghost predicate NetInv(net: Net, calls: seq<seq<byte>>) {
    && (forall r :: r in net.c2s ==> RequestOk(r, calls))
    && (forall r :: r in net.s2c ==> ReplyOk(r, net.served))
    && (net.responder.Some? ==>
          var h := net.responder.value;
          h.call < |calls| && h.routing == RoutingOf(IssuedId(h.call)) && h.request == calls[h.call])
    && (forall e :: e in net.served ==> e.call < |calls| && e.request == calls[e.call])
  }

  /** A returned reply was produced by the server for the request of some call, no
      later than the one it was returned to, whose ID passes the check. */
  ghost predicate ReturnedOk(r: Returned, served: seq<Served>) {
    && r.served < |served|
    && served[r.served].reply == r.reply
    && served[r.served].call <= r.call
    && WithoutHighBit(WithHighBit(IssuedId(served[r.served].call))) == IssuedId(r.call)
  }

  ghost predicate HistoryInv(s: Sys) {
    && (forall r :: r in s.returned ==> r.call < |s.calls| && ReturnedOk(r, s.net.served))
    && (forall i, j :: 0 <= i < j < |s.returned| ==> s.returned[i].call < s.returned[j].call)
    && (s.waiting.Some? ==> forall r :: r in s.returned ==> r.call < |s.calls| - 1)
  }

  ghost predicate Inv(s: Sys) {
    ClientInv(s) && NetInv(s.net, s.calls) && HistoryInv(s)
  }

  /** History is never rewritten. */
  ghost predicate OnlyGrows(s: Sys, s': Sys) {
    s.calls <= s'.calls && s.net.served <= s'.net.served && s.returned <= s'.returned
  }

  lemma {:induction false} SendKeepsNet(net: Net, calls: seq<seq<byte>>, k: nat)
    requires NetInv(net, calls) && k < |calls|
    ensures NetInv(SendRequest(net, RequestWire(IssuedId(k), calls[k]), k), calls)
  {
  }

  lemma {:induction false} MoreCallsKeepNet(net: Net, calls: seq<seq<byte>>, body: seq<byte>)
    requires NetInv(net, calls)
    ensures NetInv(net, calls + [body])
  {
  }

  lemma {:induction false} ServerKeepsNet(net: Net, calls: seq<seq<byte>>, a: Action)
    requires NetInv(net, calls)
    ensures NetInv(ServerStep(net, a), calls)
    ensures net.served <= ServerStep(net, a).served
  {
    if a.Serve? && net.c2s != [] {
      var r := net.c2s[0];
      assert RequestOk(r, calls);
      RequestArrives(IssuedId(r.call), calls[r.call]);
      assert r.payload[4..] == calls[r.call];
    }
  }

  lemma {:induction false} ExamineKeepsInv(s: Sys)
    requires Inv(s) && s.waiting.Some? && s.net.s2c != []
    ensures Inv(Next(s, Deliver))
  {
    var reply := s.net.s2c[0];
    assert ReplyOk(reply, s.net.served);
    var e := s.net.served[reply.served];
    assert e in s.net.served;
    ReplyArrives(IssuedId(e.call), s.waiting.value.sentId, e.reply);
    assert reply.payload[4..] == e.reply;
  }

  lemma {:induction false} StepKeepsInv(s: Sys, a: Action)
    requires Inv(s)
    ensures Inv(Next(s, a))
  {
    match a
    case Call(body) =>
      if s.waiting.None? {
        MoreCallsKeepNet(s.net, s.calls, body);
        SendKeepsNet(s.net, s.calls + [body], |s.calls|);
      }
    case Resend =>
      if s.waiting.Some? {
        SendKeepsNet(s.net, s.calls, |s.calls| - 1);
      }
    case Deliver =>
      if s.waiting.Some? && s.net.s2c != [] {
        ExamineKeepsInv(s);
      }
    case Abandon =>
    case _ => ServerKeepsNet(s.net, s.calls, a);
  }

  lemma {:induction false} StepOnlyGrows(s: Sys, a: Action)
    ensures OnlyGrows(s, Next(s, a))
  {
  }

  lemma {:induction false} RunKeepsInv(s: Sys, actions: seq<Action>)
    requires Inv(s)
    ensures Inv(Run(s, actions))
    ensures OnlyGrows(s, Run(s, actions))
    decreases |actions|
  {
    if actions != [] {
      hide Inv, Next;
      StepKeepsInv(s, actions[0]);
      StepOnlyGrows(s, actions[0]);
      RunKeepsInv(Next(s, actions[0]), actions[1..]);
    }
  }

  /** Every reply in flight carries a routing word. */
  lemma {:induction false} RepliesAreLongEnough(s: Sys, sentId: u32)
    requires Inv(s) && s.net.s2c != []
    ensures ReqIncoming(Msg([], s.net.s2c[0].payload), sentId).result != Some(MessageTooShort)
  {
    assert ReplyOk(s.net.s2c[0], s.net.served);
  }

  // ── Main results ────────────────────────────────────────────────────────

  /** The reply is one the server produced for this very call's request. */
  ghost predicate OwnReply(s: Sys, r: Returned) {
    && r.call < |s.calls| && r.served < |s.net.served|
    && s.net.served[r.served] == Served(r.call, s.calls[r.call], r.reply)
  }

  ghost predicate Correct(s: Sys) {
    forall r :: r in s.returned ==> OwnReply(s, r)
  }

  /** Over every run with at most 2^32 - 1 calls, every reply returned is the
      server's answer to that call's own request, and no call returns twice. */
  lemma {:induction false} RepliesAreOwn(actions: seq<Action>)
    requires |Run(Init(), actions).calls| <= ID_COUNT
    ensures Correct(Run(Init(), actions))
    ensures forall i, j :: 0 <= i < j < |Run(Init(), actions).returned| ==>
              Run(Init(), actions).returned[i].call < Run(Init(), actions).returned[j].call
  {
    RunKeepsInv(Init(), actions);
    InvGivesOwnReplies(Run(Init(), actions));
  }

  lemma {:induction false} InvGivesOwnReplies(s: Sys)
    requires Inv(s) && |s.calls| <= ID_COUNT
    ensures Correct(s)
  {
    forall r | r in s.returned
      ensures OwnReply(s, r)
    {
      var e := s.net.served[r.served];
      assert e in s.net.served;
      AcceptedIds(e.call, r.call);
    }
  }

  /** Over every run of any length: a reply that is returned is either the call's
      own or a reply to a call at least 2^31 - 1 calls earlier; and a call whose
      ID is 2^31 or above is never answered at all. */
  lemma {:induction false} OnlyVeryOldRepliesAreTakenForNew(actions: seq<Action>, r: Returned)
    requires r in Run(Init(), actions).returned
    ensures var s := Run(Init(), actions);
            && r.call < |s.calls| && r.served < |s.net.served| && s.net.served[r.served].reply == r.reply
            && (OwnReply(s, r) || r.call - s.net.served[r.served].call >= HIGH_BIT - 1)
            && IssuedId(r.call) < HIGH_BIT
  {
    var s := Run(Init(), actions);
    RunKeepsInv(Init(), actions);
    var e := s.net.served[r.served];
    assert e in s.net.served;
    AcceptedIds(e.call, r.call);
  }

  /** A reply in the channel that the ID check of call k lets through. */
  ghost predicate Passes(s: Sys, i: nat)
    requires i < |s.net.s2c| && s.calls != []
  {
    s.net.s2c[i].served < |s.net.served|
    && WithoutHighBit(WithHighBit(IssuedId(s.net.served[s.net.s2c[i].served].call))) == IssuedId(|s.calls| - 1)
  }

  function Repeat(a: Action, n: nat): seq<Action> {
    seq(n, _ => a)
  }

  /** A waiting call gets the first reply in its channel that passes the check;
      all stale ones before it are discarded and nothing else is. */
  lemma {:induction false} StaleRepliesAreSkipped(s: Sys, i: nat)
    requires Inv(s) && s.waiting.Some? && i < |s.net.s2c|
    requires Passes(s, i) && forall j :: 0 <= j < i ==> !Passes(s, j)
    ensures Run(s, Repeat(Deliver, i + 1)) == AfterReply(s, i)
    decreases i
  {
    var s1 := Next(s, Deliver);
    assert Repeat(Deliver, i + 1)[1..] == Repeat(Deliver, i);
    if i == 0 {
      NextReply(s);
      assert Run(s1, Repeat(Deliver, 0)) == s1;
    } else {
      hide Next, Inv;
      StaleIsSkipped(s, i);
      StaleRepliesAreSkipped(s1, i - 1);
    }
  }

  lemma {:induction false} StaleIsSkipped(s: Sys, i: nat)
    requires Inv(s) && s.waiting.Some? && 0 < i < |s.net.s2c|
    requires Passes(s, i) && forall j :: 0 <= j < i ==> !Passes(s, j)
    ensures var s1 := Next(s, Deliver);
            && Inv(s1) && s1.waiting.Some? && |s1.net.s2c| == |s.net.s2c| - 1
            && Passes(s1, i - 1) && (forall j :: 0 <= j < i - 1 ==> !Passes(s1, j))
            && AfterReply(s1, i - 1) == AfterReply(s, i)
  {
    NextReply(s);
    StepKeepsInv(s, Deliver);
    hide Next, Inv;
    var s1 := Next(s, Deliver);
    assert !Passes(s, 0);
    assert s1 == s.(net := s.net.(s2c := s.net.s2c[1..]));
    forall j | 0 <= j < i
      ensures Passes(s1, j) == Passes(s, j + 1)
    {
      assert s1.net.s2c[j] == s.net.s2c[j + 1];
    }
    assert s1.net.s2c[i..] == s.net.s2c[i + 1..];
  }

  /** The call has returned the i-th reply in its channel. */
  function AfterReply(s: Sys, i: nat): Sys
    requires i < |s.net.s2c| && s.net.s2c[i].served < |s.net.served| && s.calls != []
  {
    var served := s.net.s2c[i].served;
    s.(net := s.net.(s2c := s.net.s2c[i + 1..]), waiting := None,
       returned := s.returned + [Returned(|s.calls| - 1, s.net.served[served].reply, served)])
  }

  lemma {:induction false} NextReply(s: Sys)
    requires Inv(s) && s.waiting.Some? && s.net.s2c != []
    ensures Next(s, Deliver) == if Passes(s, 0) then AfterReply(s, 0) else s.(net := s.net.(s2c := s.net.s2c[1..]))
  {
    var reply := s.net.s2c[0];
    assert ReplyOk(reply, s.net.served);
    var e := s.net.served[reply.served];
    ReplyArrives(IssuedId(e.call), s.waiting.value.sentId, e.reply);
    assert reply.payload[4..] == e.reply;
  }

  // ── Progress ────────────────────────────────────────────────────────────

  /** The connection is lost with all that is in flight, the resend timer fires, the
      server takes the request and answers it, and the answer is received. */
  function Retry(reply: seq<byte>): seq<Action> {
    [Reconnect, Resend, Serve, Answer(reply), Deliver]
  }

  /** The call in progress has returned `reply`, the server's answer to its body; all
      channels are empty. */
  function Answered(s: Sys, reply: seq<byte>): Sys
    requires s.calls != []
  {
    var k := |s.calls| - 1;
    s.(waiting := None, net := Net([], [], None, s.net.served + [Served(k, s.calls[k], reply)]),
       returned := s.returned + [Returned(k, reply, |s.net.served|)])
  }

  /** Retransmission works: from every state in which a call waits, whatever was in
      flight, held or lost, it gets its own answer when the timer fires and the
      server then answers -- exactly for the IDs below 2^31. */
  lemma {:induction false} RetryIsAnswered(s: Sys, reply: seq<byte>)
    requires Inv(s) && s.waiting.Some?
    ensures IssuedId(|s.calls| - 1) < HIGH_BIT ==>
              Run(s, Retry(reply)) == Answered(s, reply) && OwnReply(Answered(s, reply), Answered(s, reply).returned[|s.returned|])
    ensures IssuedId(|s.calls| - 1) >= HIGH_BIT ==>
              Run(s, Retry(reply)).waiting == s.waiting && Run(s, Retry(reply)).returned == s.returned
  {
    hide Next;
    var k := |s.calls| - 1;
    var s2, s4 := Resent(s), AnsweredNotYet(s, reply);
    ResendSends(s);
    ServerAnswers(s2, reply);
    RunTwo(s, Reconnect, Resend);
    RunTwo(s2, Serve, Answer(reply));
    RunAppend(s, [Reconnect, Resend], [Serve, Answer(reply)]);
    assert [Reconnect, Resend] + [Serve, Answer(reply)] + [Deliver] == Retry(reply);
    RunAppend(s, [Reconnect, Resend] + [Serve, Answer(reply)], [Deliver]);
    RunOne(s4, Deliver);
    AnswerIsReceived(s, s4, reply);
  }

  /** A call on an idle connection is answered just so. */
  lemma {:induction false} CallIsAnswered(s: Sys, body: seq<byte>, reply: seq<byte>)
    requires Inv(s) && s.waiting.None? && s.net == Net([], [], None, s.net.served)
    requires IssuedId(|s.calls|) < HIGH_BIT
    ensures Run(s, [Call(body), Serve, Answer(reply), Deliver]) == Answered(Next(s, Call(body)), reply)
    ensures |Answered(Next(s, Call(body)), reply).calls| == |s.calls| + 1
    ensures Answered(Next(s, Call(body)), reply).calls[|s.calls|] == body
  {
    var s1 := Next(s, Call(body));
    StepKeepsInv(s, Call(body));
    assert s1 == Resent(s1);
    hide Next;
    ServerAnswers(s1, reply);
    RunOne(s, Call(body));
    RunTwo(s1, Serve, Answer(reply));
    RunAppend(s, [Call(body)], [Serve, Answer(reply)]);
    assert [Call(body)] + [Serve, Answer(reply)] + [Deliver] == [Call(body), Serve, Answer(reply), Deliver];
    RunAppend(s, [Call(body)] + [Serve, Answer(reply)], [Deliver]);
    RunOne(AnsweredNotYet(s1, reply), Deliver);
    AnswerIsReceived(s1, AnsweredNotYet(s1, reply), reply);
  }

  /** After the reconnect and the resend: nothing but this call's request in flight. */
  function Resent(s: Sys): Sys
    requires s.calls != []
  {
    var k := |s.calls| - 1;
    s.(net := Net([Request(RequestWire(IssuedId(k), s.calls[k]), k)], [], None, s.net.served))
  }

  function AnsweredNotYet(s: Sys, reply: seq<byte>): Sys
    requires s.calls != []
  {
    var k := |s.calls| - 1;
    s.(net := Net([], [Reply(ReplyWire(RoutingOf(IssuedId(k)), reply), |s.net.served|)], None,
                  s.net.served + [Served(k, s.calls[k], reply)]))
  }

  lemma {:induction false} ResendSends(s: Sys)
    requires Inv(s) && s.waiting.Some?
    ensures Next(Next(s, Reconnect), Resend) == Resent(s)
  {
  }

  lemma {:induction false} ServerAnswers(s: Sys, reply: seq<byte>)
    requires s.calls != [] && s == Resent(s)
    ensures Next(Next(s, Serve), Answer(reply)) == AnsweredNotYet(s, reply)
  {
    var k := |s.calls| - 1;
    RequestArrives(IssuedId(k), s.calls[k]);
    assert s.net.c2s[0].payload[4..] == s.calls[k];
    assert s.net.c2s[1..] == [];
  }

  lemma {:induction false} AnswerIsReceived(s: Sys, s4: Sys, reply: seq<byte>)
    requires Inv(s) && s.waiting.Some? && s4 == AnsweredNotYet(s, reply)
    ensures var k := |s.calls| - 1;
            Next(s4, Deliver) == if IssuedId(k) < HIGH_BIT then Answered(s, reply)
                                 else s4.(net := s4.net.(s2c := []))
  {
    var k := |s.calls| - 1;
    ReplyArrives(IssuedId(k), IssuedId(k), reply);
    assert s4.net.s2c[0].payload[4..] == reply;
    assert s4.net.s2c[1..] == [];
  }

  lemma {:induction false} RunOne(s: Sys, a: Action)
    ensures Run(s, [a]) == Next(s, a)
  {
    assert [a][1..] == [];
    assert Run(Next(s, a), []) == Next(s, a);
  }

  // ── The bound on the number of calls is exact ───────────────────────────

  /** `n` calls, each given up at once. */
  function Idle(n: nat): seq<Action> {
    if n == 0 then [] else [Call([]), Abandon] + Idle(n - 1)
  }

  lemma {:induction false} RunAppend(s: Sys, a: seq<Action>, b: seq<Action>)
    ensures Run(s, a + b) == Run(Run(s, a), b)
    decreases |a|
  {
    if a == [] {
      assert a + b == b;
    } else {
      assert (a + b)[1..] == a[1..] + b;
      RunAppend(Next(s, a[0]), a[1..], b);
    }
  }

  /** Calls given up only move the ID counter on and leave requests behind. */
  ghost predicate MovedOn(s: Sys, s': Sys, n: nat) {
    && s'.waiting.None? && |s'.calls| == |s.calls| + n && s'.nextId == IssuedId(|s'.calls|)
    && s'.returned == s.returned && s'.net == s.net.(c2s := s'.net.c2s)
    && s.calls <= s'.calls
  }

  lemma {:induction false} IdleMovesOn(s: Sys, n: nat)
    requires s.waiting.None? && s.nextId == IssuedId(|s.calls|)
    ensures MovedOn(s, Run(s, Idle(n)), n)
    decreases n
  {
    if n > 0 {
      var s1 := Next(Next(s, Call([])), Abandon);
      RunAppend(s, [Call([]), Abandon], Idle(n - 1));
      RunTwo(s, Call([]), Abandon);
      IdleMovesOn(s1, n - 1);
    }
  }

  lemma {:induction false} RunTwo(s: Sys, a: Action, b: Action)
    ensures Run(s, [a, b]) == Next(Next(s, a), b)
  {
    assert [a, b][1..] == [b] && [b][1..] == [];
    assert Run(Next(Next(s, a), b), []) == Next(Next(s, a), b);
  }

  /** One request, its answer, and the call given up before the answer arrives. */
  function AnsweredTooLate(): seq<Action> {
    [Reconnect, Call([1])] + [Serve, Answer([2])] + [Abandon, Ignore]
  }

  lemma {:induction false} ReplyIsLeftBehind(s: Sys)
    requires s.waiting.None? && s.nextId == IssuedId(|s.calls|) && s.returned == [] && s.net.served == []
    ensures var s' := Run(s, AnsweredTooLate());
            && s'.waiting.None? && |s'.calls| == |s.calls| + 1 && s'.nextId == IssuedId(|s'.calls|)
            && s'.returned == [] && s'.net.served == [Served(|s.calls|, [1], [2])]
            && s'.net.s2c == [Reply(ReplyWire(RoutingOf(IssuedId(|s.calls|)), [2]), 0)]
  {
    hide Run, Next;
    var s1 := Next(Next(s, Reconnect), Call([1]));
    RunTwo(s, Reconnect, Call([1]));
    CallOnNewConnection(s);
    AnswerIsQueued(s1, |s.calls|);
    var s2 := Next(Next(s1, Serve), Answer([2]));
    RunTwo(s1, Serve, Answer([2]));
    RunAppend(s, [Reconnect, Call([1])], [Serve, Answer([2])]);
    GivenUp(s2);
    RunTwo(s2, Abandon, Ignore);
    RunAppend(s, [Reconnect, Call([1])] + [Serve, Answer([2])], [Abandon, Ignore]);
  }

  lemma {:induction false} CallOnNewConnection(s: Sys)
    requires s.waiting.None? && s.nextId == IssuedId(|s.calls|) && s.net.served == []
    ensures var s1, k := Next(Next(s, Reconnect), Call([1])), |s.calls|;
            && s1.net == Net([Request(RequestWire(IssuedId(k), [1]), k)], [], None, [])
            && |s1.calls| == k + 1 && s1.nextId == IssuedId(k + 1) && s1.returned == s.returned
  {
  }

  lemma {:induction false} GivenUp(s: Sys)
    ensures Next(Next(s, Abandon), Ignore) == s.(waiting := None, net := s.net.(responder := None))
  {
  }

  lemma {:induction false} AnswerIsQueued(s: Sys, k: nat)
    requires s.net == Net([Request(RequestWire(IssuedId(k), [1]), k)], [], None, [])
    ensures Next(Next(s, Serve), Answer([2]))
         == s.(net := Net([], [Reply(ReplyWire(RoutingOf(IssuedId(k)), [2]), 0)], None, [Served(k, [1], [2])]))
  {
    RequestArrives(IssuedId(k), [1]);
    assert s.net.c2s[0].payload[4..] == [1];
  }

  /** A call that comes when such a reply, to call j, is next in the channel. */
  lemma {:induction false} LeftoverIsTaken(s: Sys, j: nat)
    requires s.waiting.None? && s.nextId == IssuedId(|s.calls|) && s.returned == []
    requires |s.net.served| == 1 && s.net.served[0] == Served(j, [1], [2]) && j != |s.calls|
    requires s.net.s2c == [Reply(ReplyWire(RoutingOf(IssuedId(j)), [2]), 0)]
    requires WithoutHighBit(WithHighBit(IssuedId(j))) == IssuedId(|s.calls|)
    ensures var s' := Run(s, [Call([3]), Deliver]);
            |s'.calls| == |s.calls| + 1 && !Correct(s')
  {
    RunTwo(s, Call([3]), Deliver);
    ReplyArrives(IssuedId(j), IssuedId(|s.calls|), [2]);
    var s' := Next(Next(s, Call([3])), Deliver);
    var r := Returned(|s.calls|, s.net.s2c[0].payload[4..], 0);
    assert s'.returned == [r];
    assert r in s'.returned && !OwnReply(s', r);
  }

  /** Call 2^31 has ID 2^31 + 1; when the counter has wrapped, call 2^32 - 1 has
      ID 1, which is the former without its high bit. */
  lemma {:induction false} LateIdCollides(j: nat, k: nat)
    requires j == HIGH_BIT && k == ID_COUNT
    ensures WithoutHighBit(WithHighBit(IssuedId(j))) == IssuedId(k)
  {
    IssuedIdIs(j);
    IssuedIdIs(k);
  }

  lemma {:induction false} WrongRun(early: nat, between: nat) returns (actions: seq<Action>)
    requires WithoutHighBit(WithHighBit(IssuedId(early))) == IssuedId(early + 1 + between)
    ensures |Run(Init(), actions).calls| == early + between + 2
    ensures !Correct(Run(Init(), actions))
  {
    hide Run, Idle, Next, Correct;
    var a, b := Idle(early), Idle(between);
    IdleMovesOn(Init(), early);
    var s1 := Run(Init(), a);
    ReplyIsLeftBehind(s1);
    var s2 := Run(s1, AnsweredTooLate());
    IdleMovesOn(s2, between);
    var s3 := Run(s2, b);
    LeftoverIsTaken(s3, early);
    actions := a + (AnsweredTooLate() + (b + [Call([3]), Deliver]));
    RunAppend(Init(), a, AnsweredTooLate() + (b + [Call([3]), Deliver]));
    RunAppend(s1, AnsweredTooLate(), b + [Call([3]), Deliver]);
    RunAppend(s2, b, [Call([3]), Deliver]);
  }

  /** Replies are never mixed up in runs of at most n calls exactly for n up to
      2^32 - 1, the number of request IDs. */
  lemma {:induction false} BoundIsExact(n: nat)
    ensures (forall actions: seq<Action> :: |Run(Init(), actions).calls| <= n ==> Correct(Run(Init(), actions)))
            <==> n <= ID_COUNT
  {
    if n <= ID_COUNT {
      forall actions: seq<Action> | |Run(Init(), actions).calls| <= n
        ensures Correct(Run(Init(), actions))
      {
        RepliesAreOwn(actions);
      }
    } else {
      var early, between :| early == HIGH_BIT && between == HIGH_BIT - 2;
      LateIdCollides(early, early + 1 + between);
      var actions := WrongRun(early, between);
      assert |Run(Init(), actions).calls| <= n;
    }
  }
}
