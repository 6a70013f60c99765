/** `Req0::request`: the resend loop as written, run against channels and a
    server that move while it waits. */
module Req0Socket {
  import opened Bytes
  import opened Messages
  import opened ReqRep
  import opened ReqRepSystem

  /** What happens next while `request` waits: a message arrives, the resend
      interval elapses, or something moves at the other end. */
  datatype Wakeup = Arrives | Elapsed | Elsewhere(a: Action)

  datatype RequestResult = Replied(body: seq<byte>) | ProtocolViolation | Dropped

  predicate OtherEnd(a: Action) {
    a.Serve? || a.Answer? || a.Ignore? || a.Reconnect?
  }

  /** What a wakeup makes `request`, or the other end, do.  Nothing is delivered
      from an empty channel, and nothing is resent without a resend time. */
  function ActionOf(w: Wakeup, resendTime: bool): seq<Action> {
    match w
    case Arrives => [Deliver]
    case Elapsed => if resendTime then [Resend] else []
    case Elsewhere(a) => if OtherEnd(a) then [a] else []
  }

  function ActionsOf(script: seq<Wakeup>, resendTime: bool): seq<Action> {
    if script == [] then []
    else ActionsOf(script[..|script| - 1], resendTime) + ActionOf(script[|script| - 1], resendTime)
  }

  /** The system when the first k wakeups of a call have passed. */
  ghost function At(before: Sys, body: seq<byte>, script: seq<Wakeup>, resendTime: bool, k: nat): Sys
    requires k <= |script|
  {
    Run(before, [Call(body)] + ActionsOf(script[..k], resendTime))
  }

  /** The call was waiting before each of these wakeups. */
  ghost predicate WaitedThrough(before: Sys, body: seq<byte>, script: seq<Wakeup>, resendTime: bool, n: nat) {
    n <= |script| && forall k :: 0 <= k <= n ==> WaitsAt(before, body, script, resendTime, k)
  }

  ghost predicate WaitsAt(before: Sys, body: seq<byte>, script: seq<Wakeup>, resendTime: bool, k: nat)
    requires k <= |script|
  {
    var s := At(before, body, script, resendTime, k);
    Inv(s) && s.waiting.Some? && s.calls == before.calls + [body]
  }

  /** The wakeups of a retry that is answered. */
  function RetryScript(reply: seq<byte>): seq<Wakeup> {
    [Elsewhere(Reconnect), Elapsed, Elsewhere(Serve), Elsewhere(Answer(reply)), Arrives]
  }

  /** Such wakeups come at place k of the script. */
  predicate RetriedAt(script: seq<Wakeup>, k: nat, reply: seq<byte>) {
    k + 5 <= |script| && script[k..k + 5] == RetryScript(reply)
  }

  lemma {:induction false} ActionsAppend(a: seq<Wakeup>, b: seq<Wakeup>, resendTime: bool)
    ensures ActionsOf(a + b, resendTime) == ActionsOf(a, resendTime) + ActionsOf(b, resendTime)
    decreases |b|
  {
    hide ActionOf;
    if b == [] {
      assert a + b == a && ActionsOf(a, resendTime) + [] == ActionsOf(a, resendTime);
    } else {
      var n := |b| - 1;
      ActionsAppend(a, b[..n], resendTime);
      LastAction(a + b[..n], b[n], resendTime);
      LastAction(b[..n], b[n], resendTime);
      assert a + b[..n] + [b[n]] == a + b && b[..n] + [b[n]] == b;
    }
  }

  lemma {:induction false} LastAction(a: seq<Wakeup>, w: Wakeup, resendTime: bool)
    ensures ActionsOf(a + [w], resendTime) == ActionsOf(a, resendTime) + ActionOf(w, resendTime)
  {
    assert (a + [w])[..|a|] == a;
  }

  lemma {:induction false} RetryActions(reply: seq<byte>)
    ensures ActionsOf(RetryScript(reply), true) == Retry(reply)
  {
    var w := RetryScript(reply);
    assert ActionsOf([], true) == [];
    LastAction([], w[0], true);
    LastAction([w[0]], w[1], true);
    LastAction([w[0], w[1]], w[2], true);
    LastAction([w[0], w[1], w[2]], w[3], true);
    LastAction([w[0], w[1], w[2], w[3]], w[4], true);
    hide ActionsOf;
    assert [] + [w[0]] == [w[0]] && [w[0]] + [w[1]] == [w[0], w[1]] && [w[0], w[1]] + [w[2]] == [w[0], w[1], w[2]];
    assert [w[0], w[1], w[2]] + [w[3]] == [w[0], w[1], w[2], w[3]] && [w[0], w[1], w[2], w[3]] + [w[4]] == w;
  }

  /** A call that still waits when a retry comes is over, with its own answer, when
      the retry is. */
  lemma {:induction false} RetryEndsCall(before: Sys, body: seq<byte>, script: seq<Wakeup>, k: nat, reply: seq<byte>)
    requires RetriedAt(script, k, reply) && WaitsAt(before, body, script, true, k)
    requires IssuedId(|before.calls|) < HIGH_BIT
    ensures var s := At(before, body, script, true, k);
            At(before, body, script, true, k + 5) == Answered(s, reply)
  {
    hide Run, Inv, OwnReply;
    var s := At(before, body, script, true, k);
    assert script[..k + 5] == script[..k] + script[k..k + 5];
    ActionsAppend(script[..k], script[k..k + 5], true);
    RetryActions(reply);
    assert [Call(body)] + (ActionsOf(script[..k], true) + Retry(reply)) == [Call(body)] + ActionsOf(script[..k], true) + Retry(reply);
    RunAppend(before, [Call(body)] + ActionsOf(script[..k], true), Retry(reply));
    RetryIsAnswered(s, reply);
  }

  class Req0 {
    const state: Req0State
    const resendTime: bool
    var net: Net

    /** History: the bodies sent so far, and the locals of the call in progress. */
    var calls: seq<seq<byte>>
    ghost var waiting: Option<Waiting>
    ghost var returned: seq<Returned>

    ghost function View(): Sys
      reads this, state
    {
      Sys(state.nextId, waiting, net, calls, returned)
    }

    constructor (resendTime: bool)
      ensures fresh(state) && View() == Init()
    {
      state := new Req0State();
      this.resendTime := resendTime;
      net, waiting, calls, returned := Net([], [], None, []), None, [], [];
    }

    /** Send `body` and wait for the reply.  The script says what happens while it
        waits; when it ends, the caller drops the future.  The ID is stamped once
        and every retransmission repeats the request verbatim. */
    method Request(body: seq<byte>, script: seq<Wakeup>) returns (r: RequestResult, ghost trace: seq<Action>,
                   ghost n: nat)
      requires Inv(View()) && waiting.None?
      modifies this, state
      ensures Inv(View()) && waiting.None?
      ensures n <= |script| && (r.Dropped? ==> n == |script|)
      ensures trace == [Call(body)] + ActionsOf(script[..n], resendTime) + if r.Dropped? then [Abandon] else []
      ensures View() == Run(old(View()), trace)
      ensures calls == old(calls) + [body]
      ensures r.Replied? ==>
                && |returned| == |old(returned)| + 1 && old(returned) == returned[..|old(returned)|]
                && returned[|old(returned)|].call == |old(calls)| && returned[|old(returned)|].reply == r.body
      ensures r.Replied? && |calls| <= ID_COUNT ==> OwnReply(View(), returned[|returned| - 1])
      ensures !r.Replied? ==> returned == old(returned)
      ensures !r.ProtocolViolation?
      ensures !r.Dropped? ==> n >= 1
      ensures WaitedThrough(old(View()), body, script, resendTime, if r.Dropped? then n else n - 1)
      ensures resendTime && IssuedId(|old(calls)|) < HIGH_BIT ==>
                forall k: nat, reply :: RetriedAt(script, k, reply) ==>
                  r.Replied? && n <= k + 5 && (n == k + 5 ==> r.body == reply)
    {
      hide Inv, Run, Next, OwnReply, WaitsAt, RetriedAt, IssuedId;
      ghost var before := View();
      var sentId, payload := Stamp(body);
      trace := [Call(body)];
      assert trace == [Call(body)] + ActionsOf(script[..0], resendTime);
      NowWaits(before, body, script, 0);

      var i := 0;
      while i < |script|
        invariant i <= |script| && trace == [Call(body)] + ActionsOf(script[..i], resendTime)
        invariant View() == Run(before, trace) && Inv(View())
        invariant waiting == Some(Waiting(sentId, payload)) && calls == before.calls + [body] && returned == before.returned
        invariant WaitedThrough(before, body, script, resendTime, i)
      {
        trace := OneWakeupMore(before, View(), trace, script, i, Call(body), resendTime);
        var stop := Wake(script[i], sentId, payload);
        i := i + 1;
        if stop.Some? {
          IfRepliedOwn(stop.value);
          RetriesAnswered(before, body, script, i, stop.value);
          return stop.value, trace, i;
        }
        NowWaits(before, body, script, i);
      }
      RunAppend(before, trace, [Abandon]);
      trace, n := trace + [Abandon], |script|;
      NoRetryMissed(before, body, script);
      GiveUp();
      r := Dropped;
    }

    lemma {:induction false} NowWaits(before: Sys, body: seq<byte>, script: seq<Wakeup>, i: nat)
      requires i <= |script| && (i > 0 ==> WaitedThrough(before, body, script, resendTime, i - 1))
      requires View() == Run(before, [Call(body)] + ActionsOf(script[..i], resendTime)) && Inv(View())
      requires waiting.Some? && calls == before.calls + [body]
      ensures WaitedThrough(before, body, script, resendTime, i)
    {
      hide Run, Inv;
      assert WaitsAt(before, body, script, resendTime, i);
    }

    /** The reply that ends the call comes no later than that of any retry, and is that
        one if it comes with it. */
    lemma {:induction false} RetriesAnswered(before: Sys, body: seq<byte>, script: seq<Wakeup>, n: nat, r: RequestResult)
      requires 1 <= n <= |script| && WaitedThrough(before, body, script, resendTime, n - 1)
      requires View() == Run(before, [Call(body)] + ActionsOf(script[..n], resendTime))
      requires r.Replied? && |returned| == |before.returned| + 1 && returned[|before.returned|].reply == r.body
      ensures resendTime && IssuedId(|before.calls|) < HIGH_BIT ==>
                forall k: nat, reply :: RetriedAt(script, k, reply) ==> n <= k + 5 && (n == k + 5 ==> r.body == reply)
    {
      hide Run, Inv, IssuedId;
      if resendTime && IssuedId(|before.calls|) < HIGH_BIT {
        forall k: nat, reply | RetriedAt(script, k, reply)
          ensures n <= k + 5 && (n == k + 5 ==> r.body == reply)
        {
          if n >= k + 5 {
            assert WaitsAt(before, body, script, resendTime, k);
            RetryEndsCall(before, body, script, k, reply);
            assert !WaitsAt(before, body, script, resendTime, k + 5);
          }
        }
      }
    }

    /** A call that waited to the end of the script had no retry answered. */
    lemma {:induction false} NoRetryMissed(before: Sys, body: seq<byte>, script: seq<Wakeup>)
      requires WaitedThrough(before, body, script, resendTime, |script|)
      ensures resendTime && IssuedId(|before.calls|) < HIGH_BIT ==> forall k: nat, reply :: !RetriedAt(script, k, reply)
    {
      hide Run, Inv, IssuedId;
      if resendTime && IssuedId(|before.calls|) < HIGH_BIT {
        forall k: nat, reply
          ensures !RetriedAt(script, k, reply)
        {
          if RetriedAt(script, k, reply) {
            assert WaitsAt(before, body, script, resendTime, k);
            assert WaitsAt(before, body, script, resendTime, k + 5);
            RetryEndsCall(before, body, script, k, reply);
          }
        }
      }
    }

    /** With no more calls than there are IDs, a reply is the call's own. */
    lemma {:induction false} IfRepliedOwn(r: RequestResult)
      requires Inv(View()) && (r.Replied? ==> returned != [])
      ensures r.Replied? && |calls| <= ID_COUNT ==> OwnReply(View(), returned[|returned| - 1])
    {
      if r.Replied? && |calls| <= ID_COUNT {
        InvGivesOwnReplies(View());
      }
    }

    /** The future is dropped. */
    method GiveUp()
      requires Inv(View())
      modifies this`waiting
      ensures Inv(View()) && View() == Run(old(View()), [Abandon]) && waiting.None?
    {
      StepKeepsInv(View(), Abandon);
      RunOne(View(), Abandon);
      waiting := None;
    }

    /** Stamp the request with the next ID and send it. */
    method Stamp(body: seq<byte>) returns (sentId: u32, payload: seq<byte>)
      requires Inv(View()) && waiting.None?
      modifies this, state
      ensures View() == Next(old(View()), Call(body)) == Run(old(View()), [Call(body)]) && Inv(View())
      ensures calls == old(calls) + [body] && returned == old(returned)
      ensures waiting == Some(Waiting(sentId, payload))
    {
      RunOne(View(), Call(body));
      StepKeepsInv(View(), Call(body));
      var outgoing := new Message.FromParts([], body);
      PushedHeader(Msg([], body), RoutingOf(state.nextId));
      sentId := state.PrepareOutgoing(outgoing);
      payload := outgoing.header + outgoing.body;
      assert payload == RequestWire(sentId, body);
      net := SendRequest(net, payload, |calls|);
      calls := calls + [body];
      waiting := Some(Waiting(sentId, payload));
    }

    /** One wakeup while waiting; None is to wait on. */
    method Wake(event: Wakeup, sentId: u32, payload: seq<byte>) returns (stop: Option<RequestResult>)
      requires Inv(View()) && waiting == Some(Waiting(sentId, payload))
      modifies this
      ensures Inv(View()) && View() == Run(old(View()), ActionOf(event, resendTime)) && calls == old(calls)
      ensures stop.None? ==> waiting == old(waiting) && returned == old(returned)
      ensures stop.Some? ==> waiting.None? && stop.value.Replied?
      ensures stop.Some? && stop.value.Replied? ==>
                && |returned| == |old(returned)| + 1 && old(returned) == returned[..|old(returned)|]
                && returned[|old(returned)|].call == |calls| - 1 && returned[|old(returned)|].reply == stop.value.body
    {
      stop := None;
      WakeKeepsInv(View(), event);
      if event.Elapsed? {
        if resendTime {
          // continue 'send
          SendAgain(payload);
        }
      } else if event.Elsewhere? {
        if OtherEnd(event.a) {
          OtherEndMoves(event.a);
        }
      } else if net.s2c != [] {
        var reply, error := Receive(sentId);
        if error.None? {
          stop := Some(Replied(reply));
        } else if error.value.MessageTooShort? {
          stop := Some(ProtocolViolation);
        }
      }
    }

    lemma {:induction false} WakeKeepsInv(s: Sys, event: Wakeup)
      requires Inv(s)
      ensures var actions := ActionOf(event, resendTime);
              Inv(Run(s, actions)) && Run(s, actions) == if actions == [] then s else Next(s, actions[0])
    {
      var actions := ActionOf(event, resendTime);
      if actions != [] {
        RunOne(s, actions[0]);
        StepKeepsInv(s, actions[0]);
      }
    }

    method SendAgain(payload: seq<byte>)
      requires Inv(View()) && waiting.Some? && waiting.value.outgoing == payload
      modifies this`net
      ensures View() == Next(old(View()), Resend)
    {
      net := SendRequest(net, payload, |calls| - 1);
    }

    method OtherEndMoves(a: Action)
      requires OtherEnd(a)
      modifies this`net
      ensures View() == Next(old(View()), a)
    {
      net := ServerStep(net, a);
    }

    /** Take the next message and check it against the ID sent; it is never too short
        for one. */
    method Receive(sentId: u32) returns (body: seq<byte>, error: Option<ReqRepError>)
      requires Inv(View()) && waiting.Some? && waiting.value.sentId == sentId && net.s2c != []
      modifies this
      ensures View() == Next(old(View()), Deliver)
      ensures error.None? ==> waiting.None? && returned == old(returned) + [Returned(|calls| - 1, body, old(net).s2c[0].served)]
      ensures error != Some(MessageTooShort)
      ensures error.Some? && error.value.IdMismatch? ==> waiting == old(waiting)
      ensures error.Some? ==> returned == old(returned)
      ensures calls == old(calls)
    {
      RepliesAreLongEnough(View(), sentId);
      var raw := net.s2c[0];
      net := net.(s2c := net.s2c[1..]);
      var reply := new Message.FromParts([], raw.payload);
      error := state.ProcessIncoming(reply, sentId);
      body := reply.body;
      if error.None? {
        TrimmedFront(Msg([], raw.payload));
        waiting := None;
        returned := returned + [Returned(|calls| - 1, body, raw.served)];
      }
    }
  }

  lemma {:induction false} OneWakeupMore(before: Sys, here: Sys, trace: seq<Action>, script: seq<Wakeup>, i: nat,
                                         call: Action, resendTime: bool)
    returns (longer: seq<Action>)
    requires i < |script| && here == Run(before, trace) && trace == [call] + ActionsOf(script[..i], resendTime)
    ensures longer == [call] + ActionsOf(script[..i + 1], resendTime)
    ensures Run(before, longer) == Run(here, ActionOf(script[i], resendTime))
  {
    assert script[..i + 1][..i] == script[..i];
    longer := trace + ActionOf(script[i], resendTime);
    assert longer == [call] + ActionsOf(script[..i + 1], resendTime);
    RunAppend(before, trace, ActionOf(script[i], resendTime));
  }
}
