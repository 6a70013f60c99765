/** `Push0Fan`: round-robin over a fixed list of workers. */
module PushFan {
  import opened Bytes
  import opened Framing
  import opened Messages
  import opened Transport

  datatype Fan = Fan(workers: seq<Conn>, next: nat)

  datatype PushResult = NoPeers | Tried(error: Option<TransportError>)

  ghost predicate FanOk(s: Fan) {
    s.workers != [] ==> s.next < |s.workers|
  }

  /** `push`: the turn passes on also when the send fails. */
  function PushOne(s: Fan, m: Msg): (r: (Fan, PushResult))
    requires FanOk(s)
    ensures FanOk(r.0) && |r.0.workers| == |s.workers|
  {
    if s.workers == [] then (s, NoPeers)
    else
      var (c, e) := SendOn(s.workers[s.next], m);
      (Fan(s.workers[s.next := c], (s.next + 1) % |s.workers|), Tried(e))
  }

  function PushAll(s: Fan, ms: seq<Msg>): (r: Fan)
    requires FanOk(s)
    ensures FanOk(r) && |r.workers| == |s.workers|
    decreases |ms|
  {
    if ms == [] then s else PushAll(PushOne(s, ms[0]).0, ms[1..])
  }

  /** What a push reports is what happened on the wire of the worker whose turn it
      was: success exactly when all of the frame is out, an error exactly when only
      a proper prefix of it is, and no peers exactly when there is no worker. */
  ghost predicate Reports(s: Fan, m: Msg, s': Fan, r: PushResult) {
    && (r.NoPeers? <==> s.workers == [])
    && (s.workers != [] ==>
          && s.next < |s.workers| == |s'.workers|
          && var c, c' := s.workers[s.next], s'.workers[s.next];
             var frame := FrameBytes(c.format, PayloadOf(m));
             && (r == Tried(None) <==> c'.inner.output == c.inner.output + frame)
             && (r.Tried? && r.error.Some? <==> exists k :: 0 <= k < |frame| && c'.inner.output == c.inner.output + frame[..k])
             && (r == Tried(None) <==> SendEnd(c, m).Through?))
  }

  lemma {:induction false} PushReports(s: Fan, m: Msg)
    requires FanOk(s)
    ensures Reports(s, m, PushOne(s, m).0, PushOne(s, m).1)
  {
    if s.workers != [] {
      SendReports(s.workers[s.next], m);
    }
  }

  lemma {:induction false} SendReports(c: Conn, m: Msg)
    ensures var (c', e) := SendOn(c, m);
            var frame := FrameBytes(c.format, PayloadOf(m));
            && (e.None? <==> c'.inner.output == c.inner.output + frame)
            && (e.Some? <==> exists k :: 0 <= k < |frame| && c'.inner.output == c.inner.output + frame[..k])
            && (e.None? <==> SendEnd(c, m).Through?)
  {
    hide SendSpec, FrameBytes, SendEnd, WriteAllSpec;
    SendWritesOneFrame(c, m);
    SendIsDecided(c, m);
  }

  class Push0Fan {
    var workers: seq<Conn>
    var next: nat

    function View(): Fan
      reads this
    {
      Fan(workers, next)
    }

    constructor (workers: seq<Conn>)
      ensures View() == Fan(workers, 0)
    {
      this.workers, next := workers, 0;
    }

    method Push(msg: Msg) returns (r: PushResult)
      requires FanOk(View())
      modifies this
      ensures FanOk(View())
      ensures (View(), r) == PushOne(old(View()), msg)
      ensures Reports(old(View()), msg, View(), r)
    {
      PushReports(View(), msg);
      if |workers| == 0 {
        return NoPeers;
      }
      var i := next;
      next := (next + 1) % |workers|;
      var (c, e) := SendOn(workers[i], msg);
      workers := workers[i := c];
      r := Tried(e);
    }
  }

  // ── Round robin ─────────────────────────────────────────────────────────

  /** Every n-th element, from the i-th on. */
  function Stride<T>(s: seq<T>, i: nat, n: nat): seq<T>
    requires n > 0
    decreases |s| - i
  {
    if i >= |s| then [] else [s[i]] + Stride(s, i + n, n)
  }

  lemma {:induction false} StrideAt<T>(s: seq<T>, i: nat, n: nat, j: nat)
    requires n > 0
    ensures j < |Stride(s, i, n)| <==> i + j * n < |s|
    ensures i + j * n < |s| ==> Stride(s, i, n)[j] == s[i + j * n]
    decreases j
  {
    if i < |s| && j > 0 {
      StrideAt(s, i + n, n, j - 1);
      assert i + n + (j - 1) * n == i + j * n;
    } else if j > 0 {
      assert j * n >= 0;
    }
  }

  lemma {:induction false} StrideTail<T>(s: seq<T>, i: nat, n: nat)
    requires n > 0 && i > 0 && s != []
    ensures Stride(s, i, n) == Stride(s[1..], i - 1, n)
    decreases |s| - i
  {
    if i < |s| {
      StrideTail(s, i + n, n);
    }
  }

  lemma {:induction false} LaterStrideIsShorter<T>(s: seq<T>, a: nat, b: nat, n: nat)
    requires n > 0 && a <= b
    ensures |Stride(s, b, n)| <= |Stride(s, a, n)|
    decreases |s| - a
  {
    if a < |s| && b < |s| {
      LaterStrideIsShorter(s, a + n, b + n, n);
    }
  }

  /** No worker's share exceeds another's by more than one. */
  lemma {:induction false} SharesAreBalanced<T>(s: seq<T>, a: nat, b: nat, n: nat)
    requires a < n && b < n
    ensures |Stride(s, a, n)| <= |Stride(s, b, n)| + 1
  {
    LaterStrideIsShorter(s, b, a + n, n);
  }

  /** The input index of the j-th element of share i. */
  function IndexOf(i: nat, j: nat, n: nat): nat {
    i + j * n
  }

  /** The shares partition the input: message k is in share k % n only, at k / n. */
  lemma {:induction false} SharesPartition<T>(s: seq<T>, k: nat, n: nat)
    requires n > 0 && k < |s|
    ensures k / n < |Stride(s, k % n, n)| && Stride(s, k % n, n)[k / n] == s[k]
    ensures forall i: nat, j: nat :: i < n && IndexOf(i, j, n) == k ==> i == k % n && j == k / n
  {
    QuotientTimes(k, n);
    StrideAt(s, k % n, n, k / n);
    forall i: nat, j: nat | i < n && IndexOf(i, j, n) == k
      ensures i == k % n && j == k / n
    {
      QuotientUnique(i, j, k % n, k / n, n);
    }
  }

  lemma {:induction false} QuotientTimes(k: nat, n: nat)
    requires n > 0
    ensures k == IndexOf(k % n, k / n, n)
  {
  }

  lemma {:induction false} QuotientUnique(i: nat, j: nat, r: nat, q: nat, n: nat)
    requires i < n && r < n && IndexOf(i, j, n) == IndexOf(r, q, n)
    ensures i == r && j == q
  {
    if j < q {
      FurtherByOne(j, q, n);
    } else if q < j {
      FurtherByOne(q, j, n);
    }
  }

  lemma {:induction false} FurtherByOne(j: nat, q: nat, n: nat)
    requires j < q
    ensures j * n + n <= q * n
    decreases q
  {
    if j + 1 < q {
      FurtherByOne(j, q - 1, n);
    }
    assert q * n == (q - 1) * n + n;
  }

  /** Sends all of `ms`, going on after a failure. */
  function SendAll(c: Conn, ms: seq<Msg>): Conn
    decreases |ms|
  {
    if ms == [] then c else SendAll(SendOn(c, ms[0]).0, ms[1..])
  }

  /** How many pushes until worker i's turn. */
  function TurnsUntil(s: Fan, i: nat): nat
    requires FanOk(s) && i < |s.workers|
  {
    if i >= s.next then i - s.next else i + |s.workers| - s.next
  }

  /** For every number of pushes, whichever sends fail: what is attempted on worker
      i is exactly every n-th message from its first turn on, in order. */
  lemma {:induction false} RoundRobin(s: Fan, ms: seq<Msg>, i: nat)
    requires FanOk(s) && i < |s.workers|
    ensures PushAll(s, ms).workers[i] == SendAll(s.workers[i], Stride(ms, TurnsUntil(s, i), |s.workers|))
    decreases |ms|
  {
    if ms != [] {
      RoundRobin(PushOne(s, ms[0]).0, ms[1..], i);
      RoundGoesOn(s, ms, i);
    }
  }

  lemma {:induction false} RoundGoesOn(s: Fan, ms: seq<Msg>, i: nat)
    requires FanOk(s) && i < |s.workers| && ms != []
    requires var s' := PushOne(s, ms[0]).0;
             PushAll(s', ms[1..]).workers[i] == SendAll(s'.workers[i], Stride(ms[1..], TurnsUntil(s', i), |s.workers|))
    ensures PushAll(s, ms).workers[i] == SendAll(s.workers[i], Stride(ms, TurnsUntil(s, i), |s.workers|))
  {
    hide SendOn, Stride, PushOne, TurnsUntil;
    OnePush(s, ms[0], i);
    ShareOfTail(ms, TurnsUntil(s, i), |s.workers|);
  }

  /** One push moves every worker's turn up by one; the worker whose turn it is
      goes to the end of the round. */
  lemma {:induction false} OnePush(s: Fan, m: Msg, i: nat)
    requires FanOk(s) && i < |s.workers|
    ensures var s' := PushOne(s, m).0;
            && s'.workers[i] == (if TurnsUntil(s, i) == 0 then SendOn(s.workers[i], m).0 else s.workers[i])
            && TurnsUntil(s', i) == (if TurnsUntil(s, i) == 0 then |s.workers| - 1 else TurnsUntil(s, i) - 1)
  {
    NextTurn(s.next, |s.workers|);
  }

  /** After one push the shares move up by one turn. */
  lemma {:induction false} ShareOfTail(ms: seq<Msg>, turns: nat, n: nat)
    requires n > 0 && ms != []
    ensures Stride(ms, turns, n)
         == if turns == 0 then [ms[0]] + Stride(ms[1..], n - 1, n) else Stride(ms[1..], turns - 1, n)
    ensures turns == 0 ==> Stride(ms, turns, n)[1..] == Stride(ms[1..], n - 1, n)
  {
    if turns == 0 {
      StrideTail(ms, n, n);
    } else {
      StrideTail(ms, turns, n);
    }
  }

  lemma {:induction false} NextTurn(next: nat, n: nat)
    requires next < n
    ensures (next + 1) % n == if next + 1 == n then 0 else next + 1
  {
  }

  lemma {:induction false} SendAllIsSendEach(c: Conn, ms: seq<Msg>)
    requires SendEach(c, ms).1.None?
    ensures SendAll(c, ms) == SendEach(c, ms).0
    decreases |ms|
  {
    if ms != [] {
      SendAllIsSendEach(SendOn(c, ms[0]).0, ms[1..]);
    }
  }

  /** From a new fan, as long as a worker's sends succeed its stream carries exactly
      messages i, i + n, i + 2n, ... as whole frames, in order. */
  lemma {:induction false} WorkerReceivesItsShare(workers: seq<Conn>, ms: seq<Msg>, i: nat)
    requires i < |workers|
    requires SendEach(workers[i], Stride(ms, i, |workers|)).1.None?
    ensures PushAll(Fan(workers, 0), ms).workers[i].inner.output
         == workers[i].inner.output + Wire(workers[i].format, PayloadsOf(Stride(ms, i, |workers|)))
  {
    RoundRobin(Fan(workers, 0), ms, i);
    SendAllIsSendEach(workers[i], Stride(ms, i, |workers|));
    SendEachWrites(workers[i], Stride(ms, i, |workers|));
  }
}
