/** SURVEYOR0 / RESPONDENT0: survey IDs, and the collection of responses from
    many respondents within a deadline. */
module Survey {
  import opened Awaiting
  import opened Bytes
  import opened Framing
  import opened Messages
  import opened ReqRep
  import opened Transport

  // ── Protocol steps ──────────────────────────────────────────────────────

  datatype SurveyError = StaleSurveyId(got: u32, expected: u32) | TooShort

  function SurveyOutgoing(id: u32): seq<Op> {
    [HeaderPushBack(BeBytes(id, 4))]
  }

  function ResponseIncoming(m: Msg, currentId: u32): Step<Option<SurveyError>> {
    if |m.body| < 4 then Step(Some(TooShort), [])
    else
      var id := FrontWord(m.body);
      Step(if id != currentId then Some(StaleSurveyId(id, currentId)) else None, [TrimFront(4)])
  }

  class Surveyor0State {
    var nextId: u32
    var currentId: u32

    constructor ()
      ensures nextId == IssuedId(0) && currentId == 0
    {
      nextId, currentId := 1, 0;
    }

    /** Stamp a survey; answers to all earlier ones are stale from now on. */
    method PrepareSurvey(msg: Message) returns (id: u32)
      modifies this, msg
      ensures id == old(nextId) == currentId && nextId == NextId(id)
      ensures Some(msg.Value()) == HeapRun(old(msg.Value()), SurveyOutgoing(id))
    {
      id := nextId;
      var next := (nextId + 1) % U32_VALUES;
      nextId := if next < 1 then 1 else next;
      currentId := id;
      msg.HeaderPushBack(BeBytes(id, 4));
    }

    method ProcessResponse(msg: Message) returns (error: Option<SurveyError>)
      modifies msg
      ensures error == ResponseIncoming(old(msg.Value()), currentId).result
      ensures Some(msg.Value()) == HeapRun(old(msg.Value()), ResponseIncoming(old(msg.Value()), currentId).ops)
    {
      if |msg.body| < 4 {
        return Some(TooShort);
      }
      var id := FrontWord(msg.body);
      msg.TrimFront(4);
      if id != currentId {
        return Some(StaleSurveyId(id, currentId));
      }
      return None;
    }
  }

  /** The respondent's steps are REP0's: take the word off, put it back on. */
  class Respondent0State {
    constructor () {}

    method ProcessIncoming(msg: Message) returns (routing: Option<RoutingInfo>)
      modifies msg
      ensures routing == RepIncoming(old(msg.Value())).result
      ensures Some(msg.Value()) == HeapRun(old(msg.Value()), RepIncoming(old(msg.Value())).ops)
    {
      if |msg.body| < 4 {
        return None;
      }
      var idBytes := msg.body[..4];
      msg.TrimFront(4);
      return Some(idBytes);
    }

    method PrepareResponse(msg: Message, routing: RoutingInfo)
      modifies msg
      ensures Some(msg.Value()) == HeapRun(old(msg.Value()), RepOutgoing(routing))
    {
      msg.HeaderPushBack(routing);
    }
  }

  /** `SurveyHandle::respond`: the ID goes out in front of the answer. */
  method Respond(transport: Conn, routing: RoutingInfo, answer: Msg) returns (transport': Conn,
                 e: Option<TransportError>)
    ensures (transport', e) == SendOn(transport, Msg(answer.header + routing, answer.body))
    ensures e.None? && answer.header == [] ==>
              transport'.inner.output == transport.inner.output + FrameBytes(transport.format, routing + answer.body)
  {
    var state := new Respondent0State();
    var outgoing := new Message.FromParts(answer.header, answer.body);
    PushedHeader(answer, routing);
    state.PrepareResponse(outgoing, routing);
    SendWritesOneFrame(transport, outgoing.Value());
    var (c, error) := SendOn(transport, outgoing.Value());
    transport', e := c, error;
    assert [] + routing == routing;
  }

  /** The survey round trip is accepted exactly when the answer is to the current
      survey, for every ID: no bit of it is lost on the way. */
  lemma {:induction false} SurveyRoundTrip(id: u32, currentId: u32, question: seq<byte>, answer: seq<byte>)
    ensures HeapRun(Msg([], question), SurveyOutgoing(id)) == Some(Msg(BeBytes(id, 4), question))
    ensures var arrived := Msg([], BeBytes(id, 4) + question);
            var routing := RepIncoming(arrived).result;
            && routing.Some? && HeapRun(arrived, RepIncoming(arrived).ops) == Some(Msg([], question))
            && var back := Msg([], routing.value + answer);
               && (ResponseIncoming(back, currentId).result.None? <==> id == currentId)
               && HeapRun(back, ResponseIncoming(back, currentId).ops) == Some(Msg([], answer))
  {
    PushedHeader(Msg([], question), BeBytes(id, 4));
    assert [] + BeBytes(id, 4) == BeBytes(id, 4);
    var arrived := Msg([], BeBytes(id, 4) + question);
    TrimmedFront(arrived);
    assert arrived.body[..4] == BeBytes(id, 4) && arrived.body[4..] == question;
    var back := Msg([], BeBytes(id, 4) + answer);
    TrimmedFront(back);
    assert back.body[..4] == BeBytes(id, 4) && back.body[4..] == answer;
    FieldSizes();
    BeValueOfBytes(id, 4);
  }

  /** On a fixed buffer, stamping a survey fits exactly when the header region has
      room for four bytes, and accepting a response always does. */
  lemma {:induction false} SurveyStepsOnFixedBuffer(z: Zc, id: u32, currentId: u32)
    requires ZcOk(z)
    ensures SameOnBoth(z, SurveyOutgoing(id)) <==> z.hEnd + 4 <= HeaderCap(|z.buf|)
    ensures SameOnBoth(z, ResponseIncoming(ZcView(z), currentId).ops)
  {
    WordFitsIff(z, BeBytes(id, 4));
    if |ZcView(z).body| < 4 {
      NoOpsFit(z);
    } else {
      TrimFits(z, 4);
    }
  }

  // ── What one respondent contributes ─────────────────────────────────────

  /** The application message in a response to survey `id`, if it is one. */
  function Accepted(o: Outcome, id: u32): (ms: seq<Msg>)
    ensures |ms| <= 1
  {
    if o.Received? && ResponseIncoming(o.msg, id).result.None? then [Msg(o.msg.header, o.msg.body[4..])] else []
  }

  /** How a surveyor judges what it got from a respondent. */
  type Judge = Outcome -> seq<Msg>

  function JudgeFor(id: u32): Judge {
    o => Accepted(o, id)
  }

  /** A respondent on its own: send it the survey, wait for its answer. */
  function Alone<C>(ops: Ops<C>, c: C, survey: Msg, rounds: nat): (C, Outcome) {
    var (c', e) := ops.send(c, survey);
    if e.Some? then (c', Pending) else Await(ops, c', rounds)
  }

  /** All respondents, each on its own. */
  function Solo<C>(ops: Ops<C>, cs: seq<C>, survey: Msg, rounds: nat): (solo: seq<(C, Outcome)>)
    ensures |solo| == |cs|
    ensures forall i :: 0 <= i < |cs| ==> solo[i] == Alone(ops, cs[i], survey, rounds)
  {
    seq(|cs|, i requires 0 <= i < |cs| => Alone(ops, cs[i], survey, rounds))
  }

  /** The answers among the first n outcomes. */
  function Answers<C>(solo: seq<(C, Outcome)>, n: nat, judge: Judge): seq<Msg>
    requires n <= |solo|
  {
    if n == 0 then [] else Answers(solo, n - 1, judge) + judge(solo[n - 1].1)
  }

  /** There is at most one from each respondent. */
  lemma {:induction false} OneAnswerEach<C>(solo: seq<(C, Outcome)>, n: nat, id: u32)
    requires n <= |solo|
    ensures |Answers(solo, n, JudgeFor(id))| <= n
  {
    if n > 0 {
      OneAnswerEach(solo, n - 1, id);
    }
  }

  function AnswerAt<C>(solo: seq<(C, Outcome)>, i: nat, judge: Judge): seq<Msg> {
    if i < |solo| then judge(solo[i].1) else []
  }

  /** The answers still to come from the respondents listed. */
  function Outstanding<C>(solo: seq<(C, Outcome)>, list: seq<nat>, judge: Judge): seq<Msg> {
    if list == [] then [] else AnswerAt(solo, list[0], judge) + Outstanding(solo, list[1..], judge)
  }

  lemma {:induction false} OutstandingWithout<C>(solo: seq<(C, Outcome)>, a: seq<nat>, i: nat, b: seq<nat>,
                                                 judge: Judge)
    ensures multiset(Outstanding(solo, a + ([i] + b), judge))
         == multiset(Outstanding(solo, a + b, judge)) + multiset(AnswerAt(solo, i, judge))
    decreases |a|
  {
    if a == [] {
      assert a + ([i] + b) == [i] + b && a + b == b;
      assert ([i] + b)[1..] == b;
    } else {
      assert (a + ([i] + b))[1..] == a[1..] + ([i] + b) && (a + b)[1..] == a[1..] + b;
      OutstandingWithout(solo, a[1..], i, b, judge);
    }
  }

  predicate Increasing(list: seq<nat>, bound: nat) {
    && (forall k :: 0 <= k < |list| ==> list[k] < bound)
    && (forall a, b :: 0 <= a < b < |list| ==> list[a] < list[b])
  }

  /** What each respondent comes to in the end. */
  datatype Round<!C> = Round(ops: Ops<C>, solo: seq<(C, Outcome)>, judge: Judge)

  ghost function AllAnswers<C>(t: Round<C>): multiset<Msg> {
    multiset(Answers(t.solo, |t.solo|, t.judge))
  }

  /** Respondents in the list have `left` rounds to come to their end, all others
      are there; `got` and what is outstanding are all the answers. */
  ghost predicate Underway<C>(t: Round<C>, cs: seq<C>, list: seq<nat>, left: nat, got: seq<Msg>) {
    && |cs| == |t.solo| && Increasing(list, |cs|)
    && (forall i :: 0 <= i < |cs| && i !in list ==> cs[i] == t.solo[i].0)
    && (forall i :: 0 <= i < |cs| && i in list ==> Await(t.ops, cs[i], left) == t.solo[i])
    && Counts(t, list, got)
  }

  // ── The send pass ───────────────────────────────────────────────────────

  /** The first i respondents have been sent the survey. */
  ghost predicate SentTo<C>(t: Round<C>, rounds: nat, cs: seq<C>, i: nat, list: seq<nat>) {
    && |cs| == |t.solo| && i <= |cs|
    && SentPlaces(t, rounds, cs[..i], list)
    && CountsUpTo(t, i, list)
  }

  ghost predicate SentPlaces<C>(t: Round<C>, rounds: nat, sent: seq<C>, list: seq<nat>) {
    && |sent| <= |t.solo| && Increasing(list, |sent|)
    && (forall j :: 0 <= j < |sent| && j !in list ==> sent[j] == t.solo[j].0)
    && (forall j :: 0 <= j < |sent| && j in list ==> Await(t.ops, sent[j], rounds) == t.solo[j])
  }

  lemma {:induction false} OneMoreReached<C>(t: Round<C>, rounds: nat, sent: seq<C>, list: seq<nat>, c: C)
    requires SentPlaces(t, rounds, sent, list) && |sent| < |t.solo|
    requires Await(t.ops, c, rounds) == t.solo[|sent|]
    ensures SentPlaces(t, rounds, sent + [c], list + [|sent|])
  {
  }

  lemma {:induction false} OneMoreLost<C>(t: Round<C>, rounds: nat, sent: seq<C>, list: seq<nat>, c: C)
    requires SentPlaces(t, rounds, sent, list) && |sent| < |t.solo|
    requires c == t.solo[|sent|].0
    ensures SentPlaces(t, rounds, sent + [c], list)
  {
  }

  ghost predicate CountsUpTo<C>(t: Round<C>, i: nat, list: seq<nat>) {
    i <= |t.solo| && multiset(Outstanding(t.solo, list, t.judge)) == multiset(Answers(t.solo, i, t.judge))
  }

  lemma {:induction false} CountOneMore<C>(t: Round<C>, i: nat, list: seq<nat>)
    requires CountsUpTo(t, i, list) && i < |t.solo|
    ensures CountsUpTo(t, i + 1, list + [i])
    ensures t.judge(t.solo[i].1) == [] ==> CountsUpTo(t, i + 1, list)
  {
    assert list + ([i] + []) == list + [i] && list + [] == list;
    OutstandingWithout(t.solo, list, i, [], t.judge);
  }

  lemma {:induction false} SendStep<C>(t: Round<C>, rounds: nat, cs: seq<C>, i: nat, list: seq<nat>, c: C,
                                       reached: bool)
    requires SentTo(t, rounds, cs, i, list) && i < |cs|
    requires reached ==> Await(t.ops, c, rounds) == t.solo[i]
    requires !reached ==> t.solo[i] == (c, Pending) && t.judge(Pending) == []
    ensures SentTo(t, rounds, cs[i := c], i + 1, if reached then list + [i] else list)
  {
    CountOneMore(t, i, list);
    assert cs[i := c][..i + 1] == cs[..i] + [c];
    if reached {
      OneMoreReached(t, rounds, cs[..i], list, c);
    } else {
      OneMoreLost(t, rounds, cs[..i], list, c);
    }
  }

  /** Of the first i respondents, exactly those listed could be sent the survey. */
  ghost predicate Reached<C>(ops: Ops<C>, cs: seq<C>, survey: Msg, i: nat, list: seq<nat>) {
    i <= |cs| && forall k: nat :: k in list <==> k < i && ops.send(cs[k], survey).1.None?
  }

  lemma {:induction false} OneMoreTried<C>(ops: Ops<C>, cs: seq<C>, survey: Msg, i: nat, list: seq<nat>)
    requires Reached(ops, cs, survey, i, list) && i < |cs|
    ensures Reached(ops, cs, survey, i + 1, if ops.send(cs[i], survey).1.None? then list + [i] else list)
  {
  }

  lemma {:induction false} NobodySent<C>(t: Round<C>, rounds: nat, cs: seq<C>, survey: Msg)
    requires |cs| == |t.solo|
    ensures SentTo(t, rounds, cs, 0, []) && Reached(t.ops, cs, survey, 0, [])
  {
  }

  lemma {:induction false} AllSent<C>(t: Round<C>, rounds: nat, cs: seq<C>, list: seq<nat>)
    requires SentTo(t, rounds, cs, |cs|, list)
    ensures Underway(t, cs, list, rounds, [])
  {
    assert cs[..|cs|] == cs;
  }

  // ── One round of polls ──────────────────────────────────────────────────

  /** The respondents in `still` have been polled this round and remained pending;
      those in `todo` have one round more left. */
  ghost predicate Polling<C>(t: Round<C>, cs: seq<C>, still: seq<nat>, todo: seq<nat>, left: nat, got: seq<Msg>) {
    && Places(t, cs, still, todo, left)
    && Counts(t, still + todo, got)
  }

  ghost predicate Places<C>(t: Round<C>, cs: seq<C>, still: seq<nat>, todo: seq<nat>, left: nat) {
    && |cs| == |t.solo| && Increasing(still + todo, |cs|)
    && (forall i :: 0 <= i < |cs| && i !in still && i !in todo ==> cs[i] == t.solo[i].0)
    && (forall i :: 0 <= i < |cs| && i in still ==> Await(t.ops, cs[i], left) == t.solo[i])
    && (forall i :: 0 <= i < |cs| && i in todo ==> Await(t.ops, cs[i], left + 1) == t.solo[i])
  }

  ghost predicate Counts<C>(t: Round<C>, list: seq<nat>, got: seq<Msg>) {
    multiset(got) + multiset(Outstanding(t.solo, list, t.judge)) == AllAnswers(t)
  }

  lemma {:induction false} RoundStarts<C>(t: Round<C>, cs: seq<C>, list: seq<nat>, left: nat, got: seq<Msg>)
    requires Underway(t, cs, list, left + 1, got)
    ensures Polling(t, cs, [], list, left, got)
  {
    assert [] + list == list;
  }

  lemma {:induction false} RoundEnds<C>(t: Round<C>, cs: seq<C>, still: seq<nat>, left: nat, got: seq<Msg>)
    requires Polling(t, cs, still, [], left, got)
    ensures Underway(t, cs, still, left, got)
  {
    assert still + [] == still;
  }

  lemma {:induction false} KeepsWaiting<C>(t: Round<C>, cs: seq<C>, still: seq<nat>, todo: seq<nat>, left: nat,
                                           got: seq<Msg>, c: C)
    requires Polling(t, cs, still, todo, left, got) && todo != [] && todo[0] < |cs|
    requires Await(t.ops, c, left) == t.solo[todo[0]]
    ensures Polling(t, cs[todo[0] := c], still + [todo[0]], todo[1..], left, got)
  {
    OnlyOnce(still, todo, |cs|);
    assert still + [todo[0]] + todo[1..] == still + todo;
  }

  lemma {:induction false} IsDone<C>(t: Round<C>, cs: seq<C>, still: seq<nat>, todo: seq<nat>, left: nat,
                                     got: seq<Msg>, c: C, o: Outcome)
    requires Polling(t, cs, still, todo, left, got) && todo != [] && todo[0] < |cs|
    requires t.solo[todo[0]] == (c, o)
    ensures Polling(t, cs[todo[0] := c], still, todo[1..], left, got + t.judge(o))
  {
    OnlyOnce(still, todo, |cs|);
    assert [todo[0]] + todo[1..] == todo;
    Counted(t, still, todo[0], todo[1..], got);
  }

  lemma {:induction false} Counted<C>(t: Round<C>, still: seq<nat>, i: nat, rest: seq<nat>, got: seq<Msg>)
    requires Counts(t, still + ([i] + rest), got) && i < |t.solo|
    ensures Counts(t, still + rest, got + t.judge(t.solo[i].1))
  {
    OutstandingWithout(t.solo, still, i, rest, t.judge);
    assert multiset(got + t.judge(t.solo[i].1)) == multiset(got) + multiset(AnswerAt(t.solo, i, t.judge));
  }

  lemma {:induction false} PollStep<C>(t: Round<C>, cs: seq<C>, still: seq<nat>, todo: seq<nat>, left: nat,
                                       got: seq<Msg>)
    requires Polling(t, cs, still, todo, left, got) && todo != []
    ensures todo[0] < |cs|
    ensures var (c, o) := t.ops.poll(cs[todo[0]]);
            var cs' := cs[todo[0] := c];
            if o.Pending? then Polling(t, cs', still + [todo[0]], todo[1..], left, got)
            else Polling(t, cs', still, todo[1..], left, got + t.judge(o))
  {
    var i := todo[0];
    assert (still + todo)[|still|] == i;
    var (c, o) := t.ops.poll(cs[i]);
    assert Await(t.ops, cs[i], left + 1) == if o.Pending? then Await(t.ops, c, left) else (c, o);
    if o.Pending? {
      KeepsWaiting(t, cs, still, todo, left, got, c);
    } else {
      IsDone(t, cs, still, todo, left, got, c, o);
    }
  }

  /** The respondent polled is listed nowhere else, and may leave the list. */
  lemma {:induction false} OnlyOnce(still: seq<nat>, todo: seq<nat>, bound: nat)
    requires Increasing(still + todo, bound) && todo != []
    ensures todo[0] !in still && todo[0] !in todo[1..]
    ensures Increasing(still + todo[1..], bound)
  {
    var all, less := still + todo, still + todo[1..];
    assert all[|still|] == todo[0];
    forall k | 0 <= k < |still|
      ensures still[k] < todo[0]
    {
      assert all[k] == still[k];
    }
    forall k | 0 <= k < |todo| - 1
      ensures todo[0] < todo[1..][k]
    {
      assert all[|still| + 1 + k] == todo[1..][k];
    }
    forall k | 0 <= k < |less|
      ensures less[k] == all[if k < |still| then k else k + 1]
    {
    }
  }

  /** All answers are there, and every respondent is at its end. */
  ghost predicate Settled<C>(t: Round<C>, cs: seq<C>, got: seq<Msg>) {
    && multiset(got) == AllAnswers(t)
    && |cs| == |t.solo| && forall i :: 0 <= i < |cs| ==> cs[i] == t.solo[i].0
  }

  /** When nobody is pending, or no round is left, all is settled. */
  lemma {:induction false} Over<C>(t: Round<C>, cs: seq<C>, list: seq<nat>, left: nat, got: seq<Msg>)
    requires Underway(t, cs, list, left, got) && (list == [] || left == 0)
    requires t.judge(Pending) == []
    ensures Settled(t, cs, got)
  {
    if left == 0 {
      forall k | 0 <= k < |list|
        ensures t.solo[list[k]].1.Pending?
      {
        assert list[k] in list;
        assert Await(t.ops, cs[list[k]], 0) == (cs[list[k]], Pending);
      }
      NothingFromPending(t.solo, list, t.judge);
      forall i | 0 <= i < |cs|
        ensures cs[i] == t.solo[i].0
      {
        assert Await(t.ops, cs[i], 0) == (cs[i], Pending);
      }
    }
  }

  lemma {:induction false} NothingFromPending<C>(solo: seq<(C, Outcome)>, list: seq<nat>, judge: Judge)
    requires forall k :: 0 <= k < |list| ==> list[k] < |solo| && solo[list[k]].1.Pending?
    requires judge(Pending) == []
    ensures Outstanding(solo, list, judge) == []
    decreases |list|
  {
    if list != [] {
      NothingFromPending(solo, list[1..], judge);
    }
  }

  // ── The surveyor ────────────────────────────────────────────────────────

  class Surveyor0<C> {
    const ops: Ops<C>
    const state: Surveyor0State
    var respondents: seq<C>

    constructor (ops: Ops<C>, respondents: seq<C>)
      ensures fresh(state) && state.nextId == IssuedId(0) && this.ops == ops && this.respondents == respondents
    {
      state := new Surveyor0State();
      this.ops, this.respondents := ops, respondents;
    }

    /** Send the survey to all respondents, then poll those it reached, round after
        round, until all have answered or failed or the deadline has passed; it
        passes after `rounds` rounds.  Polling them together comes to the same as
        waiting for each on its own: the same answers, the same streams after. */
    method SurveyWithTimeout(question: Msg, rounds: nat) returns (responses: seq<Msg>)
      requires rounds > 0
      modifies this, state
      ensures state.currentId == old(state.nextId) && state.nextId == NextId(old(state.nextId))
      ensures |respondents| == |old(respondents)|
      ensures var id := state.currentId;
              var solo := Solo(ops, old(respondents), Msg(question.header + BeBytes(id, 4), question.body), rounds);
              && multiset(responses) == multiset(Answers(solo, |solo|, JudgeFor(id))) && |responses| <= |solo|
              && (forall i :: 0 <= i < |respondents| ==> respondents[i] == solo[i].0)
    {
      var outgoing := new Message.FromParts(question.header, question.body);
      PushedHeader(question, BeBytes(state.nextId, 4));
      var id := state.PrepareSurvey(outgoing);
      ghost var t := Round(ops, Solo(ops, respondents, outgoing.Value(), rounds), JudgeFor(id));
      var pending := SendPass(t, outgoing.Value(), rounds);
      responses := Collect(t, pending, id, rounds);
      OneAnswerEach(t.solo, |t.solo|, id);
      assert |multiset(responses)| == |responses|;
    }

    method SendPass(ghost t: Round<C>, survey: Msg, ghost rounds: nat) returns (pending: seq<nat>)
      requires t.ops == ops && t.judge(Pending) == [] && t.solo == Solo(ops, respondents, survey, rounds)
      modifies this`respondents
      ensures Underway(t, respondents, pending, rounds, [])
      ensures Reached(ops, old(respondents), survey, |old(respondents)|, pending)
    {
      hide Reached, SentTo;
      ghost var before := respondents;
      pending := [];
      NobodySent(t, rounds, respondents, survey);
      for i := 0 to |respondents|
        invariant |respondents| == |before| && SentTo(t, rounds, respondents, i, pending)
        invariant respondents[i..] == before[i..]
        invariant Reached(ops, before, survey, i, pending)
      {
        assert respondents[i] == respondents[i..][0] == before[i];
        var (c, e) := ops.send(respondents[i], survey);
        assert t.solo[i] == Alone(ops, before[i], survey, rounds);
        SendStep(t, rounds, respondents, i, pending, c, e.None?);
        OneMoreTried(ops, before, survey, i, pending);
        respondents := respondents[i := c];
        assert respondents[i + 1..] == before[i..][1..];
        if e.None? {
          pending := pending + [i];
        }
      }
      AllSent(t, rounds, respondents, pending);
    }

    method Collect(ghost t: Round<C>, reached: seq<nat>, id: u32, rounds: nat) returns (responses: seq<Msg>)
      requires t.ops == ops && id == state.currentId && t.judge == JudgeFor(id) && Underway(t, respondents, reached, rounds, [])
      modifies this`respondents
      ensures Settled(t, respondents, responses)
    {
      hide Underway, Settled;
      var pending := reached;
      responses := [];
      var round := 0;
      while pending != [] && round < rounds
        invariant round <= rounds && Underway(t, respondents, pending, rounds - round, responses)
        decreases rounds - round
      {
        pending, responses := PollRound(t, pending, id, rounds - round - 1, responses);
        round := round + 1;
      }
      Over(t, respondents, pending, rounds - round, responses);
    }

    /** One round: poll every pending respondent once. */
    method PollRound(ghost t: Round<C>, pending: seq<nat>, id: u32, ghost left: nat, earlier: seq<Msg>)
      returns (stillPending: seq<nat>, responses: seq<Msg>)
      requires t.ops == ops && id == state.currentId && t.judge == JudgeFor(id) && Underway(t, respondents, pending, left + 1, earlier)
      modifies this`respondents
      ensures Underway(t, respondents, stillPending, left, responses)
    {
      RoundStarts(t, respondents, pending, left, earlier);
      stillPending, responses := [], earlier;
      assert pending[0..] == pending;
      for k := 0 to |pending|
        invariant Polling(t, respondents, stillPending, pending[k..], left, responses)
      {
        var i := pending[k];
        assert pending[k..][1..] == pending[k + 1..];
        PollStep(t, respondents, stillPending, pending[k..], left, responses);
        var (c, o) := ops.poll(respondents[i]);
        respondents := respondents[i := c];
        if o.Pending? {
          stillPending := stillPending + [i];
        } else if o.Received? {
          var answer := Examine(o.msg, id);
          responses := responses + answer;
        } else {
          assert responses + [] == responses;
        }
      }
      RoundEnds(t, respondents, stillPending, left, responses);
    }

    method Examine(raw: Msg, id: u32) returns (answer: seq<Msg>)
      requires id == state.currentId
      ensures answer == Accepted(Received(raw), id)
    {
      var msg := new Message.FromParts(raw.header, raw.body);
      var error := state.ProcessResponse(msg);
      if error.None? {
        TrimmedFront(raw);
        return [msg.Value()];
      }
      return [];
    }
  }

  // ── Who is included ─────────────────────────────────────────────────────

  /** What a respondent answers is decided by the first frame on its unread stream:
      if that is `payload`, any message the survey gets from it is `payload`. */
  lemma {:induction false} FirstFrameDecides(c: Conn, payload: seq<byte>, rest: seq<byte>, rounds: nat)
    requires ConnOk(c) && |payload| <= MAX_FRAME_BYTES
    requires c.part + c.inner.input == FrameBytes(c.format, payload) + rest
    ensures var o := Await(FRAMED, c, rounds).1;
            && (o.Received? ==> o.msg == Msg([], payload))
            && (o.Failed? ==> !o.error.BadFrame?)
  {
    AtMostOneMessage(c, rounds);
    ReceivedHasNoHeader(c, rounds);
    var (c', o) := Await(FRAMED, c, rounds);
    if EventsOf(o) != [] {
      ParseAppend(c.format, c.consumed, c.inner.input);
      FirstFrameParses(c.format, payload, rest);
      ParsePrefix(c.format, c'.consumed, c.consumed + c.inner.input);
      assert Delivered(c')[|Delivered(c)|] == EventsOf(o)[0];
      assert ParseAll(c.format, c.consumed + c.inner.input).events[|Delivered(c)|] == Payload(payload);
    }
  }

  /** Of the respondents heard from before the deadline, exactly those are included
      whose first unread frame carries the current ID: one with nothing but its
      answer on its stream is; one with anything else in front is not, whatever
      comes behind it. */
  lemma {:induction false} IncludedExactlyIfFirst(c: Conn, id: u32, payload: seq<byte>, rest: seq<byte>, rounds: nat)
    requires ConnOk(c) && |payload| <= MAX_FRAME_BYTES
    requires c.part + c.inner.input == FrameBytes(c.format, payload) + rest
    requires Await(FRAMED, c, rounds).1.Received?
    ensures Accepted(Await(FRAMED, c, rounds).1, id)
         == if |payload| >= 4 && payload[..4] == BeBytes(id, 4) then [Msg([], payload[4..])] else []
  {
    FirstFrameDecides(c, payload, rest, rounds);
    AcceptedById(Msg([], payload), id);
  }

  lemma {:induction false} AcceptedById(m: Msg, id: u32)
    ensures Accepted(Received(m), id)
         == if |m.body| >= 4 && m.body[..4] == BeBytes(id, 4) then [Msg(m.header, m.body[4..])] else []
  {
    if |m.body| >= 4 {
      FieldSizes();
      BeValueOfBytes(id, 4);
      BeBytesOfValue(m.body[..4]);
    }
  }

  /** What is decided by a first unread frame that is complete on the stream: it is
      included exactly when it starts with the current ID and arrives before the
      deadline. */
  lemma {:induction false} ReadableAnswerIsIncluded(c: Conn, id: u32, payload: seq<byte>, rest: seq<byte>, rounds: nat)
    requires MidFrame(c.format, c.part, c.inner, payload, rest)
    ensures Accepted(Await(FRAMED, c, rounds).1, id)
         == if |payload| >= 4 && payload[..4] == BeBytes(id, 4) && ArrivesOn(c.format, c.part, c.inner, payload, rounds)
            then [Msg([], payload[4..])] else []
  {
    ReadyMessageArrives(c, payload, rest, rounds);
    AcceptedById(Msg([], payload), id);
  }

  /** What a respondent contributes, read off its stream and its schedule. */
  function Contribution(c: Conn, id: u32, rounds: nat): seq<Msg> {
    match ParseOne(c.format, c.part + c.inner.input)
    case Frame(Payload(p), _) =>
      if |p| >= 4 && p[..4] == BeBytes(id, 4) && ArrivesOn(c.format, c.part, c.inner, p, rounds)
      then [Msg([], p[4..])] else []
    case _ => []
  }

  /** For every stream and every schedule: the survey gets from a respondent exactly
      what it contributes. */
  lemma {:induction false} ContributionIsExact(c: Conn, id: u32, rounds: nat)
    requires ConnOk(c)
    ensures Accepted(Await(FRAMED, c, rounds).1, id) == Contribution(c, id, rounds)
  {
    var unread := c.part + c.inner.input;
    var p := ParseOne(c.format, unread);
    if p.Frame? && p.event.Payload? {
      PayloadFrameIsCanonical(c.format, unread);
      FirstFrameIsAhead(c, p.event.data, unread[p.size..]);
      ReadableAnswerIsIncluded(c, id, p.event.data, unread[p.size..], rounds);
    } else {
      ReceivedWasFirst(c, rounds);
    }
  }

  lemma {:induction false} FirstFrameIsAhead(c: Conn, payload: seq<byte>, rest: seq<byte>)
    requires ConnOk(c) && |payload| <= MAX_FRAME_BYTES
    requires c.part + c.inner.input == FrameBytes(c.format, payload) + rest
    ensures MidFrame(c.format, c.part, c.inner, payload, rest)
  {
    var frame := FrameBytes(c.format, payload);
    ParseRest(c.format, c.consumed);
    if |c.part| > |frame| {
      assert c.part[..|frame|] == (c.part + c.inner.input)[..|frame|] == (frame + rest)[..|frame|] == frame;
      assert c.part == frame + c.part[|frame|..];
      FrameParses(c.format, payload, c.part[|frame|..]);
    }
  }

  /** A message received is the first one on the unread stream. */
  lemma {:induction false} ReceivedWasFirst(c: Conn, rounds: nat)
    requires ConnOk(c)
    ensures var o := Await(FRAMED, c, rounds).1;
            o.Received? ==> var p := ParseOne(c.format, c.part + c.inner.input);
                            p.Frame? && p.event == Payload(o.msg.body)
  {
    AtMostOneMessage(c, rounds);
    var (c', o) := Await(FRAMED, c, rounds);
    if o.Received? {
      ParseAppend(c.format, c.consumed, c.inner.input);
      ParsePrefix(c.format, c'.consumed, c.consumed + c.inner.input);
      assert Delivered(c')[|Delivered(c)|] == Payload(o.msg.body);
      assert ParseAll(c.format, c.part + c.inner.input).events[0] == Payload(o.msg.body);
    }
  }

  /** A stale answer in front uses up its respondent's turn, however long the survey
      waits: the answer behind it is not included, although all of it is there. */
  lemma {:induction false} StaleAnswerUsesUpTurn(c: Conn, id: u32, staleId: u32, stale: seq<byte>, answer: seq<byte>,
                                                 rest: seq<byte>, rounds: nat)
    requires ConnOk(c) && staleId != id && 4 + |stale| <= MAX_FRAME_BYTES
    requires c.part + c.inner.input
          == FrameBytes(c.format, BeBytes(staleId, 4) + stale) + (FrameBytes(c.format, BeBytes(id, 4) + answer) + rest)
    ensures Accepted(Await(FRAMED, c, rounds).1, id) == []
  {
    var payload := BeBytes(staleId, 4) + stale;
    var behind := FrameBytes(c.format, BeBytes(id, 4) + answer) + rest;
    FirstFrameIsAhead(c, payload, behind);
    ReadableAnswerIsIncluded(c, id, payload, behind, rounds);
    FieldSizes();
    BeValueOfBytes(id, 4);
    BeValueOfBytes(staleId, 4);
    assert payload[..4] == BeBytes(staleId, 4);
  }

  /** The contributions of the first n respondents that the survey reached. */
  function Contributions(cs: seq<Conn>, survey: Msg, id: u32, rounds: nat, n: nat): seq<Msg>
    requires n <= |cs|
    decreases n
  {
    if n == 0 then []
    else Contributions(cs, survey, id, rounds, n - 1) + Contributed(cs[n - 1], survey, id, rounds)
  }

  function Contributed(c: Conn, survey: Msg, id: u32, rounds: nat): seq<Msg> {
    if SendOn(c, survey).1.None? then Contribution(c, id, rounds) else []
  }

  lemma {:induction false} AloneContributes(c: Conn, survey: Msg, id: u32, rounds: nat)
    requires ConnOk(c)
    ensures JudgeFor(id)(Alone(FRAMED, c, survey, rounds).1) == Contributed(c, survey, id, rounds)
  {
    SendWritesOneFrame(c, survey);
    if SendOn(c, survey).1.None? {
      ContributionIsExact(SendOn(c, survey).0, id, rounds);
    }
  }

  lemma {:induction false} AnswersAreContributions(cs: seq<Conn>, survey: Msg, id: u32, rounds: nat, n: nat)
    requires n <= |cs| && forall c :: c in cs ==> ConnOk(c)
    ensures Answers(Solo(FRAMED, cs, survey, rounds), n, JudgeFor(id)) == Contributions(cs, survey, id, rounds, n)
    decreases n
  {
    hide SendOn, Contributed, Accepted, Alone, ConnOk;
    if n > 0 {
      AnswersAreContributions(cs, survey, id, rounds, n - 1);
      AloneContributes(cs[n - 1], survey, id, rounds);
    }
  }

  /** The respondent has nothing unread before its answer, and all of the answer
      arrives before the deadline. */
  ghost predicate Readable(c: Conn, id: u32, answer: seq<byte>, rest: seq<byte>, rounds: nat) {
    && 4 + |answer| <= MAX_FRAME_BYTES
    && MidFrame(c.format, c.part, c.inner, BeBytes(id, 4) + answer, rest)
    && ArrivesOn(c.format, c.part, c.inner, BeBytes(id, 4) + answer, rounds)
  }

  lemma {:induction false} AnswerCounts<C>(solo: seq<(C, Outcome)>, n: nat, judge: Judge, i: nat, m: Msg)
    requires i < n <= |solo| && m in judge(solo[i].1)
    ensures m in Answers(solo, n, judge)
    decreases n
  {
    if i < n - 1 {
      AnswerCounts(solo, n - 1, judge, i, m);
    }
  }

  lemma {:induction false} AnswerComesFrom<C>(solo: seq<(C, Outcome)>, n: nat, judge: Judge, m: Msg) returns (i: nat)
    requires n <= |solo| && m in Answers(solo, n, judge)
    ensures i < n && m in judge(solo[i].1)
    decreases n
  {
    if m in judge(solo[n - 1].1) {
      i := n - 1;
    } else {
      i := AnswerComesFrom(solo, n - 1, judge, m);
    }
  }

  lemma {:induction false} SameElements(a: seq<Msg>, b: seq<Msg>, m: Msg)
    requires multiset(a) == multiset(b)
    ensures m in a <==> m in b
  {
    assert m in a <==> m in multiset(a);
    assert m in b <==> m in multiset(b);
  }

  /** The respondent gave up one message, and that was the answer `m` under `id`. */
  ghost predicate Gave(c: Conn, c': Conn, id: u32, m: Msg) {
    m.header == [] && Delivered(c') == Delivered(c) + [Payload(BeBytes(id, 4) + m.body)]
  }

  /** A respondent alone, on a framed transport: at most one message is read, and an
      answer that is accepted is that message. */
  lemma {:induction false} AloneOnStream(c: Conn, survey: Msg, rounds: nat, id: u32)
    requires ConnOk(c)
    ensures var (c', o) := Alone(FRAMED, c, survey, rounds);
            && Delivered(c') == Delivered(c) + EventsOf(o)
            && forall m :: m in Accepted(o, id) ==> Gave(c, c', id, m)
  {
    SendWritesOneFrame(c, survey);
    var (sent, e) := SendOn(c, survey);
    if e.Some? {
      assert Delivered(c) + [] == Delivered(c);
    } else {
      AtMostOneMessage(sent, rounds);
      ReceivedHasNoHeader(sent, rounds);
      var (c', o) := Await(FRAMED, sent, rounds);
      if o.Received? && Accepted(o, id) != [] {
        AcceptedById(o.msg, id);
        assert o.msg.body == o.msg.body[..4] + o.msg.body[4..];
      }
    }
  }

  lemma {:induction false} ReachedAndReadable(c: Conn, survey: Msg, id: u32, answer: seq<byte>, rest: seq<byte>, rounds: nat)
    requires ConnOk(c) && SendOn(c, survey).1.None? && Readable(c, id, answer, rest, rounds)
    ensures Accepted(Alone(FRAMED, c, survey, rounds).1, id) == [Msg([], answer)]
  {
    SendWritesOneFrame(c, survey);
    var payload := BeBytes(id, 4) + answer;
    ReadableAnswerIsIncluded(SendOn(c, survey).0, id, payload, rest, rounds);
    assert payload[..4] == BeBytes(id, 4) && payload[4..] == answer;
  }

  /** What a survey over framed transports returned, and left of their streams. */
  ghost predicate Surveyed(before: seq<Conn>, after: seq<Conn>, survey: Msg, id: u32, rounds: nat, responses: seq<Msg>) {
    var solo := Solo(FRAMED, before, survey, rounds);
    && |after| == |before| && (forall i :: 0 <= i < |after| ==> after[i] == solo[i].0)
    && multiset(responses) == multiset(Answers(solo, |solo|, JudgeFor(id)))
  }

  lemma {:induction false} ReadableAreIncluded(before: seq<Conn>, after: seq<Conn>, survey: Msg, id: u32, rounds: nat,
                                               responses: seq<Msg>, i: nat, answer: seq<byte>, rest: seq<byte>)
    requires Surveyed(before, after, survey, id, rounds, responses)
    requires i < |before| && ConnOk(before[i])
    requires SendOn(before[i], survey).1.None? && Readable(before[i], id, answer, rest, rounds)
    ensures Msg([], answer) in responses
  {
    hide SendOn, Readable;
    var solo := Solo(FRAMED, before, survey, rounds);
    ReachedAndReadable(before[i], survey, id, answer, rest, rounds);
    assert JudgeFor(id)(solo[i].1) == [Msg([], answer)];
    AnswerCounts(solo, |solo|, JudgeFor(id), i, Msg([], answer));
    SameElements(responses, Answers(solo, |solo|, JudgeFor(id)), Msg([], answer));
  }

  lemma {:induction false} IncludedWasGiven(before: seq<Conn>, after: seq<Conn>, survey: Msg, id: u32, rounds: nat,
                                            responses: seq<Msg>, m: Msg)
    returns (i: nat)
    requires Surveyed(before, after, survey, id, rounds, responses) && m in responses
    requires forall c :: c in before ==> ConnOk(c)
    ensures i < |before| == |after| && Gave(before[i], after[i], id, m)
  {
    var solo := Solo(FRAMED, before, survey, rounds);
    SameElements(responses, Answers(solo, |solo|, JudgeFor(id)), m);
    i := AnswerComesFrom(solo, |solo|, JudgeFor(id), m);
    AloneOnStream(before[i], survey, rounds, id);
  }

  lemma {:induction false} OneMessageAtMost(before: seq<Conn>, after: seq<Conn>, survey: Msg, id: u32, rounds: nat,
                                            responses: seq<Msg>, i: nat)
    requires Surveyed(before, after, survey, id, rounds, responses) && i < |before| && ConnOk(before[i])
    ensures ReadAtMostOne(before[i], after[i])
  {
    AloneOnStream(before[i], survey, rounds, id);
  }

  ghost predicate ReadAtMostOne(c: Conn, c': Conn) {
    Delivered(c) <= Delivered(c') && |Delivered(c')| <= |Delivered(c)| + 1
  }

  /** `survey` on framed transports.  As a multiset, what is returned is exactly what
      the respondents it could be sent to contribute.  So every one of them with an
      empty inbound queue and an answer readable before the deadline is included;
      what is returned carried the current ID and is the one message read from some
      respondent; no respondent loses more than one. */
  method RunSurvey(surveyor: Surveyor0<Conn>, question: Msg, rounds: nat) returns (responses: seq<Msg>)
    requires surveyor.ops == FRAMED && rounds > 0
    requires forall c :: c in surveyor.respondents ==> ConnOk(c)
    modifies surveyor, surveyor.state
    ensures |surveyor.respondents| == |old(surveyor.respondents)| && |responses| <= |surveyor.respondents|
    ensures var id := old(surveyor.state.nextId);
            var survey := Msg(question.header + BeBytes(id, 4), question.body);
            multiset(responses) == multiset(Contributions(old(surveyor.respondents), survey, id, rounds, |old(surveyor.respondents)|))
    ensures var id := old(surveyor.state.nextId);
            var survey := Msg(question.header + BeBytes(id, 4), question.body);
            forall i, answer, rest ::
              (&& 0 <= i < |old(surveyor.respondents)|
               && SendOn(old(surveyor.respondents)[i], survey).1.None?
               && Readable(old(surveyor.respondents)[i], id, answer, rest, rounds))
              ==> Msg([], answer) in responses
    ensures forall m :: m in responses ==>
              exists i :: 0 <= i < |surveyor.respondents|
                       && Gave(old(surveyor.respondents)[i], surveyor.respondents[i], old(surveyor.state.nextId), m)
    ensures forall i :: 0 <= i < |surveyor.respondents| ==>
              ReadAtMostOne(old(surveyor.respondents)[i], surveyor.respondents[i])
  {
    hide SendOn, Readable, Gave, ReadAtMostOne, Contribution;
    ghost var before, id := surveyor.respondents, surveyor.state.nextId;
    ghost var survey := Msg(question.header + BeBytes(id, 4), question.body);
    responses := surveyor.SurveyWithTimeout(question, rounds);
    ghost var after := surveyor.respondents;
    assert Surveyed(before, after, survey, id, rounds, responses);
    AnswersAreContributions(before, survey, id, rounds, |before|);
    forall i, answer, rest | 0 <= i < |before| && SendOn(before[i], survey).1.None?
                             && Readable(before[i], id, answer, rest, rounds)
      ensures Msg([], answer) in responses
    {
      ReadableAreIncluded(before, after, survey, id, rounds, responses, i, answer, rest);
    }
    forall m | m in responses
      ensures exists i :: 0 <= i < |after| && Gave(before[i], after[i], id, m)
    {
      var i := IncludedWasGiven(before, after, survey, id, rounds, responses, m);
    }
    forall i | 0 <= i < |after|
      ensures ReadAtMostOne(before[i], after[i])
    {
      OneMessageAtMost(before, after, survey, id, rounds, responses, i);
    }
  }
}
