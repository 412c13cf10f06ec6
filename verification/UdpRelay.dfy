// udp_relay.go: request/response round trips over a hole-punched UDP path.  The network is the
// set of frames ever written: frames may be lost, duplicated and reordered.
module UdpRelay {
  import opened Common
  import RelayCodec

  const RETRIES := 3
  const FAIL_THRESHOLD := 5
  const KEEPALIVE_MISSES := 3

  type Request = RelayCodec.Request
  type Response = RelayCodec.Response

  // A RoundTrip in progress: frames written so far, whether it waits for an answer (else it is
  // about to write), and its one-slot channel.
  datatype Call = Call(req: Request, sent: nat, waiting: bool, slot: Option<Response>)

  datatype Result = Ok(resp: Response) | WriteError | Exhausted | Stopped

  // A finished RoundTrip: its result and how many frames it wrote.
  datatype Done = Done(result: Result, sent: nat)

  // asked: the request of every id ever used; answers: which responses the peer produced for
  // which request; outcomes: recorded successes (true) and failures (false), in order; marks:
  // callers that have seen a counter reach its limit and are about to set the latch.
  datatype Relay = Relay(
    pending: map<nat, Call>, finished: map<nat, Done>, asked: map<nat, Request>,
    requests: set<(nat, Request)>, responses: set<(nat, Response)>, answers: set<(nat, Request, Response)>,
    failCount: nat, marks: nat, failed: bool, missedPongs: nat, outcomes: seq<bool>, pingDead: bool, stopped: bool)

  const START := Relay(map[], map[], map[], {}, {}, {}, 0, 0, false, 0, [], false, false)

  datatype Step =
    | Begin(id: nat, req: Request)
    | Write(id: nat, ok: bool)
    | Receive(id: nat)
    | Timeout(id: nat)
    | Abandon(id: nat)
    | Deliver(id: nat, resp: Response)
    | Serve(id: nat, req: Request, resp: Response)
    | Ping(ok: bool)
    | Pong
    | Mark
    | CloseConn

  predicate Can(s: Relay, step: Step) {
    match step
    // The random id is drawn again only while a call is pending under it.
    case Begin(id, _) => id !in s.pending
    case Write(id, _) => id in s.pending && !s.pending[id].waiting
    case Receive(id) => id in s.pending && s.pending[id].waiting && s.pending[id].slot.Some?
    case Timeout(id) => id in s.pending && s.pending[id].waiting
    case Abandon(id) => id in s.pending && s.pending[id].waiting && s.stopped
    case Deliver(id, resp) => (id, resp) in s.responses
    case Serve(id, req, _) => (id, req) in s.requests
    case Ping(_) => !s.pingDead && !s.stopped
    case Pong => true
    case Mark => s.marks > 0
    case CloseConn => true
  }

  function RecordFailure(s: Relay): (r: Relay) {
    s.(failCount := s.failCount + 1, outcomes := s.outcomes + [false],
       marks := if s.failCount + 1 >= FAIL_THRESHOLD then s.marks + 1 else s.marks)
  }

  function Finish(s: Relay, id: nat, r: Result): (t: Relay)
    requires id in s.pending
  {
    s.(pending := s.pending - {id}, finished := s.finished[id := Done(r, s.pending[id].sent)])
  }

  function Next(s: Relay, step: Step): (t: Relay)
    requires Can(s, step)
  {
    match step
    case Begin(id, req) => s.(pending := s.pending[id := Call(req, 0, false, None)], asked := s.asked[id := req])
    case Write(id, ok) =>
      if !ok then RecordFailure(Finish(s, id, WriteError))
      else
        var c := s.pending[id];
        s.(pending := s.pending[id := c.(sent := c.sent + 1, waiting := true)], requests := s.requests + {(id, c.req)})
    case Receive(id) => Finish(s, id, Ok(s.pending[id].slot.value)).(failCount := 0, outcomes := s.outcomes + [true])
    case Timeout(id) =>
      if s.pending[id].sent < RETRIES then s.(pending := s.pending[id := s.pending[id].(waiting := false)])
      else RecordFailure(Finish(s, id, Exhausted))
    case Abandon(id) => Finish(s, id, Stopped)
    case Deliver(id, resp) =>
      if id in s.pending && s.pending[id].slot.None?
      then s.(pending := s.pending[id := s.pending[id].(slot := Some(resp))])
      else s
    case Serve(id, req, resp) => s.(responses := s.responses + {(id, resp)}, answers := s.answers + {(id, req, resp)})
    case Ping(ok) =>
      if !ok then RecordFailure(s).(pingDead := true)
      else
        var t := s.(missedPongs := s.missedPongs + 1);
        if t.missedPongs >= KEEPALIVE_MISSES then t.(marks := s.marks + 1, pingDead := true) else t
    case Pong => s.(missedPongs := 0)
    case Mark => s.(marks := s.marks - 1, failed := true)
    case CloseConn => s.(stopped := true)
  }

  // A step that, if it begins a call, draws an id never used before.
  predicate Fresh(s: Relay, step: Step) {
    Can(s, step) && (step.Begin? ==> step.id !in s.asked)
  }

  // The runs in which the random 32-bit ids do not repeat; the lemma at the end shows what may
  // happen when one does.
  ghost predicate Run(b: seq<Relay>, steps: seq<Step>) {
    |b| == |steps| + 1 && b[0] == START && forall i: nat :: i < |steps| ==> Follows(b, steps, i)
  }

  ghost predicate Follows(b: seq<Relay>, steps: seq<Step>, i: nat)
    requires i < |steps| && |b| == |steps| + 1
  {
    Fresh(b[i], steps[i]) && b[i + 1] == Next(b[i], steps[i])
  }

  // ---- Answers belong to their requests ----

  ghost predicate Answered(s: Relay, id: nat, resp: Response) {
    id in s.asked && (id, s.asked[id], resp) in s.answers
  }

  ghost predicate Traffic(s: Relay) {
    && (forall id, req :: (id, req) in s.requests ==> id in s.asked && s.asked[id] == req)
    && (forall id, resp :: (id, resp) in s.responses ==> Answered(s, id, resp))
  }

  ghost predicate CallOk(s: Relay, id: nat, c: Call) {
    && id in s.asked && c.req == s.asked[id]
    && c.sent <= RETRIES && (!c.waiting ==> c.sent < RETRIES)
    && (c.slot.Some? ==> Answered(s, id, c.slot.value))
  }

  ghost predicate DoneOk(s: Relay, id: nat, d: Done) {
    d.sent <= RETRIES && (d.result.Ok? ==> Answered(s, id, d.result.resp))
  }

  // Every id ever used is either in progress or finished, never both.
  ghost predicate TableAt(s: Relay, id: nat) {
    && (id in s.pending ==> id in s.asked && id !in s.finished)
    && (id in s.finished ==> id in s.asked)
    && (id in s.asked ==> id in s.pending || id in s.finished)
  }

  ghost predicate Table(s: Relay) {
    forall id: nat :: TableAt(s, id)
  }

  ghost predicate Calls(s: Relay) {
    && Table(s)
    && (forall id :: id in s.pending ==> CallOk(s, id, s.pending[id]))
    && (forall id :: id in s.finished ==> DoneOk(s, id, s.finished[id]))
  }

  lemma RequestsKept(s: Relay, step: Step, id: nat, req: Request)
    requires Fresh(s, step) && ((id, req) in s.requests ==> id in s.asked && s.asked[id] == req)
    requires step.Write? ==> step.id in s.asked && s.pending[step.id].req == s.asked[step.id]
    ensures var t := Next(s, step); (id, req) in t.requests ==> id in t.asked && t.asked[id] == req
  {
  }

  lemma ResponsesKept(s: Relay, step: Step, id: nat, resp: Response)
    requires Fresh(s, step) && ((id, resp) in s.responses ==> Answered(s, id, resp))
    requires step.Serve? ==> step.id in s.asked && s.asked[step.id] == step.req
    ensures (id, resp) in Next(s, step).responses ==> Answered(Next(s, step), id, resp)
  {
  }

  lemma KeepsTraffic(s: Relay, step: Step)
    requires Fresh(s, step) && Traffic(s)
    requires step.Write? ==> step.id in s.asked && s.pending[step.id].req == s.asked[step.id]
    ensures Traffic(Next(s, step))
  {
    var t := Next(s, step);
    forall id, req | (id, req) in t.requests
      ensures id in t.asked && t.asked[id] == req
    {
      RequestsKept(s, step, id, req);
    }
    forall id, resp | (id, resp) in t.responses
      ensures Answered(t, id, resp)
    {
      ResponsesKept(s, step, id, resp);
    }
  }

  lemma AnsweredStays(s: Relay, step: Step, id: nat, resp: Response)
    requires Fresh(s, step) && Answered(s, id, resp)
    ensures Answered(Next(s, step), id, resp)
  {
  }

  // A step of a call keeps its counters within bounds and fills its slot only from a delivery.
  ghost predicate CallMoves(c: Call, d: Call, id: nat, step: Step) {
    && d.req == c.req && d.sent <= RETRIES && (!d.waiting ==> d.sent < RETRIES)
    && (d.slot == c.slot || (step.Deliver? && step.id == id && d.slot == Some(step.resp)))
  }

  lemma CallSteps(s: Relay, step: Step, id: nat)
    requires Fresh(s, step) && id in s.pending && CallOk(s, id, s.pending[id]) && id in Next(s, step).pending
    ensures CallMoves(s.pending[id], Next(s, step).pending[id], id, step)
  {
  }

  lemma AskedStays(s: Relay, step: Step, id: nat)
    requires Fresh(s, step) && id in s.asked
    ensures id in Next(s, step).asked && Next(s, step).asked[id] == s.asked[id]
  {
  }

  lemma CallKept(s: Relay, step: Step, id: nat)
    requires Fresh(s, step) && id in s.pending && CallOk(s, id, s.pending[id]) && id in Next(s, step).pending
    requires step.Deliver? ==> Answered(s, step.id, step.resp)
    ensures CallOk(Next(s, step), id, Next(s, step).pending[id])
  {
    CallSteps(s, step, id);
    AskedStays(s, step, id);
    var slot := Next(s, step).pending[id].slot;
    if slot.Some? {
      AnsweredStays(s, step, id, slot.value);
    }
  }

  lemma CallFinished(s: Relay, step: Step, id: nat)
    requires Fresh(s, step) && id in s.pending && CallOk(s, id, s.pending[id])
    requires id !in s.finished && id in Next(s, step).finished
    ensures DoneOk(Next(s, step), id, Next(s, step).finished[id])
  {
    if s.pending[id].slot.Some? {
      AnsweredStays(s, step, id, s.pending[id].slot.value);
    }
  }

  lemma DoneKept(s: Relay, step: Step, id: nat)
    requires Fresh(s, step) && id in s.finished && id !in s.pending && DoneOk(s, id, s.finished[id])
    ensures id in Next(s, step).finished && Next(s, step).finished[id] == s.finished[id]
    ensures DoneOk(Next(s, step), id, s.finished[id])
  {
    if s.finished[id].result.Ok? {
      AnsweredStays(s, step, id, s.finished[id].result.resp);
    }
  }

  lemma TableAtKept(s: Relay, step: Step, id: nat)
    requires Fresh(s, step) && TableAt(s, id)
    ensures TableAt(Next(s, step), id)
  {
  }

  lemma KeepsTable(s: Relay, step: Step)
    requires Fresh(s, step) && Table(s)
    ensures Table(Next(s, step))
  {
    forall id: nat
      ensures TableAt(Next(s, step), id)
    {
      assert TableAt(s, id);
      TableAtKept(s, step, id);
    }
  }

  lemma NewCalls(s: Relay, step: Step, id: nat)
    requires Fresh(s, step)
    ensures var t := Next(s, step);
      id in t.pending && id !in s.pending ==> step.Begin? && step.id == id && CallOk(t, id, t.pending[id])
  {
  }

  lemma NewlyFinished(s: Relay, step: Step, id: nat)
    requires Fresh(s, step)
    ensures id in Next(s, step).finished ==> id in s.finished || id in s.pending
  {
  }

  lemma KeepsCalls(s: Relay, step: Step)
    requires Fresh(s, step) && Traffic(s) && Calls(s)
    ensures Calls(Next(s, step))
  {
    var t := Next(s, step);
    KeepsTable(s, step);
    forall id | id in t.pending
      ensures CallOk(t, id, t.pending[id])
    {
      assert TableAt(s, id);
      NewCalls(s, step, id);
      if id in s.pending {
        CallKept(s, step, id);
      }
    }
    forall id | id in t.finished
      ensures DoneOk(t, id, t.finished[id])
    {
      assert TableAt(s, id);
      NewlyFinished(s, step, id);
      if id in s.finished {
        DoneKept(s, step, id);
      } else {
        CallFinished(s, step, id);
      }
    }
  }

  lemma {:induction false} RunKeepsCalls(b: seq<Relay>, steps: seq<Step>, i: nat)
    requires Run(b, steps) && i < |b|
    ensures Traffic(b[i]) && Calls(b[i])
  {
    if i > 0 {
      RunKeepsCalls(b, steps, i - 1);
      assert Follows(b, steps, i - 1);
      if steps[i - 1].Write? {
        assert CallOk(b[i - 1], steps[i - 1].id, b[i - 1].pending[steps[i - 1].id]);
      }
      KeepsTraffic(b[i - 1], steps[i - 1]);
      KeepsCalls(b[i - 1], steps[i - 1]);
    }
  }

  // Over every run of a lossy, duplicating, reordering network: a RoundTrip that succeeds
  // returns a response the peer produced for that very request, every request is written at
  // most three times, and the pending table is exactly the calls begun and not yet finished.
  lemma RoundTripsMatch(b: seq<Relay>, steps: seq<Step>, i: nat, id: nat)
    requires Run(b, steps) && i < |b| && id in b[i].asked
    ensures var s := b[i];
      if id in s.finished then
        && id !in s.pending && s.finished[id].sent <= RETRIES
        && (s.finished[id].result.Ok? ==> (id, s.asked[id], s.finished[id].result.resp) in s.answers)
      else
        id in s.pending && s.pending[id].sent <= RETRIES
  {
    RunKeepsCalls(b, steps, i);
    var s := b[i];
    assert TableAt(s, id);
    if id in s.finished {
      assert DoneOk(s, id, s.finished[id]);
    } else {
      assert CallOk(s, id, s.pending[id]);
    }
  }

  // A finished call stays finished with the result it returned: replies that arrive late or
  // twice change nothing at all.
  lemma {:induction false} LateRepliesDropped(b: seq<Relay>, steps: seq<Step>, i: nat, j: nat, id: nat)
    requires Run(b, steps) && i <= j < |b| && id in b[i].finished
    ensures id in b[j].finished && b[j].finished[id] == b[i].finished[id]
    ensures j < |steps| && steps[j].Deliver? && steps[j].id == id ==> b[j + 1] == b[j]
    decreases j - i
  {
    RunKeepsCalls(b, steps, j);
    if i < j {
      LateRepliesDropped(b, steps, i, j - 1, id);
      RunKeepsCalls(b, steps, j - 1);
      assert Follows(b, steps, j - 1);
      assert TableAt(b[j - 1], id);
      DoneKept(b[j - 1], steps[j - 1], id);
    }
    assert TableAt(b[j], id);
    if j < |steps| {
      assert Follows(b, steps, j);
    }
  }

  // ---- The failure latch ----

  // Failures recorded since the last success.
  function Trailing(os: seq<bool>): (n: nat) {
    if os == [] || os[|os| - 1] then 0 else Trailing(os[..|os| - 1]) + 1
  }

  ghost predicate EverFive(os: seq<bool>) {
    exists k :: 0 <= k <= |os| && Trailing(os[..k]) == FAIL_THRESHOLD
  }

  ghost predicate LatchOk(failCount: nat, marked: bool, missed: nat, os: seq<bool>) {
    && failCount == Trailing(os)
    && (!marked ==> failCount < FAIL_THRESHOLD && !EverFive(os) && missed < KEEPALIVE_MISSES)
  }

  // The latch is set, or somebody is about to set it.
  predicate Marked(s: Relay) {
    s.failed || s.marks > 0
  }

  ghost predicate Latch(s: Relay) {
    LatchOk(s.failCount, Marked(s), s.missedPongs, s.outcomes)
  }

  lemma EverFiveSnoc(os: seq<bool>, o: bool)
    ensures EverFive(os + [o]) <==> EverFive(os) || Trailing(os + [o]) == FAIL_THRESHOLD
    ensures Trailing(os + [o]) == if o then 0 else Trailing(os) + 1
  {
    var all := os + [o];
    assert all[..|os|] == os && all[..|all|] == all;
    if EverFive(all) && Trailing(all) != FAIL_THRESHOLD {
      var k :| 0 <= k <= |all| && Trailing(all[..k]) == FAIL_THRESHOLD;
      assert all[..k] == os[..k];
    }
    if EverFive(os) {
      var k :| 0 <= k <= |os| && Trailing(os[..k]) == FAIL_THRESHOLD;
      assert all[..k] == os[..k];
    }
  }

  lemma FailureKeepsLatch(failCount: nat, marked: bool, missed: nat, os: seq<bool>)
    requires LatchOk(failCount, marked, missed, os)
    ensures LatchOk(failCount + 1, marked || failCount + 1 >= FAIL_THRESHOLD, missed, os + [false])
  {
    EverFiveSnoc(os, false);
  }

  lemma SuccessKeepsLatch(failCount: nat, marked: bool, missed: nat, os: seq<bool>)
    requires LatchOk(failCount, marked, missed, os)
    ensures LatchOk(0, marked, missed, os + [true])
  {
    EverFiveSnoc(os, true);
  }

  // What a step does to the latch and the counters behind it.
  ghost predicate LatchStep(s: Relay, t: Relay, step: Step) {
    || (t.failCount == s.failCount + 1 && t.outcomes == s.outcomes + [false] && t.missedPongs == s.missedPongs
        && Marked(t) == (Marked(s) || s.failCount + 1 >= FAIL_THRESHOLD))
    || (t.failCount == 0 && t.outcomes == s.outcomes + [true] && t.missedPongs == s.missedPongs
        && Marked(t) == Marked(s))
    || (step == Ping(true) && t.failCount == s.failCount && t.outcomes == s.outcomes
        && t.missedPongs == s.missedPongs + 1 && Marked(t) == (Marked(s) || t.missedPongs >= KEEPALIVE_MISSES))
    || (step != Ping(true) && t.failCount == s.failCount && t.outcomes == s.outcomes
        && t.missedPongs <= s.missedPongs && Marked(t) == Marked(s))
  }

  lemma StepsTheLatch(s: Relay, step: Step)
    requires Fresh(s, step)
    ensures LatchStep(s, Next(s, step), step)
  {
  }

  lemma OnlyMarkFails(s: Relay, step: Step)
    requires Fresh(s, step)
    ensures Next(s, step).failed == (s.failed || step.Mark?)
  {
  }

  lemma KeepsLatch(s: Relay, step: Step)
    requires Fresh(s, step) && Latch(s)
    ensures Latch(Next(s, step)) && (Marked(s) ==> Marked(Next(s, step)))
  {
    StepsTheLatch(s, step);
    FailureKeepsLatch(s.failCount, Marked(s), s.missedPongs, s.outcomes);
    SuccessKeepsLatch(s.failCount, Marked(s), s.missedPongs, s.outcomes);
  }

  lemma {:induction false} RunKeepsLatch(b: seq<Relay>, steps: seq<Step>, i: nat)
    requires Run(b, steps) && i < |b|
    ensures Latch(b[i])
  {
    if i > 0 {
      RunKeepsLatch(b, steps, i - 1);
      assert Follows(b, steps, i - 1);
      KeepsLatch(b[i - 1], steps[i - 1]);
    } else {
      assert !EverFive([]);
    }
  }

  // failed, once set, stays set.
  lemma {:induction false} FailedLatches(b: seq<Relay>, steps: seq<Step>, i: nat, j: nat)
    requires Run(b, steps) && i <= j < |b| && b[i].failed
    ensures b[j].failed
    decreases j - i
  {
    if i < j {
      FailedLatches(b, steps, i, j - 1);
      assert Follows(b, steps, j - 1);
      OnlyMarkFails(b[j - 1], steps[j - 1]);
    }
  }

  // Pings written since the last pong arrived.
  function Unanswered(steps: seq<Step>): (n: nat) {
    if steps == [] || steps[|steps| - 1].Pong? then 0
    else Unanswered(steps[..|steps| - 1]) + (if steps[|steps| - 1] == Ping(true) then 1 else 0)
  }

  lemma UnansweredNext(steps: seq<Step>, i: nat)
    requires i < |steps|
    ensures Unanswered(steps[..i + 1]) ==
      if steps[i].Pong? then 0 else Unanswered(steps[..i]) + (if steps[i] == Ping(true) then 1 else 0)
  {
    assert steps[..i + 1][..i] == steps[..i];
  }

  lemma MissedNext(s: Relay, step: Step)
    requires Fresh(s, step)
    ensures Next(s, step).missedPongs ==
      if step.Pong? then 0 else s.missedPongs + (if step == Ping(true) then 1 else 0)
  {
  }

  // The counter of missed pongs is the number of pings since the last pong.
  lemma {:induction false} MissedIsUnanswered(b: seq<Relay>, steps: seq<Step>, i: nat)
    requires Run(b, steps) && i < |b|
    ensures b[i].missedPongs == Unanswered(steps[..i])
  {
    if i > 0 {
      MissedIsUnanswered(b, steps, i - 1);
      assert Follows(b, steps, i - 1);
      MissedNext(b[i - 1], steps[i - 1]);
      UnansweredNext(steps, i - 1);
    }
  }

  // The step that first leads to the latch is the fifth recorded failure with no success
  // between, or the third ping with no pong between, and either of them does lead to it; the
  // latch itself is set by a caller that saw one of them and by nothing else.
  lemma FailsExactlyWhen(b: seq<Relay>, steps: seq<Step>, i: nat)
    requires Run(b, steps) && i < |steps|
    ensures !Marked(b[i]) ==> (Marked(b[i + 1]) <==>
      || (b[i + 1].outcomes == b[i].outcomes + [false] && Trailing(b[i + 1].outcomes) == FAIL_THRESHOLD)
      || (steps[i] == Ping(true) && Unanswered(steps[..i + 1]) == KEEPALIVE_MISSES))
    ensures Marked(b[i]) ==> Marked(b[i + 1])
    ensures b[i + 1].failed <==> b[i].failed || (steps[i].Mark? && b[i].marks > 0)
  {
    RunKeepsLatch(b, steps, i);
    assert Follows(b, steps, i);
    KeepsLatch(b[i], steps[i]);
    StepsTheLatch(b[i], steps[i]);
    OnlyMarkFails(b[i], steps[i]);
    EverFiveSnoc(b[i].outcomes, false);
    MissedIsUnanswered(b, steps, i + 1);
  }

  // ---- A reply in time succeeds ----

  // If the peer's response is delivered while the call waits, the call returns that response.
  lemma ReplyInTimeSucceeds(s: Relay, id: nat, resp: Response)
    requires id in s.pending && s.pending[id].waiting && s.pending[id].slot.None? && (id, resp) in s.responses
    ensures var t := Next(s, Deliver(id, resp));
      && Can(t, Receive(id))
      && var u := Next(t, Receive(id));
         id in u.finished && u.finished[id].result == Ok(resp) && id !in u.pending && u.failCount == 0
  {
    var t := Next(s, Deliver(id, resp));
    assert t.pending[id].slot == Some(resp);
  }

  // ---- A run with a repeated id ----

  ghost predicate Goes(s: Relay, step: Step, t: Relay) {
    Can(s, step) && t == Next(s, step)
  }

  ghost function Rel(): (rel: (Relay, Step, Relay) -> bool) {
    (s, step, t) => Goes(s, step, t)
  }

  // A run in which ids may repeat.
  ghost predicate AnyRun(b: seq<Relay>, steps: seq<Step>) {
    |b| == |steps| + 1 && b[0] == START && forall i: nat :: i < |steps| ==> Goes(b[i], steps[i], b[i + 1])
  }

  lemma Does(s: Relay, t: Relay, step: Step)
    requires Reach(Rel(), s, t) && Can(t, step)
    ensures Reach(Rel(), s, Next(t, step))
  {
    ReachStep(Rel(), t, step, Next(t, step));
    ReachOn(Rel(), s, t, Next(t, step));
  }

  lemma Asks(s: Relay, id: nat, req: Request) returns (t: Relay)
    requires Reach(Rel(), START, s) && id !in s.pending
    ensures Reach(Rel(), START, t)
    ensures t == s.(pending := s.pending[id := Call(req, 1, true, None)], asked := s.asked[id := req],
                    requests := s.requests + {(id, req)})
  {
    Does(START, s, Begin(id, req));
    var begun := Next(s, Begin(id, req));
    Does(START, begun, Write(id, true));
    t := Next(begun, Write(id, true));
  }

  lemma AsksAgain(s: Relay, id: nat) returns (t: Relay)
    requires Reach(Rel(), START, s) && id in s.pending && s.pending[id].waiting && s.pending[id].sent < RETRIES
    ensures Reach(Rel(), START, t)
    ensures var c := s.pending[id];
      t == s.(pending := s.pending[id := c.(sent := c.sent + 1)], requests := s.requests + {(id, c.req)})
  {
    Does(START, s, Timeout(id));
    var out := Next(s, Timeout(id));
    Does(START, out, Write(id, true));
    t := Next(out, Write(id, true));
  }

  // A call writes three times and gives up; the peer has answered, too late.
  lemma FirstGivesUp(id: nat, req: Request, late: Response) returns (t: Relay)
    ensures Reach(Rel(), START, t) && id !in t.pending && id in t.finished && t.finished[id].result == Exhausted
    ensures t.responses == {(id, late)} && t.answers == {(id, req, late)}
  {
    assert PathTo(Rel(), [START], [], START, START);
    t := Asks(START, id, req);
    Does(START, t, Serve(id, req, late));
    t := Next(t, Serve(id, req, late));
    t := AsksAgain(t, id);
    t := AsksAgain(t, id);
    Does(START, t, Timeout(id));
    t := Next(t, Timeout(id));
  }

  // Why the ids must not repeat: the code avoids only the ids of pending calls, and there is a
  // run in which a call that draws the id of one that gave up returns the late reply to that one,
  // which the peer never produced for it.
  lemma ReusedIdTakesLateReply(id: nat, first: Request, second: Request, late: Response)
    returns (b: seq<Relay>, steps: seq<Step>)
    requires first != second
    ensures AnyRun(b, steps)
    ensures var t := b[|b| - 1];
      && id in t.finished && t.finished[id].result == Ok(late)
      && id in t.asked && t.asked[id] == second && (id, second, late) !in t.answers
  {
    var t := FirstGivesUp(id, first, late);
    t := Asks(t, id, second);
    Does(START, t, Deliver(id, late));
    t := Next(t, Deliver(id, late));
    Does(START, t, Receive(id));
    t := Next(t, Receive(id));
    b, steps :| PathTo(Rel(), b, steps, START, t);
    assert forall i: nat :: i < |steps| ==> Rel()(b[i], steps[i], b[i + 1]);
  }
}
