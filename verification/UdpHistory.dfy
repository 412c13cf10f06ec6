// udp_relay.go: what a RoundTrip returns, what is recorded and when the connection is given up, in
// terms of the steps taken alone.
module UdpHistory {
  import opened Common
  import opened UdpRelay

  // ---- One call, read off the steps ----

  // The request of the call in progress under id.
  function AskedBy(h: seq<Step>, id: nat): (r: Option<Request>) {
    if h == [] then None
    else
      var step := h[|h| - 1];
      if step.Begin? && step.id == id then Some(step.req) else AskedBy(h[..|h| - 1], id)
  }

  // Frames written for it.
  function Written(h: seq<Step>, id: nat): (n: nat) {
    if h == [] then 0
    else
      var step := h[|h| - 1];
      if step.Begin? && step.id == id then 0
      else Written(h[..|h| - 1], id) + (if step == Write(id, true) then 1 else 0)
  }

  // The response delivered to it first.
  function FirstReply(h: seq<Step>, id: nat): (r: Option<Response>) {
    if h == [] then None
    else
      var step, before := h[|h| - 1], FirstReply(h[..|h| - 1], id);
      if step.Begin? && step.id == id then None
      else if before.None? && step.Deliver? && step.id == id then Some(step.resp)
      else before
  }

  // How a step ends the call: a failed write, the first response, the third timeout, a close.
  function Ends(h: seq<Step>, step: Step, id: nat): (r: Option<Result>) {
    if step == Write(id, false) then Some(WriteError)
    else if step == Receive(id) && FirstReply(h, id).Some? then Some(Ok(FirstReply(h, id).value))
    else if step == Timeout(id) && Written(h, id) == 3 then Some(Exhausted)
    else if step == Abandon(id) then Some(Stopped)
    else None
  }

  ghost predicate Tracks(s: Relay, h: seq<Step>, id: nat) {
    id in s.pending ==>
      && AskedBy(h, id) == Some(s.pending[id].req) && s.pending[id].sent == Written(h, id)
      && s.pending[id].slot == FirstReply(h, id)
  }

  predicate Concerns(step: Step, id: nat) {
    match step
    case Ping(_) => false
    case Pong => false
    case Mark => false
    case CloseConn => false
    case _ => step.id == id
  }

  lemma KeepaliveLeavesCalls(s: Relay, step: Step)
    requires Can(s, step) && (step.Ping? || step.Pong? || step.Mark? || step.CloseConn? || step.Serve?)
    ensures Next(s, step).pending == s.pending
  {
  }

  lemma OtherCallsStay(s: Relay, step: Step, id: nat)
    requires Can(s, step) && !Concerns(step, id)
    ensures id in Next(s, step).pending <==> id in s.pending
    ensures id in s.pending ==> Next(s, step).pending[id] == s.pending[id]
  {
    if step.Ping? || step.Pong? || step.Mark? || step.CloseConn? || step.Serve? {
      KeepaliveLeavesCalls(s, step);
    }
  }

  // What a step does to a call that goes on.
  lemma CallGoesOn(s: Relay, step: Step, id: nat)
    requires Can(s, step) && id in Next(s, step).pending && !(step.Begin? && step.id == id)
    ensures id in s.pending
    ensures var c, d := s.pending[id], Next(s, step).pending[id];
      && d.req == c.req && d.sent == c.sent + (if step == Write(id, true) then 1 else 0)
      && d.slot == if c.slot.None? && step.Deliver? && step.id == id then Some(step.resp) else c.slot
  {
    if !Concerns(step, id) {
      OtherCallsStay(s, step, id);
    }
  }

  lemma CallBegins(s: Relay, step: Step, id: nat)
    requires Can(s, step) && step.Begin? && step.id == id
    ensures id in Next(s, step).pending && Next(s, step).pending[id] == Call(step.req, 0, false, None)
  {
  }

  lemma TracksOn(s: Relay, step: Step, h: seq<Step>, id: nat)
    requires Can(s, step) && Tracks(s, h, id)
    ensures Tracks(Next(s, step), h + [step], id)
  {
    assert (h + [step])[..|h|] == h;
    if step.Begin? && step.id == id {
      CallBegins(s, step, id);
    } else if id in Next(s, step).pending {
      CallGoesOn(s, step, id);
    }
  }

  lemma {:induction false} RunTracks(b: seq<Relay>, steps: seq<Step>, i: nat, id: nat)
    requires Run(b, steps) && i < |b|
    ensures Tracks(b[i], steps[..i], id)
  {
    if i > 0 {
      RunTracks(b, steps, i - 1, id);
      assert Follows(b, steps, i - 1);
      TracksOn(b[i - 1], steps[i - 1], steps[..i - 1], id);
      assert steps[..i] == steps[..i - 1] + [steps[i - 1]];
    }
  }

  // The same read off the call itself.
  function EndOf(c: Call, step: Step, id: nat): (r: Option<Result>) {
    if step == Write(id, false) then Some(WriteError)
    else if step == Receive(id) && c.slot.Some? then Some(Ok(c.slot.value))
    else if step == Timeout(id) && c.sent == 3 then Some(Exhausted)
    else if step == Abandon(id) then Some(Stopped)
    else None
  }

  lemma StaysUnlessEnded(s: Relay, step: Step, id: nat)
    requires Can(s, step) && id in s.pending && s.pending[id].sent <= RETRIES
    ensures id in Next(s, step).pending <==> EndOf(s.pending[id], step, id).None?
  {
    if !Concerns(step, id) {
      OtherCallsStay(s, step, id);
    }
  }

  lemma ReturnsHowEnded(s: Relay, step: Step, id: nat)
    requires Can(s, step) && id in s.pending && s.pending[id].sent <= RETRIES
    requires EndOf(s.pending[id], step, id).Some?
    ensures id in Next(s, step).finished
    ensures Next(s, step).finished[id] == Done(EndOf(s.pending[id], step, id).value, s.pending[id].sent)
  {
  }

  lemma CallEnds(s: Relay, step: Step, h: seq<Step>, id: nat)
    requires Can(s, step) && Tracks(s, h, id) && id in s.pending && s.pending[id].sent <= RETRIES
    ensures id in Next(s, step).pending <==> Ends(h, step, id).None?
    ensures Ends(h, step, id).Some? ==>
      id in Next(s, step).finished && Next(s, step).finished[id] == Done(Ends(h, step, id).value, Written(h, id))
  {
    assert Ends(h, step, id) == EndOf(s.pending[id], step, id);
    StaysUnlessEnded(s, step, id);
    if Ends(h, step, id).Some? {
      ReturnsHowEnded(s, step, id);
    }
  }

  // In every run a step ends a call exactly as its steps say: with the first response delivered
  // to it, after exactly three writes that all timed out, on a failed write, or on a close; and
  // that is what the call returns, with that many frames written.
  lemma EndsExactlyWhen(b: seq<Relay>, steps: seq<Step>, i: nat, id: nat)
    requires Run(b, steps) && i < |steps| && id in b[i].pending
    ensures var end := Ends(steps[..i], steps[i], id);
      && (id in b[i + 1].pending <==> end.None?)
      && (end.Some? ==> id in b[i + 1].finished && b[i + 1].finished[id] == Done(end.value, Written(steps[..i], id)))
  {
    RunTracks(b, steps, i, id);
    RunKeepsCalls(b, steps, i);
    assert CallOk(b[i], id, b[i].pending[id]);
    assert Follows(b, steps, i);
    CallEnds(b[i], steps[i], steps[..i], id);
  }

  // A call is cut off only after a close of the connection, and no ping is written then.
  lemma {:induction false} StoppedOnlyByClose(b: seq<Relay>, steps: seq<Step>, i: nat)
    requires Run(b, steps) && i < |b|
    ensures b[i].stopped <==> CloseConn in steps[..i]
    ensures i < |steps| && steps[i].Abandon? ==> CloseConn in steps[..i]
    ensures i < |steps| && steps[i].Ping? ==> CloseConn !in steps[..i]
  {
    if i > 0 {
      StoppedOnlyByClose(b, steps, i - 1);
      assert Follows(b, steps, i - 1);
      StoppedNext(b[i - 1], steps[i - 1]);
      assert steps[..i] == steps[..i - 1] + [steps[i - 1]];
    }
    if i < |steps| {
      assert Follows(b, steps, i);
    }
  }

  lemma StoppedNext(s: Relay, step: Step)
    requires Can(s, step)
    ensures Next(s, step).stopped == (s.stopped || step == CloseConn)
  {
  }

  // Whatever ids are drawn, a call never begins under the id of one in progress, so that none is
  // displaced: it stays until a step of its own ends it.
  lemma PendingIdsAreAvoided(b: seq<Relay>, steps: seq<Step>, i: nat, id: nat)
    requires AnyRun(b, steps) && i < |steps| && id in b[i].pending
    ensures !(steps[i].Begin? && steps[i].id == id)
    ensures !Concerns(steps[i], id) ==> id in b[i + 1].pending && b[i + 1].pending[id] == b[i].pending[id]
  {
    assert Goes(b[i], steps[i], b[i + 1]);
    if !Concerns(steps[i], id) {
      OtherCallsStay(b[i], steps[i], id);
    }
  }

  // ---- What is recorded ----

  // A success for a call that returns a response, a failure for one that does not and for a ping
  // that could not be written; nothing for a call that is cut off by a close.
  function Records(h: seq<Step>, step: Step): (r: seq<bool>) {
    match step
    case Ping(ok) => if ok then [] else [false]
    case Pong => []
    case Mark => []
    case CloseConn => []
    case _ =>
      var end := Ends(h, step, step.id);
      if end.None? || end == Some(Stopped) then [] else [end.value.Ok?]
  }

  function Recorded(h: seq<Step>): (r: seq<bool>) {
    if h == [] then [] else Recorded(h[..|h| - 1]) + Records(h[..|h| - 1], h[|h| - 1])
  }

  lemma RecordedNext(steps: seq<Step>, i: nat)
    requires i < |steps|
    ensures Recorded(steps[..i + 1]) == Recorded(steps[..i]) + Records(steps[..i], steps[i])
  {
    assert steps[..i + 1][..i] == steps[..i];
  }

  lemma OutcomesNext(s: Relay, step: Step, h: seq<Step>)
    requires Can(s, step) && (forall id: nat :: Tracks(s, h, id))
    requires step.Timeout? ==> s.pending[step.id].sent <= RETRIES
    ensures Next(s, step).outcomes == s.outcomes + Records(h, step)
  {
    if step.Write? || step.Receive? || step.Timeout? || step.Abandon? {
      assert Tracks(s, h, step.id);
    }
  }

  lemma {:induction false} OutcomesAreRecorded(b: seq<Relay>, steps: seq<Step>, i: nat)
    requires Run(b, steps) && i < |b|
    ensures b[i].outcomes == Recorded(steps[..i])
  {
    if i > 0 {
      var p := i - 1;
      OutcomesAreRecorded(b, steps, p);
      RecordedNext(steps, p);
      assert Follows(b, steps, p);
      forall id: nat
        ensures Tracks(b[p], steps[..p], id)
      {
        RunTracks(b, steps, p, id);
      }
      RunKeepsCalls(b, steps, p);
      if steps[p].Timeout? {
        assert CallOk(b[p], steps[p].id, b[p].pending[steps[p].id]);
      }
      OutcomesNext(b[p], steps[p], steps[..p]);
    }
  }

  // ---- The latch ----

  predicate FiveFailed(os: seq<bool>) {
    |os| >= 5 && !os[|os| - 1] && !os[|os| - 2] && !os[|os| - 3] && !os[|os| - 4] && !os[|os| - 5]
  }

  lemma {:induction false} FiveAreTrailing(os: seq<bool>, n: nat)
    requires n <= |os| && (forall k :: |os| - n <= k < |os| ==> !os[k])
    ensures Trailing(os) >= n
  {
    if n > 0 {
      FiveAreTrailing(os[..|os| - 1], n - 1);
    }
  }

  lemma {:induction false} TrailingFailed(os: seq<bool>)
    ensures Trailing(os) <= |os| && forall k :: |os| - Trailing(os) <= k < |os| ==> !os[k]
  {
    if os != [] && !os[|os| - 1] {
      TrailingFailed(os[..|os| - 1]);
    }
  }

  lemma FiveIsTrailing(os: seq<bool>)
    ensures FiveFailed(os) <==> Trailing(os) >= 5
  {
    TrailingFailed(os);
    if FiveFailed(os) {
      FiveAreTrailing(os, 5);
    }
  }

  // The connection is first found to have failed by exactly two kinds of steps: one that records
  // a failure as the fifth in a row, and the third ping without a pong between.  From then on it
  // stays found so, and only a caller that found it so marks it failed.
  lemma LatchExactlyWhen(b: seq<Relay>, steps: seq<Step>, i: nat)
    requires Run(b, steps) && i < |steps|
    ensures !Marked(b[i]) ==> (Marked(b[i + 1]) <==>
      || (Records(steps[..i], steps[i]) != [] && FiveFailed(Recorded(steps[..i + 1])))
      || (steps[i] == Ping(true) && Unanswered(steps[..i + 1]) == 3))
    ensures Marked(b[i]) ==> Marked(b[i + 1])
    ensures b[i + 1].failed <==> b[i].failed || (steps[i].Mark? && b[i].marks > 0)
  {
    FailsExactlyWhen(b, steps, i);
    OutcomesAreRecorded(b, steps, i);
    OutcomesAreRecorded(b, steps, i + 1);
    RecordedNext(steps, i);
    FiveIsTrailing(b[i].outcomes);
    FiveIsTrailing(b[i + 1].outcomes);
    RunKeepsLatch(b, steps, i);
    RecordsOne(steps[..i], steps[i]);
    if Records(steps[..i], steps[i]) != [] {
      EverFiveSnoc(b[i].outcomes, Records(steps[..i], steps[i])[0]);
    }
  }

  lemma RecordsOne(h: seq<Step>, step: Step)
    ensures Records(h, step) == [] || Records(h, step) == [true] || Records(h, step) == [false]
  {
  }

  // After a ping that could not be written, and after the third without a pong, no other follows.
  lemma {:induction false} KeepaliveStops(b: seq<Relay>, steps: seq<Step>, i: nat, j: nat)
    requires Run(b, steps) && i < j < |b| && steps[i].Ping?
    requires steps[i] == Ping(false) || Unanswered(steps[..i + 1]) == 3
    ensures b[j].pingDead && (j < |steps| ==> !steps[j].Ping?)
    decreases j - i
  {
    assert Follows(b, steps, j - 1);
    if j - 1 > i {
      KeepaliveStops(b, steps, i, j - 1);
    } else {
      MissedIsUnanswered(b, steps, i + 1);
    }
    PingDeadNext(b[j - 1], steps[j - 1]);
    if j < |steps| {
      assert Follows(b, steps, j);
    }
  }

  lemma PingDeadNext(s: Relay, step: Step)
    requires Can(s, step)
    ensures Next(s, step).pingDead ==
      (s.pingDead || (step.Ping? && (!step.ok || Next(s, step).missedPongs >= 3)))
  {
  }
}
