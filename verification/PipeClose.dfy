// session.go: what closing the connection does to pipelined writes.
module PipeClose {
  import opened Common
  import opened PipeWrite

  lemma ClosedNext(width: nat, s: Pipe, step: Step)
    requires Can(width, s, step)
    ensures Next(width, s, step).closed == (s.closed || step.Close?)
  {
  }

  lemma {:induction false} ClosedExactlyWhen(width: nat, b: seq<Pipe>, steps: seq<Step>, i: nat)
    requires Run(width, b, steps) && i < |b|
    ensures b[i].closed <==> Close in steps[..i]
  {
    if i > 0 {
      ClosedExactlyWhen(width, b, steps, i - 1);
      ClosedNext(width, b[i - 1], steps[i - 1]);
      assert steps[..i] == steps[..i - 1] + [steps[i - 1]];
    }
  }

  lemma TurnedAwayClosed(width: nat, s: Pipe, step: Step)
    requires Can(width, s, step) && step.Enter? && s.closed && Owned(s)
    ensures Refused(Next(width, s, step), step.id)
  {
  }

  // A Write whose closed check comes after the close is never launched.
  lemma {:induction false} NoWriteAfterClose(width: nat, b: seq<Pipe>, steps: seq<Step>, i: nat, j: nat)
    requires Run(width, b, steps) && i < |steps| && i < j < |b| && steps[i].Enter? && Close in steps[..i]
    ensures Refused(b[j], steps[i].id)
    decreases j - i
  {
    RunKeepsInv(width, b, steps, i);
    ClosedExactlyWhen(width, b, steps, i);
    if j - 1 > i {
      NoWriteAfterClose(width, b, steps, i, j - 1);
      RefusedStays(width, b[j - 1], steps[j - 1], steps[i].id);
    } else {
      TurnedAwayClosed(width, b[i], steps[i]);
    }
  }

  // The Writes past their closed check.
  function Entered(s: Pipe): (r: set<nat>) {
    set id | id in s.writers && !s.writers[id].stage.Begun?
  }

  // What may happen from s, where the connection is closed, to t.
  ghost predicate OnlyEntered(s: Pipe, t: Pipe) {
    && t.closed && Entered(t) <= Entered(s) && s.launched <= t.launched
    && (forall k :: |s.launched| <= k < |t.launched| && t.launched[k].author.Some? ==>
          t.launched[k].author.value in Entered(s))
  }

  lemma EnteredAfter(width: nat, s: Pipe, step: Step)
    requires Can(width, s, step) && s.closed && s.writers.Keys <= s.used
    ensures Entered(Next(width, s, step)) <= Entered(s)
  {
  }

  lemma OnlyEnteredStep(width: nat, s: Pipe, t: Pipe, step: Step)
    requires OnlyEntered(s, t) && Can(width, t, step) && t.writers.Keys <= t.used
    ensures OnlyEntered(s, Next(width, t, step))
  {
    ClosedNext(width, t, step);
    EnteredAfter(width, t, step);
    if step.Go? {
      assert step.id in Entered(t);
    }
  }

  // After the close, the Writes still launched are among those already past their closed check.
  lemma {:induction false} OnlyEnteredAfterClose(width: nat, b: seq<Pipe>, steps: seq<Step>, i: nat, j: nat)
    requires Run(width, b, steps) && i <= j < |b| && Close in steps[..i]
    ensures OnlyEntered(b[i], b[j])
    decreases j - i
  {
    ClosedExactlyWhen(width, b, steps, i);
    if i < j {
      OnlyEnteredAfterClose(width, b, steps, i, j - 1);
      RunKeepsInv(width, b, steps, j - 1);
      OnlyEnteredStep(width, b[i], b[j - 1], steps[j - 1]);
    }
  }

  // And such a Write can be launched: here is the run.
  lemma ClosingWriteIsAccepted(width: nat, payload: Bytes) returns (b: seq<Pipe>, steps: seq<Step>)
    requires width > 0
    ensures Run(width, b, steps) && |steps| > 0 && steps[|steps| - 1] == Go(0) && Close in steps[..|steps| - 1]
    ensures b[|b| - 1].accepted == [payload]
  {
    var t := ClearsWhileClosing(width, payload);
    b, steps := ReachedByRun(width, t);
    ClosedExactlyWhen(width, b, steps, |b| - 1);
    assert steps[..|b| - 1] == steps;
    OneMore(width, b, steps, Go(0));
    assert (steps + [Go(0)])[..|steps|] == steps;
    b, steps := b + [Next(width, t, Go(0))], steps + [Go(0)];
  }

  lemma ClearsWhileClosing(width: nat, payload: Bytes) returns (t: Pipe)
    requires width > 0
    ensures Reach(Rel(width), START, t)
    ensures t.closed && t.accepted == [] && 0 in t.writers && t.writers[0] == Writer(Cleared, payload)
  {
    t := Enters(width, START, 0, payload);
    Does(width, START, t, Close);
    t := Next(width, t, Close);
    Does(width, START, t, Acquire(0));
    t := Next(width, t, Acquire(0));
    Does(width, START, t, Recheck(0));
    t := Next(width, t, Recheck(0));
  }

  // ---- Nothing else turns a Write away ----

  ghost predicate LaunchedBy(s: Pipe, id: nat) {
    exists k :: 0 <= k < |s.launched| && s.launched[k].author == Some(id)
  }

  ghost predicate NoneRefused(s: Pipe) {
    s.err.None? && !s.closed ==> forall id :: id in s.used ==> id in s.writers || LaunchedBy(s, id)
  }

  lemma LaunchedByStays(width: nat, s: Pipe, step: Step, id: nat)
    requires Can(width, s, step) && LaunchedBy(s, id)
    ensures LaunchedBy(Next(width, s, step), id)
  {
    var k :| 0 <= k < |s.launched| && s.launched[k].author == Some(id);
    assert Next(width, s, step).launched[k] == s.launched[k];
  }

  lemma OneStays(width: nat, s: Pipe, step: Step, id: nat)
    requires Can(width, s, step) && id in s.writers && s.err.None? && !s.closed
    ensures id in Next(width, s, step).writers || LaunchedBy(Next(width, s, step), id)
  {
    if step == Go(id) {
      var t := Next(width, s, step);
      assert t.launched[|s.launched|].author == Some(id);
    }
  }

  lemma NoneRefusedNext(width: nat, s: Pipe, step: Step)
    requires Can(width, s, step) && NoneRefused(s)
    ensures NoneRefused(Next(width, s, step))
  {
    var t := Next(width, s, step);
    if t.err.None? && !t.closed {
      ErrorSticks(width, s, step);
      ClosedNext(width, s, step);
      forall id | id in t.used
        ensures id in t.writers || LaunchedBy(t, id)
      {
        if id in s.used && LaunchedBy(s, id) {
          LaunchedByStays(width, s, step, id);
        } else if id in s.used {
          OneStays(width, s, step, id);
        }
      }
    }
  }

  lemma ErrorSticks(width: nat, s: Pipe, step: Step)
    requires Can(width, s, step)
    ensures s.err.Some? ==> Next(width, s, step).err == s.err
  {
  }

  // While no error has been recorded and the connection is open, no Write is turned away: each is
  // in progress or launched.
  lemma {:induction false} OpenPipeRefusesNone(width: nat, b: seq<Pipe>, steps: seq<Step>, i: nat)
    requires Run(width, b, steps) && i < |b|
    ensures NoneRefused(b[i])
  {
    if i > 0 {
      OpenPipeRefusesNone(width, b, steps, i - 1);
      NoneRefusedNext(width, b[i - 1], steps[i - 1]);
    }
  }

  // ---- The farewell ----

  ghost predicate OneFarewell(s: Pipe) {
    forall k :: 0 <= k < |s.launched| && s.launched[k].author.None? ==>
      s.farewell == Some(s.launched[k].seqNo) && s.launched[k].payload == [] && s.closed
  }

  lemma OneFarewellNext(width: nat, s: Pipe, step: Step)
    requires Can(width, s, step) && OneFarewell(s)
    ensures OneFarewell(Next(width, s, step))
  {
  }

  // At most one request is nobody's Write, it is empty, and it comes after the close.
  lemma {:induction false} FarewellIsLastWord(width: nat, b: seq<Pipe>, steps: seq<Step>, i: nat)
    requires Run(width, b, steps) && i < |b|
    ensures OneFarewell(b[i])
    ensures forall k, l :: 0 <= k < l < |b[i].launched| ==>
      b[i].launched[k].author.Some? || b[i].launched[l].author.Some?
  {
    if i > 0 {
      FarewellIsLastWord(width, b, steps, i - 1);
      OneFarewellNext(width, b[i - 1], steps[i - 1]);
    }
    RunKeepsInv(width, b, steps, i);
  }
}
