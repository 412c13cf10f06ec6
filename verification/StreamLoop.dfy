// session.go: the loop that keeps a stream open, and its retry, renewal and give-up rules.
module StreamLoop {
  import opened Common

  const MAX_FLAPS := 5
  const MAX_OPEN_ERRORS := 5
  const MAX_RENEWALS := 3

  // How one iteration of the loop ends.
  datatype Outcome =
    | OpenError // the stream could not be opened
    | NotFound  // the exit answered 404
    | Flap      // it opened and died within a second
    | Lived     // it opened and lived
    | Shut      // a close is noticed at the loop head, in a pause or while handing on a chunk
    | Aborted(opening: bool) // a close aborts the open in progress, or a stream within its first second

  datatype Status = Running | Failed | Gone | Closed

  // reports: how often the dialer was told that the path is failing.
  datatype Loop = Loop(openErrors: nat, flaps: nat, renewals: nat, reports: nat, status: Status)

  const START := Loop(0, 0, 0, 0, Running)

  // Five in a row: renew while the budget lasts, else give up; either way one report.
  function Exhausted(limit: nat, s: Loop): (r: Loop) {
    if s.renewals < limit then Loop(0, 0, s.renewals + 1, s.reports + 1, Running)
    else s.(reports := s.reports + 1, status := Failed)
  }

  // An open error or a flap, counted.
  function Counted(limit: nat, s: Loop, opening: bool): (r: Loop) {
    var t := if opening then s.(openErrors := s.openErrors + 1, flaps := 0)
             else s.(openErrors := 0, flaps := s.flaps + 1);
    if t.openErrors >= MAX_OPEN_ERRORS || t.flaps >= MAX_FLAPS then Exhausted(limit, t) else t
  }

  function Turn(limit: nat, s: Loop, e: Outcome): (r: Loop) {
    if !s.status.Running? then s
    else match e
      case Shut => s.(status := Closed)
      case NotFound => s.(status := Gone)
      case OpenError => Counted(limit, s, true)
      case Flap => Counted(limit, s, false)
      case Lived => s.(openErrors := 0, flaps := 0)
      // The cancelled request fails like any other; the close is noticed only after counting.
      case Aborted(opening) =>
        var t := Counted(limit, s, opening);
        if t.status.Running? then t.(status := Closed) else t
  }

  // The failure a close produces in the loop's own eyes.
  function Kind(e: Outcome): (k: Outcome)
    ensures !k.Aborted? && (!e.Aborted? ==> k == e)
  {
    match e
    case Aborted(opening) => if opening then OpenError else Flap
    case _ => e
  }

  function After(limit: nat, es: seq<Outcome>): (r: Loop) {
    if es == [] then START else Turn(limit, After(limit, es[..|es| - 1]), es[|es| - 1])
  }

  // The loop itself, over the outcomes it meets; limit is 0 without a renewal callback.
  method Run(limit: nat, es: seq<Outcome>) returns (r: Loop)
    ensures r == After(limit, es)
  {
    var openErrors, flaps, renewals, reports := 0, 0, 0, 0;
    for i := 0 to |es|
      invariant After(limit, es[..i]) == Loop(openErrors, flaps, renewals, reports, Running)
    {
      var e := es[i];
      HeadBounds(limit, es[..i]);
      AfterOne(limit, es, i);
      if e.Shut? {
        Frozen(limit, es, i + 1);
        return Loop(openErrors, flaps, renewals, reports, Closed);
      }
      if e.NotFound? {
        Frozen(limit, es, i + 1);
        return Loop(openErrors, flaps, renewals, reports, Gone);
      }
      if Kind(e).OpenError? {
        openErrors := openErrors + 1;
        flaps := 0;
      } else {
        openErrors := 0;
        flaps := if Kind(e).Flap? then flaps + 1 else 0;
      }
      if openErrors >= MAX_OPEN_ERRORS || flaps >= MAX_FLAPS {
        reports := reports + 1;
        if renewals < limit {
          openErrors, flaps, renewals := 0, 0, renewals + 1;
        } else {
          Frozen(limit, es, i + 1);
          return Loop(openErrors, flaps, renewals, reports, Failed);
        }
      }
      if e.Aborted? {
        Frozen(limit, es, i + 1);
        return Loop(openErrors, flaps, renewals, reports, Closed);
      }
    }
    assert es[..|es|] == es;
    r := Loop(openErrors, flaps, renewals, reports, Running);
  }

  lemma AfterOne(limit: nat, es: seq<Outcome>, i: nat)
    requires i < |es|
    ensures After(limit, es[..i + 1]) == Turn(limit, After(limit, es[..i]), es[i])
  {
    assert es[..i + 1][..i] == es[..i];
  }

  lemma {:induction false} Frozen(limit: nat, es: seq<Outcome>, n: nat)
    requires n <= |es| && !After(limit, es[..n]).status.Running?
    ensures After(limit, es) == After(limit, es[..n])
  {
    if n < |es| {
      var front := es[..|es| - 1];
      assert front[..n] == es[..n];
      Frozen(limit, front, n);
    } else {
      assert es[..n] == es;
    }
  }

  // At the loop head both counters are below five and never both positive.
  lemma {:induction false} HeadBounds(limit: nat, es: seq<Outcome>)
    ensures var s := After(limit, es);
      s.status.Running? ==> s.openErrors < 5 && s.flaps < 5 && (s.openErrors == 0 || s.flaps == 0)
  {
    if es != [] {
      HeadBounds(limit, es[..|es| - 1]);
    }
  }

  // ---- A description that mentions no counters ----

  predicate Failing(e: Outcome) {
    e.OpenError? || e.Flap?
  }

  // How many failures of one kind the outcomes end with, uninterrupted.
  function Streak(es: seq<Outcome>): (n: nat)
    ensures n <= |es|
    ensures forall i :: |es| - n <= i < |es| ==> es[i] == es[|es| - 1] && Failing(es[i])
  {
    if es == [] || !Failing(es[|es| - 1]) then 0
    else if |es| >= 2 && es[|es| - 2] == es[|es| - 1] then Streak(es[..|es| - 1]) + 1
    else 1
  }

  // How often a streak has reached a multiple of five.
  function Bursts(es: seq<Outcome>): (n: nat) {
    if es == [] then 0 else Bursts(es[..|es| - 1]) + (if Streak(es) > 0 && Streak(es) % 5 == 0 then 1 else 0)
  }

  ghost predicate Uninterrupted(es: seq<Outcome>) {
    forall i :: 0 <= i < |es| ==> !es[i].Shut? && !es[i].NotFound? && !es[i].Aborted?
  }

  // The counters as a function of the outcomes.
  ghost predicate Counts(s: Loop, es: seq<Outcome>) {
    && s.openErrors == (if es != [] && es[|es| - 1].OpenError? then Streak(es) % 5 else 0)
    && s.flaps == (if es != [] && es[|es| - 1].Flap? then Streak(es) % 5 else 0)
  }

  ghost predicate Agrees(limit: nat, es: seq<Outcome>) {
    var s := After(limit, es);
    && s.reports == Min(Bursts(es), limit + 1)
    && s.renewals == Min(Bursts(es), limit)
    && (if Bursts(es) > limit then s.status.Failed? else s.status.Running? && Counts(s, es))
  }

  lemma StreakGrows(front: seq<Outcome>, e: Outcome)
    requires Failing(e)
    ensures Streak(front + [e]) == if front != [] && front[|front| - 1] == e then Streak(front) + 1 else 1
    ensures Bursts(front + [e]) == Bursts(front) + (if Streak(front + [e]) % 5 == 0 then 1 else 0)
  {
    var es := front + [e];
    assert es[..|front|] == front;
    assert front != [] ==> es[|es| - 2] == front[|front| - 1];
  }

  lemma FailureAgrees(limit: nat, front: seq<Outcome>, e: Outcome)
    requires Failing(e) && Agrees(limit, front)
    ensures Agrees(limit, front + [e])
  {
    assert (front + [e])[..|front|] == front;
    StreakGrows(front, e);
    var k := if front != [] && front[|front| - 1] == e then Streak(front) else 0;
    assert (k + 1) % 5 == if k % 5 == 4 then 0 else k % 5 + 1;
  }

  // Without a close or a 404, the loop fails exactly when more bursts of five uninterrupted
  // same-kind failures have occurred than the renewal budget covers; every burst up to then
  // is one report to the dialer and, within the budget, one renewal.
  lemma {:induction false} FailsByBursts(limit: nat, es: seq<Outcome>)
    requires Uninterrupted(es)
    ensures Agrees(limit, es)
  {
    if es != [] {
      var front, e := es[..|es| - 1], es[|es| - 1];
      FailsByBursts(limit, front);
      assert es == front + [e];
      if Failing(e) {
        FailureAgrees(limit, front, e);
      }
    }
  }

  lemma AbortedCountsAsKind(limit: nat, es: seq<Outcome>, e: Outcome)
    ensures var t, u := After(limit, es + [e]), After(limit, es + [Kind(e)]);
      t.reports == u.reports && t.renewals == u.renewals
  {
    assert (es + [e])[..|es|] == es && (es + [Kind(e)])[..|es|] == es;
  }

  // A renewal or a failing give-up only ever follows five uninterrupted failures of one kind,
  // the last of which may be the work of a close.
  lemma {:induction false} OnlyAfterFive(limit: nat, es: seq<Outcome>, e: Outcome)
    requires var s, t := After(limit, es), After(limit, es + [e]); t.reports > s.reports
    ensures |es| >= 4 && Failing(Kind(e)) && forall i :: |es| - 4 <= i < |es| ==> es[i] == Kind(e)
  {
    AbortedCountsAsKind(limit, es, e);
    var all := es + [Kind(e)];
    assert all[..|es|] == es && (es + [e])[..|es|] == es;
    RunningIsUninterrupted(limit, es);
    FailsByBursts(limit, es);
    FailsByBursts(limit, all);
    assert Streak(all) >= 5;
    forall i | |es| - 4 <= i < |es|
      ensures es[i] == Kind(e)
    {
      assert all[i] == all[|all| - 1];
    }
  }

  lemma {:induction false} RunningIsUninterrupted(limit: nat, es: seq<Outcome>)
    requires After(limit, es).status.Running?
    ensures Uninterrupted(es)
  {
    if es != [] {
      RunningIsUninterrupted(limit, es[..|es| - 1]);
    }
  }

  // At most one report beyond the renewals, whatever happens; a 404 or a close that is merely
  // noticed adds none.
  lemma {:induction false} ReportsBounded(limit: nat, es: seq<Outcome>)
    ensures var s := After(limit, es);
      && s.renewals <= limit
      && s.reports == s.renewals + (if s.status.Failed? then 1 else 0) <= limit + 1
      && After(limit, es + [NotFound]).reports == s.reports == After(limit, es + [Shut]).reports
  {
    assert (es + [NotFound])[..|es|] == es && (es + [Shut])[..|es|] == es;
    if es != [] {
      ReportsBounded(limit, es[..|es| - 1]);
    }
  }

  // A close that aborts an open or a young stream adds a report exactly when it is the fifth of
  // a burst: four failures of the kind it looks like, modulo whole bursts, came just before it.
  // Below the renewal limit the loop then ends as closed, at the limit as failed.
  lemma CloseReportsExactlyWhen(limit: nat, es: seq<Outcome>, opening: bool)
    requires Uninterrupted(es) && Bursts(es) <= limit
    ensures var e := Aborted(opening);
      var s, t := After(limit, es), After(limit, es + [e]);
      var fifth := es != [] && es[|es| - 1] == Kind(e) && Streak(es) % 5 == 4;
      && t.reports == s.reports + (if fifth then 1 else 0)
      && t.status == if fifth && Bursts(es) == limit then Failed else Closed
  {
    var e := Aborted(opening);
    assert (es + [e])[..|es|] == es;
    FailsByBursts(limit, es);
    HeadBounds(limit, es);
    var s := After(limit, es);
    assert (if opening then s.openErrors else s.flaps) ==
      if es != [] && es[|es| - 1] == Kind(e) then Streak(es) % 5 else 0;
  }

  // A running loop that meets a 404 is gone, one that notices a close is closed; nothing else
  // about it changes, and once it has stopped nothing changes any more.
  lemma StopsAsNoticed(limit: nat, es: seq<Outcome>, more: seq<Outcome>)
    requires Uninterrupted(es) && Bursts(es) <= limit
    ensures var s := After(limit, es);
      && s.status == Running
      && After(limit, es + [NotFound]) == s.(status := Gone) && After(limit, es + [Shut]) == s.(status := Closed)
      && After(limit, es + [NotFound] + more) == s.(status := Gone)
      && After(limit, es + [Shut] + more) == s.(status := Closed)
  {
    FailsByBursts(limit, es);
    StoppedStays(limit, es, NotFound, more);
    StoppedStays(limit, es, Shut, more);
  }

  lemma StoppedStays(limit: nat, es: seq<Outcome>, e: Outcome, more: seq<Outcome>)
    requires After(limit, es).status.Running? && (e.NotFound? || e.Shut?)
    ensures After(limit, es + [e]) == Turn(limit, After(limit, es), e)
    ensures After(limit, es + [e] + more) == After(limit, es + [e])
  {
    var all := es + [e] + more;
    assert (es + [e])[..|es|] == es && all[..|es| + 1] == es + [e];
    Frozen(limit, all, |es| + 1);
  }

  function Repeat(e: Outcome, n: nat): (es: seq<Outcome>)
    ensures |es| == n
  {
    seq(n, _ => e)
  }

  lemma {:induction false} BurstsOfRepeat(e: Outcome, n: nat)
    requires Failing(e)
    ensures Streak(Repeat(e, n)) == n && Bursts(Repeat(e, n)) == n / 5
  {
    if n > 0 {
      BurstsOfRepeat(e, n - 1);
      assert Repeat(e, n)[..n - 1] == Repeat(e, n - 1);
    }
  }

  // A fresh connection that only ever fails in one way gives up at exactly the twentieth
  // failure, having made four reports.
  lemma GivesUpAtTwenty(e: Outcome, n: nat)
    requires Failing(e)
    ensures MAX_RENEWALS == 3 && After(MAX_RENEWALS, Repeat(e, n)).status == if n < 20 then Running else Failed
    ensures n >= 20 ==> After(MAX_RENEWALS, Repeat(e, n)).reports == 4
  {
    BurstsOfRepeat(e, n);
    FailsByBursts(MAX_RENEWALS, Repeat(e, n));
  }

  // The smallest such run: four failures of one kind and a close that cuts off the fifth.
  lemma CloseAfterFourReports(limit: nat, opening: bool)
    ensures var es := Repeat(Kind(Aborted(opening)), 4);
      After(limit, es).reports == 0 && After(limit, es + [Aborted(opening)]).reports == 1
  {
    var e := Kind(Aborted(opening));
    BurstsOfRepeat(e, 4);
    FailsByBursts(limit, Repeat(e, 4));
    CloseReportsExactlyWhen(limit, Repeat(e, 4), opening);
  }

  // Termination is not guaranteed: failures of alternating kinds, however many, are retried
  // for ever without a single report.
  lemma {:induction false} AlternatingNeverGivesUp(limit: nat, es: seq<Outcome>)
    requires forall i :: 0 <= i < |es| ==> es[i] == if i % 2 == 0 then OpenError else Flap
    ensures Streak(es) == Min(1, |es|) && Bursts(es) == 0
    ensures After(limit, es).status.Running? && After(limit, es).reports == 0
  {
    if es != [] {
      AlternatingNeverGivesUp(limit, es[..|es| - 1]);
    }
    FailsByBursts(limit, es);
  }
}
