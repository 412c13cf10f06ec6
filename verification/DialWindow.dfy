// tunnel.go: the rolling window of dial outcomes and its two edge-triggered hooks.
module DialWindow {
  import opened Common
  import opened Sorting

  const SECOND := 1_000_000_000
  const WIN_SIZE := 30 * SECOND
  const MIN_SAMPLES := 3
  const MIN_SPAN := 10 * SECOND

  datatype Outcome = Outcome(at: int, success: bool)

  datatype Tier = Soft | Hard

  function Threshold(tier: Tier): (r: real) {
    if tier.Soft? then 0.5 else 0.8
  }

  datatype Window = Window(kept: seq<Outcome>, soft: bool, hard: bool)

  const EMPTY := Window([], false, false)

  // Drops the outdated outcomes at the front.
  function Prune(kept: seq<Outcome>, cutoff: int): (r: seq<Outcome>) {
    if kept != [] && kept[0].at < cutoff then Prune(kept[1..], cutoff) else kept
  }

  function Fails(os: seq<Outcome>): (n: nat)
    ensures n <= |os|
  {
    if os == [] then 0 else Fails(os[..|os| - 1]) + (if os[|os| - 1].success then 0 else 1)
  }

  // Enough samples over a long enough span to judge.
  predicate Judged(os: seq<Outcome>, now: int) {
    |os| >= MIN_SAMPLES && now - os[0].at >= MIN_SPAN
  }

  function Ratio(os: seq<Outcome>): (r: real)
    requires os != []
    ensures 0.0 <= r <= 1.0
  {
    Fails(os) as real / |os| as real
  }

  function Flag(w: Window, tier: Tier): (b: bool) {
    if tier.Soft? then w.soft else w.hard
  }

  // A flag follows the ratio whenever there is enough to judge.
  function NewFlag(was: bool, os: seq<Outcome>, now: int, tier: Tier): (b: bool) {
    if Judged(os, now) then Ratio(os) >= Threshold(tier) else was
  }

  function Recorded(w: Window, success: bool, now: int): (r: Window) {
    var os := Prune(w.kept, now - WIN_SIZE) + [Outcome(now, success)];
    Window(os, NewFlag(w.soft, os, now, Soft), NewFlag(w.hard, os, now, Hard))
  }

  // A hook fires on the rising edge of its flag.
  predicate Fires(w: Window, success: bool, now: int, tier: Tier) {
    !Flag(w, tier) && Flag(Recorded(w, success, now), tier)
  }

  function Asked(w: Window, now: int): (r: Window) {
    w.(kept := Prune(w.kept, now - WIN_SIZE))
  }

  function RatioOf(os: seq<Outcome>, now: int): (r: real) {
    if Judged(os, now) then Ratio(os) else 0.0
  }

  class Dialer {
    var dialWindow: seq<Outcome>
    var firstWinFired: bool
    var dataWinFired: bool

    function Value(): (w: Window)
      reads this
    {
      Window(dialWindow, firstWinFired, dataWinFired)
    }

    constructor ()
      ensures Value() == EMPTY
    {
      dialWindow, firstWinFired, dataWinFired := [], false, false;
    }

    method PruneWindow(cutoff: int)
      modifies `dialWindow
      ensures dialWindow == Prune(old(dialWindow), cutoff)
    {
      var j := 0;
      while j < |dialWindow| && dialWindow[j].at < cutoff
        invariant 0 <= j <= |dialWindow|
        invariant Prune(dialWindow, cutoff) == Prune(dialWindow[j..], cutoff)
      {
        j := j + 1;
      }
      if j > 0 {
        dialWindow := dialWindow[j..];
      }
    }

    method CountFails() returns (fails: nat)
      ensures fails == Fails(dialWindow)
    {
      fails := 0;
      for i := 0 to |dialWindow|
        invariant fails == Fails(dialWindow[..i])
      {
        assert dialWindow[..i + 1][..i] == dialWindow[..i];
        if !dialWindow[i].success {
          fails := fails + 1;
        }
      }
      assert dialWindow[..|dialWindow|] == dialWindow;
    }

    method RecordDialOutcome(success: bool, now: int) returns (fireFirst: bool, fireData: bool)
      modifies this
      ensures Value() == Recorded(old(Value()), success, now)
      ensures fireFirst == Fires(old(Value()), success, now, Soft)
      ensures fireData == Fires(old(Value()), success, now, Hard)
    {
      PruneWindow(now - WIN_SIZE);
      dialWindow := dialWindow + [Outcome(now, success)];
      ghost var os := dialWindow;
      var total := |dialWindow|;
      var fails := CountFails();
      fireFirst, fireData := false, false;
      var span := now - dialWindow[0].at;
      if total >= MIN_SAMPLES && span >= MIN_SPAN {
        assert Judged(os, now);
        var ratio := fails as real / total as real;
        assert ratio == Ratio(os);
        if ratio >= 0.5 {
          if !firstWinFired {
            firstWinFired := true;
            fireFirst := true;
          }
        } else {
          firstWinFired := false;
        }
        if ratio >= 0.8 {
          if !dataWinFired {
            dataWinFired := true;
            fireData := true;
          }
        } else {
          dataWinFired := false;
        }
      }
    }

    method FailRatio(now: int) returns (r: real)
      modifies `dialWindow
      ensures Value() == Asked(old(Value()), now)
      ensures r == RatioOf(dialWindow, now)
    {
      PruneWindow(now - WIN_SIZE);
      if |dialWindow| < MIN_SAMPLES {
        return 0.0;
      }
      if now - dialWindow[0].at < MIN_SPAN {
        return 0.0;
      }
      var fails := CountFails();
      r := fails as real / |dialWindow| as real;
    }
  }

  // ---- Counting ----

  // The positions of the outcomes that are not successes.
  function Failed(os: seq<Outcome>): (r: set<int>) {
    Positions(os, (o: Outcome) => !o.success)
  }

  lemma {:induction false} FailsAreCounted(os: seq<Outcome>)
    ensures Fails(os) == |Failed(os)|
  {
    if os != [] {
      var n := |os| - 1;
      assert os == os[..n] + [os[n]];
      FailsAreCounted(os[..n]);
      PositionsSnoc(os[..n], os[n], (o: Outcome) => !o.success);
    }
  }

  // At least three outcomes, the first of them ten seconds ago.
  predicate Enough(os: seq<Outcome>, now: int) {
    |os| >= 3 && now - os[0].at >= 10_000_000_000
  }

  // At least half of them failed, for the soft hook; four fifths, for the hard one.
  predicate ShareFailed(os: seq<Outcome>, tier: Tier) {
    if tier.Soft? then 2 * |Failed(os)| >= |os| else 5 * |Failed(os)| >= 4 * |os|
  }

  lemma RatioIsShare(os: seq<Outcome>, tier: Tier)
    requires os != []
    ensures Ratio(os) * |os| as real == |Failed(os)| as real
    ensures Ratio(os) >= Threshold(tier) <==> ShareFailed(os, tier)
  {
    FailsAreCounted(os);
    var f, n := |Failed(os)| as real, |os| as real;
    ShareOf(f, n, 0.5);
    ShareOf(f, n, 0.8);
  }

  lemma ShareOf(f: real, n: real, share: real)
    requires n > 0.0
    ensures f / n * n == f && (f / n >= share <==> f >= share * n)
  {
    var q := f / n;
    assert q * n == f;
    if q >= share {
      assert (q - share) * n >= 0.0;
    } else {
      assert (share - q) * n > 0.0;
    }
  }

  lemma RatioOfShare(os: seq<Outcome>, now: int)
    ensures if Enough(os, now) then RatioOf(os, now) * |os| as real == |Failed(os)| as real else RatioOf(os, now) == 0.0
  {
    if Enough(os, now) {
      RatioIsShare(os, Soft);
    }
  }

  // ---- Histories ----

  datatype Call = Record(success: bool, now: int) | Ask(now: int)

  function Did(w: Window, c: Call): (r: Window) {
    match c
    case Record(success, now) => Recorded(w, success, now)
    case Ask(now) => Asked(w, now)
  }

  function After(cs: seq<Call>): (w: Window) {
    if cs == [] then EMPTY else Did(After(cs[..|cs| - 1]), cs[|cs| - 1])
  }

  // Every outcome ever recorded.
  function History(cs: seq<Call>): (h: seq<Outcome>) {
    if cs == [] then []
    else
      var c := cs[|cs| - 1];
      History(cs[..|cs| - 1]) + (if c.Record? then [Outcome(c.now, c.success)] else [])
  }

  // The clock does not run backwards.
  ghost predicate Ordered(cs: seq<Call>) {
    forall i, j :: 0 <= i < j < |cs| ==> cs[i].now <= cs[j].now
  }

  // The outcomes not older than the cutoff.
  function Recent(os: seq<Outcome>, cutoff: int): (r: seq<Outcome>) {
    if os == [] then []
    else Recent(os[..|os| - 1], cutoff) + (if os[|os| - 1].at >= cutoff then [os[|os| - 1]] else [])
  }

  ghost predicate InTimeOrder(os: seq<Outcome>) {
    forall i, j :: 0 <= i < j < |os| ==> os[i].at <= os[j].at
  }

  lemma {:induction false} RecentAll(os: seq<Outcome>, cutoff: int)
    requires forall i :: 0 <= i < |os| ==> os[i].at >= cutoff
    ensures Recent(os, cutoff) == os
  {
    if os != [] {
      RecentAll(os[..|os| - 1], cutoff);
    }
  }

  lemma {:induction false} RecentDropsFirst(os: seq<Outcome>, cutoff: int)
    requires os != [] && os[0].at < cutoff
    ensures Recent(os, cutoff) == Recent(os[1..], cutoff)
  {
    if |os| > 1 {
      RecentDropsFirst(os[..|os| - 1], cutoff);
      assert os[..|os| - 1][1..] == os[1..][..|os[1..]| - 1];
    } else {
      assert os[1..] == [] && os[..0] == [];
    }
  }

  // On outcomes in time order, dropping from the front is filtering.
  lemma {:induction false} PruneIsRecent(os: seq<Outcome>, cutoff: int)
    requires InTimeOrder(os)
    ensures Prune(os, cutoff) == Recent(os, cutoff)
  {
    if os != [] && os[0].at < cutoff {
      PruneIsRecent(os[1..], cutoff);
      RecentDropsFirst(os, cutoff);
    } else {
      RecentAll(os, cutoff);
    }
  }

  lemma {:induction false} RecentTwice(os: seq<Outcome>, early: int, late: int)
    requires early <= late
    ensures Recent(Recent(os, early), late) == Recent(os, late)
  {
    if os != [] {
      var front, o := os[..|os| - 1], os[|os| - 1];
      RecentTwice(front, early, late);
      if o.at >= early {
        RecentSnoc(Recent(front, early), o, late);
      } else {
        assert Recent(os, early) == Recent(front, early);
        assert Recent(os, late) == Recent(front, late);
      }
    }
  }

  lemma RecentSnoc(os: seq<Outcome>, o: Outcome, cutoff: int)
    ensures Recent(os + [o], cutoff) == Recent(os, cutoff) + (if o.at >= cutoff then [o] else [])
  {
    assert (os + [o])[..|os|] == os;
  }

  // Filtering keeps the order, and nothing is kept that is later than everything given.
  lemma {:induction false} RecentInOrder(os: seq<Outcome>, cutoff: int, bound: int)
    requires InTimeOrder(os) && forall i :: 0 <= i < |os| ==> os[i].at <= bound
    ensures InTimeOrder(Recent(os, cutoff))
    ensures forall i :: 0 <= i < |Recent(os, cutoff)| ==> Recent(os, cutoff)[i].at <= bound
  {
    if os != [] {
      RecentInOrder(os[..|os| - 1], cutoff, os[|os| - 1].at);
    }
  }

  lemma {:induction false} HistoryInOrder(cs: seq<Call>)
    requires Ordered(cs)
    ensures InTimeOrder(History(cs))
    ensures forall i :: 0 <= i < |History(cs)| ==> cs != [] && History(cs)[i].at <= cs[|cs| - 1].now
  {
    if cs != [] {
      var front := cs[..|cs| - 1];
      HistoryInOrder(front);
      assert front != [] ==> front[|front| - 1].now <= cs[|cs| - 1].now;
    }
  }

  // The pruned window is the full history of the last thirty seconds, after any interleaving
  // of recordings and queries under a clock that does not run backwards.
  lemma {:induction false} WindowIsRecentHistory(cs: seq<Call>)
    requires Ordered(cs) && cs != []
    ensures After(cs).kept == Recent(History(cs), cs[|cs| - 1].now - 30_000_000_000)
  {
    var front, c := cs[..|cs| - 1], cs[|cs| - 1];
    var cutoff := c.now - WIN_SIZE;
    HistoryInOrder(front);
    var h := History(front);
    if front != [] {
      WindowIsRecentHistory(front);
      var last := front[|front| - 1].now;
      RecentInOrder(h, last - WIN_SIZE, last);
      PruneIsRecent(Recent(h, last - WIN_SIZE), cutoff);
      RecentTwice(h, last - WIN_SIZE, cutoff);
    }
    assert Prune(After(front).kept, cutoff) == Recent(h, cutoff);
    if c.Record? {
      RecentSnoc(h, Outcome(c.now, c.success), cutoff);
    } else {
      assert History(cs) == h;
    }
  }

  // So FailRatio answers as if it had scanned every outcome ever recorded: the failed share of the
  // last thirty seconds, zero when there is too little to judge.
  lemma FailRatioIsOfHistory(cs: seq<Call>, now: int)
    requires Ordered(cs + [Ask(now)])
    ensures var os, ratio := Recent(History(cs), now - 30_000_000_000), RatioOf(Asked(After(cs), now).kept, now);
      if Enough(os, now) then ratio * |os| as real == |Failed(os)| as real else ratio == 0.0
  {
    AskedIsRecent(cs, now);
    RatioOfShare(Asked(After(cs), now).kept, now);
  }

  lemma AskedIsRecent(cs: seq<Call>, now: int)
    requires Ordered(cs + [Ask(now)])
    ensures Asked(After(cs), now).kept == Recent(History(cs), now - 30_000_000_000)
  {
    WindowIsRecentHistory(cs + [Ask(now)]);
    AskLast(cs, now);
  }

  lemma AskLast(cs: seq<Call>, now: int)
    ensures After(cs + [Ask(now)]) == Asked(After(cs), now) && History(cs + [Ask(now)]) == History(cs)
  {
    assert (cs + [Ask(now)])[..|cs|] == cs;
  }

  // The hard flag is never up without the soft one.
  lemma {:induction false} HardImpliesSoft(cs: seq<Call>)
    ensures After(cs).hard ==> After(cs).soft
  {
    if cs != [] {
      HardImpliesSoft(cs[..|cs| - 1]);
    }
  }

  ghost predicate FiresAt(cs: seq<Call>, i: nat, tier: Tier) {
    i < |cs| && cs[i].Record? && Fires(After(cs[..i]), cs[i].success, cs[i].now, tier)
  }

  // A recording that found enough samples and a ratio below the tier's threshold.
  ghost predicate RecoveredAt(cs: seq<Call>, k: nat, tier: Tier) {
    && k < |cs| && cs[k].Record?
    && var os := After(cs[..k + 1]).kept; Enough(os, cs[k].now) && !ShareFailed(os, tier)
  }

  lemma AfterNext(cs: seq<Call>, i: nat)
    requires i < |cs|
    ensures After(cs[..i + 1]) == Did(After(cs[..i]), cs[i])
  {
    assert cs[..i + 1][..i] == cs[..i];
  }

  lemma {:induction false} FlagFallsOnRecovery(cs: seq<Call>, i: nat, j: nat, tier: Tier) returns (k: nat)
    requires i <= j <= |cs| && Flag(After(cs[..i]), tier) && !Flag(After(cs[..j]), tier)
    ensures i <= k < j && RecoveredAt(cs, k, tier)
    decreases j - i
  {
    AfterNext(cs, i);
    if After(cs[..i + 1]).kept != [] {
      RatioIsShare(After(cs[..i + 1]).kept, tier);
    }
    if Flag(After(cs[..i + 1]), tier) {
      k := FlagFallsOnRecovery(cs, i + 1, j, tier);
    } else {
      k := i;
    }
  }

  // Two firings of the same hook are separated by an evaluated recovery below its threshold.
  lemma FiringsAreSeparated(cs: seq<Call>, i: nat, j: nat, tier: Tier)
    requires i < j && FiresAt(cs, i, tier) && FiresAt(cs, j, tier)
    ensures exists k :: i < k < j && RecoveredAt(cs, k, tier)
  {
    AfterNext(cs, i);
    var k := FlagFallsOnRecovery(cs, i + 1, j, tier);
  }

  // What a recording looks back on, whether that is enough to judge, and whether the tier's share
  // of it failed: statements about the outcomes recorded, not about the dialer.
  function Seen(cs: seq<Call>, k: nat): (os: seq<Outcome>)
    requires k < |cs|
  {
    Recent(History(cs[..k + 1]), cs[k].now - 30_000_000_000)
  }

  ghost predicate JudgedAt(cs: seq<Call>, k: nat) {
    k < |cs| && cs[k].Record? && Enough(Seen(cs, k), cs[k].now)
  }

  ghost predicate HighAt(cs: seq<Call>, k: nat, tier: Tier) {
    JudgedAt(cs, k) && ShareFailed(Seen(cs, k), tier)
  }

  // The last of the first i calls that could judge found the tier's share failed.
  ghost predicate LastJudgedHigh(cs: seq<Call>, i: nat, tier: Tier) {
    LastIs((k: nat) => JudgedAt(cs, k), (k: nat) => HighAt(cs, k, tier), i)
  }

  // Of the numbers below i that satisfy p the last satisfies q, which implies p.
  ghost predicate LastIs(p: nat -> bool, q: nat -> bool, i: nat) {
    exists k: nat :: k < i && q(k) && NoneIn(p, k + 1, i)
  }

  ghost predicate NoneIn(p: nat -> bool, from: nat, to: nat) {
    forall m: nat :: from <= m < to ==> !p(m)
  }

  lemma LastNext(p: nat -> bool, q: nat -> bool, i: nat)
    requires q(i) ==> p(i)
    ensures LastIs(p, q, i + 1) <==> if p(i) then q(i) else LastIs(p, q, i)
  {
    assert NoneIn(p, i + 1, i + 1);
    if k: nat :| k < i + 1 && q(k) && NoneIn(p, k + 1, i + 1) {
      assert NoneIn(p, k + 1, i);
    }
    if k: nat :| k < i && q(k) && NoneIn(p, k + 1, i) {
      assert !p(i) ==> NoneIn(p, k + 1, i + 1);
    }
  }

  lemma {:induction false} FlagIsLastVerdict(cs: seq<Call>, i: nat, tier: Tier)
    requires Ordered(cs) && i <= |cs|
    ensures Flag(After(cs[..i]), tier) <==> LastJudgedHigh(cs, i, tier)
  {
    if i > 0 {
      var p := i - 1;
      FlagIsLastVerdict(cs, p, tier);
      LastNext((k: nat) => JudgedAt(cs, k), (k: nat) => HighAt(cs, k, tier), p);
      KeptIsRecent(cs, p);
      AfterNext(cs, p);
      if JudgedAt(cs, p) {
        RatioIsShare(Seen(cs, p), tier);
      }
    }
  }

  // A hook fires exactly on new evidence: at that moment the last thirty seconds hold at least
  // three outcomes spanning ten seconds of which at least the tier's share failed, and the last
  // earlier recording that could judge, if any, found less than that share.
  lemma FiresExactlyWhen(cs: seq<Call>, i: nat, tier: Tier)
    requires Ordered(cs) && i < |cs|
    ensures FiresAt(cs, i, tier) <==> HighAt(cs, i, tier) && !LastJudgedHigh(cs, i, tier)
  {
    FlagIsLastVerdict(cs, i, tier);
    KeptIsRecent(cs, i);
    AfterNext(cs, i);
    if cs[i].Record? {
      FlagRises(After(cs[..i]), cs[i].success, cs[i].now, tier);
      if JudgedAt(cs, i) {
        RatioIsShare(Seen(cs, i), tier);
      }
    }
  }

  lemma KeptIsRecent(cs: seq<Call>, i: nat)
    requires Ordered(cs) && i < |cs|
    ensures After(cs[..i + 1]).kept == Recent(History(cs[..i + 1]), cs[i].now - 30_000_000_000)
  {
    WindowIsRecentHistory(cs[..i + 1]);
  }

  lemma FlagRises(w: Window, success: bool, now: int, tier: Tier)
    ensures var os := Recorded(w, success, now).kept;
      Fires(w, success, now, tier) <==> !Flag(w, tier) && Judged(os, now) && Ratio(os) >= Threshold(tier)
  {
  }
}
