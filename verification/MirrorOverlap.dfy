// What overlapping syncs still guarantee, and under which condition they are as good as syncs
// run one after another.
module MirrorOverlap {
  import opened Common
  import opened Manifests
  import opened FileSystem
  import opened Mirror
  import opened MirrorRace

  // ---- A sync that nobody disturbs ----

  // From its start to step hi, no step of another sync touches the places in f.
  ghost predicate Undisturbed(b: seq<State>, steps: seq<Step>, g: nat, lo: nat, hi: nat, f: iset<string>)
    requires hi <= |steps| < |b|
  {
    forall i: nat :: lo < i < hi && !By(steps[i], g) ==>
      FsOk(b[i].fs) && FsOk(b[i + 1].fs) && Untouched(f, b[i].fs, b[i + 1].fs)
  }

  lemma StepKeepsInStep(site: Site, jobs: seq<Job>, s: State, step: Step, g: nat, f: iset<string>, disk: Disk)
    requires Can(jobs, s, step) && g < |s.syncs| && Covers(site, jobs[g], f)
    requires InStep(site, jobs[g], f, disk, s.fs, s.syncs[g])
    requires By(step, g) || Untouched(f, s.fs, Next(site, jobs, s, step).fs)
    ensures var t := Next(site, jobs, s, step);
      g < |t.syncs| && InStep(site, jobs[g], f, disk, t.fs, t.syncs[g])
  {
    match step
    case Accept =>
    case Delete(h, p) =>
      if h == g {
        DeleteInStep(site, jobs[g], f, disk, s.fs, s.syncs[g], p);
      } else {
        UntouchedInStep(site, jobs[g], f, disk, s.fs, Next(site, jobs, s, step).fs, s.syncs[g]);
      }
    case Act(h) =>
      if h == g {
        ActInStep(site, jobs[g], f, disk, s.fs, s.syncs[g], Superseded(s, g));
      } else {
        UntouchedInStep(site, jobs[g], f, disk, s.fs, Next(site, jobs, s, step).fs, s.syncs[g]);
      }
  }

  ghost predicate InStepAt(
    site: Site, jobs: seq<Job>, b: seq<State>, g: nat, f: iset<string>, disk: Disk, i: nat)
  {
    && i < |b| && FsOk(b[i].fs) && g < |jobs| && g < |b[i].syncs|
    && InStep(site, jobs[g], f, disk, b[i].fs, b[i].syncs[g])
  }

  lemma UndisturbedStep(
    site: Site, jobs: seq<Job>, b: seq<State>, steps: seq<Step>, g: nat, lo: nat, i: nat, hi: nat,
    f: iset<string>, disk: Disk)
    requires Run(site, jobs, b, steps) && lo < i < hi < |b| && g < |jobs| && Covers(site, jobs[g], f)
    requires Undisturbed(b, steps, g, lo, hi, f) && InStepAt(site, jobs, b, g, f, disk, i)
    ensures InStepAt(site, jobs, b, g, f, disk, i + 1)
  {
    assert Follows(site, jobs, b, steps, i);
    StepKeepsInStep(site, jobs, b[i], steps[i], g, f, disk);
  }

  // Sync g reads the old list at step lo.
  ghost predicate StartsAt(b: seq<State>, steps: seq<Step>, g: nat, lo: nat) {
    lo < |steps| < |b| && steps[lo] == Act(g) && Loads(b[lo], steps[lo]) && FsOk(b[lo].fs)
  }

  predicate Loads(s: State, step: Step) {
    step.Act? && step.g < |s.syncs| && s.syncs[step.g].Loading?
  }

  lemma UndisturbedStart(
    site: Site, jobs: seq<Job>, b: seq<State>, steps: seq<Step>, g: nat, lo: nat, f: iset<string>)
    requires Run(site, jobs, b, steps) && StartsAt(b, steps, g, lo)
    ensures InStepAt(site, jobs, b, g, f, View(b[lo].fs), lo + 1)
  {
    assert Follows(site, jobs, b, steps, lo);
    LoadInStep(site, jobs[g], f, b[lo].fs);
  }

  // Whatever the other syncs do elsewhere, and however many of them there are: on the places in
  // f a sync that starts at step lo does exactly what Synced computes from the disk it found.
  lemma UndisturbedIsSequential(
    site: Site, jobs: seq<Job>, b: seq<State>, steps: seq<Step>, g: nat, lo: nat, hi: nat, f: iset<string>)
    requires Run(site, jobs, b, steps) && StartsAt(b, steps, g, lo) && lo < hi < |b|
    requires g < |jobs| && Covers(site, jobs[g], f) && Undisturbed(b, steps, g, lo, hi, f)
    ensures InStepAt(site, jobs, b, g, f, View(b[lo].fs), hi)
  {
    var disk := View(b[lo].fs);
    UndisturbedStart(site, jobs, b, steps, g, lo, f);
    forall i: nat | lo < i < hi && InStepAt(site, jobs, b, g, f, disk, i)
      ensures InStepAt(site, jobs, b, g, f, disk, i + 1)
    {
      UndisturbedStep(site, jobs, b, steps, g, lo, i, hi, f, disk);
    }
    Along((i: nat) => InStepAt(site, jobs, b, g, f, disk, i), lo + 1, hi);
  }

  // ---- Syncs that take turns on the disk ----

  // Past its last system call.
  predicate Quiet(pc: Pc) {
    pc.Indexing? || pc.Announcing? || pc.Ended?
  }

  // Past its last system call, or at a check between files that will see a newer generation.
  predicate Idle(job: Job, pc: Pc) {
    Quiet(pc) || (pc.AtFile? && pc.i <= |job.m.files| &&
      if pc.i < |job.m.files| then job.env.files(pc.i).superseded else job.env.superseded)
  }

  // The explicit condition: a sync reads the old list only when every earlier one has recorded
  // its state, has been aborted, or is between two files.
  ghost predicate InTurn(jobs: seq<Job>, b: seq<State>, steps: seq<Step>) {
    forall i: nat, h: nat :: i < |steps| && i < |b| && Loads(b[i], steps[i]) && h < steps[i].g ==>
      h < |jobs| && Idle(jobs[h], b[i].syncs[h])
  }

  ghost const EVERYWHERE := iset p: string | true

  // c syncs have read the old list, all but the last of them are idle, and
  // the last one is in step with Synced, on the whole disk that the ones before it left.
  ghost predicate Turns(site: Site, jobs: seq<Job>, disk: Disk, s: State, c: nat) {
    && FsOk(s.fs) && c <= |s.syncs| <= |jobs|
    && (forall h :: 0 <= h < c - 1 ==> Idle(jobs[h], s.syncs[h]))
    && (forall h :: c <= h < |s.syncs| ==> s.syncs[h].Loading?)
    && if c == 0 then View(s.fs) == disk
       else InStep(site, jobs[c - 1], EVERYWHERE, DiskAfter(site, disk, jobs[..c - 1]), s.fs, s.syncs[c - 1])
  }

  lemma SameEverywhere(a: Disk, b: Disk)
    requires Same(EVERYWHERE, a, b)
    ensures a == b
  {
    assert forall p: string :: p in EVERYWHERE;
  }

  lemma IdleIsSynced(site: Site, job: Job, disk: Disk, fs: Fs, pc: Pc)
    requires FsOk(fs) && Idle(job, pc) && InStep(site, job, EVERYWHERE, disk, fs, pc)
    ensures View(fs) == Synced(site, job.env, disk, job.raw, job.m).disk
  {
    if pc.AtFile? && pc.i < |job.m.files| {
      AbortedThere(site, job, disk, pc.i);
    }
    SameEverywhere(View(fs), Synced(site, job.env, disk, job.raw, job.m).disk);
  }

  // When the c-th sync is idle, the disk is what c syncs one after another leave.
  lemma IdleTurns(site: Site, jobs: seq<Job>, disk: Disk, s: State, c: nat)
    requires Turns(site, jobs, disk, s, c) && (c > 0 ==> Idle(jobs[c - 1], s.syncs[c - 1]))
    ensures View(s.fs) == DiskAfter(site, disk, jobs[..c])
  {
    if c > 0 {
      IdleIsSynced(site, jobs[c - 1], DiskAfter(site, disk, jobs[..c - 1]), s.fs, s.syncs[c - 1]);
      assert jobs[..c][..c - 1] == jobs[..c - 1];
    }
  }

  lemma OneMoreTurn(site: Site, jobs: seq<Job>, disk: Disk, s: State, c: nat)
    requires Turns(site, jobs, disk, s, c) && c < |s.syncs| && Can(jobs, s, Act(c))
    requires c > 0 ==> Idle(jobs[c - 1], s.syncs[c - 1])
    ensures Turns(site, jobs, disk, Next(site, jobs, s, Act(c)), c + 1)
  {
    IdleTurns(site, jobs, disk, s, c);
    LoadInStep(site, jobs[c], EVERYWHERE, s.fs);
  }

  lemma SameTurn(site: Site, jobs: seq<Job>, disk: Disk, s: State, step: Step, c: nat)
    requires Turns(site, jobs, disk, s, c) && c > 0 && Can(jobs, s, step) && By(step, c - 1)
    ensures Turns(site, jobs, disk, Next(site, jobs, s, step), c)
  {
    var was := DiskAfter(site, disk, jobs[..c - 1]);
    StepKeepsInStep(site, jobs, s, step, c - 1, EVERYWHERE, was);
  }

  // An idle sync ends without touching the disk.
  lemma IdleActs(site: Site, job: Job, fs: Fs, pc: Pc, superseded: bool)
    requires FsOk(fs) && Idle(job, pc) && Ready(job, fs, pc, superseded)
    ensures var (after, next) := Acted(site, job, fs, pc, superseded); after == fs && Idle(job, next)
  {
  }

  // An earlier sync announces or notices that it is superseded, or a new one is accepted.
  lemma IdleTurn(site: Site, jobs: seq<Job>, disk: Disk, s: State, step: Step, c: nat)
    requires Turns(site, jobs, disk, s, c) && Can(jobs, s, step)
    requires step.Accept? || step.g + 1 < c
    ensures Turns(site, jobs, disk, Next(site, jobs, s, step), c)
  {
    if !step.Accept? {
      assert Idle(jobs[step.g], s.syncs[step.g]);
      IdleActs(site, jobs[step.g], s.fs, s.syncs[step.g], Superseded(s, step.g));
    }
    assert Next(site, jobs, s, step).fs == s.fs;
  }

  lemma TurnStep(site: Site, jobs: seq<Job>, disk: Disk, s: State, step: Step, c: nat) returns (d: nat)
    requires Turns(site, jobs, disk, s, c) && Can(jobs, s, step)
    requires Loads(s, step) ==> forall h: nat :: h < step.g ==> Idle(jobs[h], s.syncs[h])
    ensures Turns(site, jobs, disk, Next(site, jobs, s, step), d)
  {
    d := c;
    if step.Accept? || step.g + 1 < c {
      IdleTurn(site, jobs, disk, s, step, c);
    } else if step.g + 1 == c {
      SameTurn(site, jobs, disk, s, step, c);
    } else {
      assert s.syncs[c].Loading?;
      assert step == Act(c);
      OneMoreTurn(site, jobs, disk, s, c);
      d := c + 1;
    }
  }

  ghost predicate TurnsAt(site: Site, jobs: seq<Job>, disk: Disk, b: seq<State>, i: nat) {
    i < |b| && exists c: nat :: Turns(site, jobs, disk, b[i], c)
  }

  lemma TurnAt(site: Site, jobs: seq<Job>, b: seq<State>, steps: seq<Step>, disk: Disk, i: nat)
    requires Run(site, jobs, b, steps) && InTurn(jobs, b, steps) && i < |steps| && TurnsAt(site, jobs, disk, b, i)
    ensures TurnsAt(site, jobs, disk, b, i + 1)
  {
    var c: nat :| Turns(site, jobs, disk, b[i], c);
    assert Follows(site, jobs, b, steps, i);
    var d := TurnStep(site, jobs, disk, b[i], steps[i], c);
  }

  lemma RunTakesTurns(site: Site, jobs: seq<Job>, b: seq<State>, steps: seq<Step>, i: nat)
    requires Run(site, jobs, b, steps) && InTurn(jobs, b, steps) && i < |b|
    ensures TurnsAt(site, jobs, View(b[0].fs), b, i)
  {
    var disk := View(b[0].fs);
    assert Turns(site, jobs, disk, b[0], 0);
    forall k: nat | k < i && TurnsAt(site, jobs, disk, b, k)
      ensures TurnsAt(site, jobs, disk, b, k + 1)
    {
      TurnAt(site, jobs, b, steps, disk, k);
    }
    Along((k: nat) => TurnsAt(site, jobs, disk, b, k), 0, i);
  }

  ghost predicate AllQuiet(s: State) {
    forall h :: 0 <= h < |s.syncs| ==> Quiet(s.syncs[h])
  }

  lemma AllTurnsTaken(site: Site, jobs: seq<Job>, disk: Disk, s: State, c: nat)
    requires Turns(site, jobs, disk, s, c) && AllQuiet(s)
    ensures c == |s.syncs|
  {
    var pc := if c < |s.syncs| then s.syncs[c] else Loading;
    assert pc.Loading?;
  }

  // Over every run whose syncs take turns: when none has a system call left, the disk is exactly
  // what the accepted syncs leave one after another, the aborted and the failed ones included.
  lemma InTurnIsSequential(site: Site, jobs: seq<Job>, b: seq<State>, steps: seq<Step>, i: nat)
    requires Run(site, jobs, b, steps) && InTurn(jobs, b, steps) && i < |b| && AllQuiet(b[i])
    ensures FsOk(b[i].fs) && |b[i].syncs| <= |jobs|
    ensures View(b[i].fs) == DiskAfter(site, View(b[0].fs), jobs[..|b[i].syncs|])
  {
    RunTakesTurns(site, jobs, b, steps, i);
    var c: nat :| Turns(site, jobs, View(b[0].fs), b[i], c);
    AllTurnsTaken(site, jobs, View(b[0].fs), b[i], c);
    IdleTurns(site, jobs, View(b[0].fs), b[i], c);
  }

  // So every run of clean syncs that take turns, from an empty directory, ends with exactly the
  // last manifest's files on disk, each verified chunk by chunk.
  lemma InTurnRunMirrors(site: Site, jobs: seq<Job>, b: seq<State>, steps: seq<Step>, i: nat)
    requires Run(site, jobs, b, steps) && InTurn(jobs, b, steps) && i < |b| && AllQuiet(b[i])
    requires View(b[0].fs) == map[] && |b[i].syncs| == |jobs| && CleanRun(site, map[], jobs)
    ensures FsOk(b[i].fs) && Mirrors(site, View(b[i].fs))
    ensures Persisted(site, View(b[i].fs)) == if jobs == [] then None else Some(jobs[|jobs| - 1].m)
  {
    InTurnIsSequential(site, jobs, b, steps, i);
    assert jobs[..|jobs|] == jobs;
    CleanRunMirrors(site, jobs);
  }

  // ---- How far a superseded sync can still go ----

  // Changes of the disk, deletions aside, that a superseded sync may still make.
  function Left(pc: Pc): (n: nat)
    ensures n <= 3
  {
    match pc
    case Opening(_, _, _) => 3
    case Fetching(_, _, _, _, _, _) => 3
    case AtChunk(_, _, _, _, _, _) => 2
    case Removing(_, _, _) => 1
    case Recording(_) => 2
    case Writing(_, _) => 1
    case _ => 0
  }

  lemma SupersededFileStep(site: Site, job: Job, fs: Fs, pc: Pc)
    requires FsOk(fs) && Ready(job, fs, pc, true) && (pc.AtFile? || pc.Opening? || pc.Removing?)
    ensures var (after, next) := ActFile(site, job, fs, pc);
      Left(next) + (if after == fs then 0 else 1) <= Left(pc)
  {
  }

  lemma SupersededChunkStep(site: Site, job: Job, fs: Fs, pc: Pc)
    requires FsOk(fs) && Ready(job, fs, pc, true) && (pc.AtChunk? || pc.Fetching?)
    ensures var (after, next) := ActChunk(site, job, fs, pc);
      Left(next) + (if after == fs then 0 else 1) <= Left(pc)
  {
  }

  lemma SupersededStep(site: Site, job: Job, fs: Fs, pc: Pc)
    requires FsOk(fs) && Ready(job, fs, pc, true)
    ensures var (after, next) := Acted(site, job, fs, pc, true);
      Left(next) + (if after == fs then 0 else 1) <= Left(pc)
  {
    if pc.AtFile? || pc.Opening? || pc.Removing? {
      SupersededFileStep(site, job, fs, pc);
    } else if pc.AtChunk? || pc.Fetching? {
      SupersededChunkStep(site, job, fs, pc);
    }
  }

  // How many steps from lo to hi-1 are steps of sync g other than deletions that change the disk.
  ghost function Changes(b: seq<State>, steps: seq<Step>, g: nat, lo: nat, hi: nat): (n: nat)
    requires lo <= hi <= |steps| < |b|
    decreases hi
  {
    if hi == lo then 0
    else Changes(b, steps, g, lo, hi - 1) + (if steps[hi - 1] == Act(g) && b[hi].fs != b[hi - 1].fs then 1 else 0)
  }

  // Once superseded, a sync changes the disk at most three more times, deletions of files that
  // are not wanted aside: it writes, renames and removes one file, or records its state.
  lemma {:induction false} SupersededStopsSoon(
    site: Site, jobs: seq<Job>, b: seq<State>, steps: seq<Step>, g: nat, lo: nat, hi: nat)
    requires Run(site, jobs, b, steps) && lo <= hi < |b| && g < |b[lo].syncs| && Superseded(b[lo], g)
    ensures g < |b[hi].syncs| && Superseded(b[hi], g)
    ensures Changes(b, steps, g, lo, hi) + Left(b[hi].syncs[g]) <= Left(b[lo].syncs[g]) <= 3
    decreases hi
  {
    if lo < hi {
      SupersededStopsSoon(site, jobs, b, steps, g, lo, hi - 1);
      assert Follows(site, jobs, b, steps, hi - 1);
      var s := b[hi - 1];
      if steps[hi - 1] == Act(g) {
        SupersededStep(site, jobs[g], s.fs, s.syncs[g]);
      }
    }
  }
}
