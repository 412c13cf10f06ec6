// Which files the older syncs can still spoil, told from where they stand when a newer one starts.
module MirrorSpare {
  import opened Common
  import opened Manifests
  import opened FileSystem
  import opened Mirror
  import opened MirrorRace
  import opened MirrorOverlap
  import opened MirrorLocal

  // Over all manifests, no place is a temporary, and the state file is neither.
  ghost predicate PlacesApart(site: Site, jobs: seq<Job>) {
    && (forall h, k, i, j ::
          0 <= h < |jobs| && 0 <= k < |jobs| && 0 <= i < |jobs[h].m.files| && 0 <= j < |jobs[k].m.files| ==>
            Place(site, jobs[h], i) != TempOf(site, jobs[k], j))
    && (forall h, i :: 0 <= h < |jobs| && 0 <= i < |jobs[h].m.files| ==>
          Place(site, jobs[h], i) != site.statePath && TempOf(site, jobs[h], i) != site.statePath)
  }

  lemma SameTempSamePlace(site: Site, a: Job, i: nat, b: Job, j: nat)
    requires i < |a.m.files| && j < |b.m.files| && TempOf(site, a, i) == TempOf(site, b, j)
    ensures Place(site, a, i) == Place(site, b, j)
  {
    var p, q := Place(site, a, i), Place(site, b, j);
    assert p == (p + ".part")[..|p|] && q == (q + ".part")[..|q|];
  }

  // ---- Where open files are named ----

  // The file a sync has open is named, if at all, by the temporary or the place it is meant for.
  ghost predicate Named(site: Site, job: Job, fs: Fs, pc: Pc) {
    if pc.AtChunk? || pc.Fetching? then
      && pc.i < |job.m.files| && pc.fd < |fs.data|
      && (forall p :: p in fs.names && fs.names[p] == pc.fd ==>
            p == TempOf(site, job, pc.i) || p == Place(site, job, pc.i))
    else if pc.Writing? then
      pc.fd < |fs.data| && forall p :: p in fs.names && fs.names[p] == pc.fd ==> p == site.statePath
    else true
  }

  ghost predicate AllNamed(site: Site, jobs: seq<Job>, s: State) {
    FsOk(s.fs) && |s.syncs| <= |jobs| && forall h :: 0 <= h < |s.syncs| ==> Named(site, jobs[h], s.fs, s.syncs[h])
  }

  // A change of the directory that gives no open file a new name, but for a rename of the
  // temporary of file j of job by its own sync.
  ghost predicate Renames(site: Site, job: Job, j: nat, fs: Fs, after: Fs)
    requires j < |job.m.files|
  {
    && |fs.data| <= |after.data|
    && (forall p :: p in after.names && after.names[p] < |fs.data| ==>
          || (p in fs.names && fs.names[p] == after.names[p])
          || (p == Place(site, job, j) && TempOf(site, job, j) in fs.names
              && fs.names[TempOf(site, job, j)] == after.names[p]))
  }

  ghost predicate Keeps(fs: Fs, after: Fs) {
    && |fs.data| <= |after.data|
    && (forall p :: p in after.names && after.names[p] < |fs.data| ==> p in fs.names && fs.names[p] == after.names[p])
  }

  lemma CreateKeeps(fs: Fs, q: string)
    requires FsOk(fs)
    ensures Keeps(fs, Create(fs, q).0)
  {
  }

  lemma RenameKeeps(site: Site, job: Job, j: nat, fs: Fs)
    requires FsOk(fs) && j < |job.m.files| && TempOf(site, job, j) in fs.names
    ensures Renames(site, job, j, fs, Rename(fs, TempOf(site, job, j), Place(site, job, j)))
  {
  }

  lemma ActFileNames(site: Site, job: Job, fs: Fs, pc: Pc, superseded: bool)
    requires FsOk(fs) && Ready(job, fs, pc, superseded) && (pc.AtFile? || pc.Opening? || pc.Removing?)
    ensures Keeps(fs, ActFile(site, job, fs, pc).0)
  {
    if pc.Opening? {
      CreateKeeps(fs, TempOf(site, job, pc.i));
    }
  }

  lemma ActChunkNames(site: Site, job: Job, fs: Fs, pc: Pc, superseded: bool)
    requires FsOk(fs) && Ready(job, fs, pc, superseded) && (pc.AtChunk? || pc.Fetching?)
    ensures var after := ActChunk(site, job, fs, pc).0;
      Keeps(fs, after) || (pc.AtChunk? && Renames(site, job, pc.i, fs, after))
  {
    if pc.AtChunk? && TempOf(site, job, pc.i) in fs.names {
      RenameKeeps(site, job, pc.i, fs);
    }
  }

  lemma ActNames(site: Site, job: Job, fs: Fs, pc: Pc, superseded: bool)
    requires FsOk(fs) && Ready(job, fs, pc, superseded)
    ensures var (after, next) := Acted(site, job, fs, pc, superseded);
      Keeps(fs, after) || (pc.AtChunk? && pc.i < |job.m.files| && Renames(site, job, pc.i, fs, after))
  {
    if pc.AtFile? || pc.Opening? || pc.Removing? {
      ActFileNames(site, job, fs, pc, superseded);
    } else if pc.AtChunk? || pc.Fetching? {
      ActChunkNames(site, job, fs, pc, superseded);
    } else if pc.Recording? {
      CreateKeeps(fs, site.statePath);
    }
  }

  // A file just created is named by the path it was created under.
  lemma CreatedNamed(fs: Fs, q: string, p: string)
    requires FsOk(fs) && p in Create(fs, q).0.names && Create(fs, q).0.names[p] == Create(fs, q).1
    ensures p == q
  {
  }

  lemma OpeningNamed(site: Site, job: Job, fs: Fs, pc: Pc)
    requires FsOk(fs) && pc.Opening? && pc.i < |job.m.files|
    ensures var (after, fd) := Create(fs, TempOf(site, job, pc.i));
      Named(site, job, after, AtChunk(pc.prev, pc.i, pc.ok, fd, 0, 0))
  {
    var (after, fd) := Create(fs, TempOf(site, job, pc.i));
    forall p | p in after.names && after.names[p] == fd
      ensures p == TempOf(site, job, pc.i)
    {
      CreatedNamed(fs, TempOf(site, job, pc.i), p);
    }
  }

  lemma RecordingNamed(site: Site, job: Job, fs: Fs, ok: bool)
    requires FsOk(fs)
    ensures var (after, fd) := Create(fs, site.statePath); Named(site, job, after, Writing(fd, ok))
  {
    var (after, fd) := Create(fs, site.statePath);
    forall p | p in after.names && after.names[p] == fd
      ensures p == site.statePath
    {
      CreatedNamed(fs, site.statePath, p);
    }
  }

  // A step that opens nothing goes on with the same file or with none.
  lemma SameOrNoFile(site: Site, job: Job, fs: Fs, pc: Pc, superseded: bool)
    requires FsOk(fs) && Ready(job, fs, pc, superseded) && !pc.Opening? && !pc.Recording?
    ensures var (after, next) := Acted(site, job, fs, pc, superseded);
      || (!next.AtChunk? && !next.Fetching? && !next.Writing?)
      || ((pc.AtChunk? || pc.Fetching?) && (next.AtChunk? || next.Fetching?)
          && next.i == pc.i && next.fd == pc.fd && after.names == fs.names && |after.data| == |fs.data|)
  {
  }

  lemma ActNamesOwn(site: Site, job: Job, fs: Fs, pc: Pc, superseded: bool)
    requires FsOk(fs) && Ready(job, fs, pc, superseded) && Named(site, job, fs, pc)
    ensures var (after, next) := Acted(site, job, fs, pc, superseded); Named(site, job, after, next)
  {
    if pc.Opening? {
      OpeningNamed(site, job, fs, pc);
    } else if pc.Recording? {
      RecordingNamed(site, job, fs, pc.ok);
    } else {
      SameOrNoFile(site, job, fs, pc, superseded);
    }
  }

  lemma KeepsNamed(site: Site, job: Job, fs: Fs, after: Fs, pc: Pc)
    requires Named(site, job, fs, pc) && Keeps(fs, after)
    ensures Named(site, job, after, pc)
  {
  }

  lemma RenamesNamed(site: Site, jobs: seq<Job>, h: nat, g: nat, j: nat, fs: Fs, after: Fs, pc: Pc)
    requires h < |jobs| && g < |jobs| && j < |jobs[g].m.files| && PlacesApart(site, jobs)
    requires Named(site, jobs[h], fs, pc) && Renames(site, jobs[g], j, fs, after)
    ensures Named(site, jobs[h], after, pc)
  {
    var temp := TempOf(site, jobs[g], j);
    if (pc.AtChunk? || pc.Fetching?) && temp in fs.names && fs.names[temp] == pc.fd {
      assert Place(site, jobs[h], pc.i) != temp;
      SameTempSamePlace(site, jobs[h], pc.i, jobs[g], j);
    }
  }

  lemma StepKeepsNamed(site: Site, jobs: seq<Job>, s: State, step: Step, h: nat)
    requires Can(jobs, s, step) && AllNamed(site, jobs, s) && PlacesApart(site, jobs)
    requires h < |Next(site, jobs, s, step).syncs|
    ensures Named(site, jobs[h], Next(site, jobs, s, step).fs, Next(site, jobs, s, step).syncs[h])
  {
    var t := Next(site, jobs, s, step);
    if step.Act? {
      var pc := s.syncs[step.g];
      ActNames(site, jobs[step.g], s.fs, pc, Superseded(s, step.g));
      if h == step.g {
        ActNamesOwn(site, jobs[h], s.fs, pc, Superseded(s, h));
      } else if Keeps(s.fs, t.fs) {
        KeepsNamed(site, jobs[h], s.fs, t.fs, s.syncs[h]);
      } else {
        RenamesNamed(site, jobs, h, step.g, pc.i, s.fs, t.fs, s.syncs[h]);
      }
    } else if h < |s.syncs| {
      KeepsNamed(site, jobs[h], s.fs, t.fs, s.syncs[h]);
    }
  }

  lemma {:induction false} RunKeepsNamed(site: Site, jobs: seq<Job>, b: seq<State>, steps: seq<Step>, i: nat)
    requires Run(site, jobs, b, steps) && PlacesApart(site, jobs) && i < |b|
    ensures AllNamed(site, jobs, b[i])
  {
    if i > 0 {
      RunKeepsNamed(site, jobs, b, steps, i - 1);
      assert Follows(site, jobs, b, steps, i - 1);
      forall h | 0 <= h < |b[i].syncs|
        ensures Named(site, jobs[h], b[i].fs, b[i].syncs[h])
      {
        StepKeepsNamed(site, jobs, b[i - 1], steps[i - 1], h);
      }
    }
  }

  // ---- What a step touches ----

  // A step of a sync touches the place and the temporary of the file it works on, or the state
  // file, and nothing else.
  ghost predicate Works(site: Site, job: Job, pc: Pc, p: string) {
    if pc.Opening? || pc.AtChunk? || pc.Fetching? || pc.Removing? then
      pc.i < |job.m.files| && (p == Place(site, job, pc.i) || p == TempOf(site, job, pc.i))
    else (pc.Recording? || pc.Writing?) && p == site.statePath
  }

  lemma ActFileSpares(site: Site, job: Job, fs: Fs, pc: Pc, superseded: bool, p: string)
    requires FsOk(fs) && Ready(job, fs, pc, superseded) && (pc.AtFile? || pc.Opening? || pc.Removing?)
    requires !Works(site, job, pc, p)
    ensures Spared(fs, ActFile(site, job, fs, pc).0, p)
  {
    if pc.Opening? {
      CreateElsewhere(fs, TempOf(site, job, pc.i), p);
    }
  }

  lemma ActChunkSpares(site: Site, job: Job, fs: Fs, pc: Pc, superseded: bool, p: string)
    requires FsOk(fs) && Ready(job, fs, pc, superseded) && (pc.AtChunk? || pc.Fetching?)
    requires Named(site, job, fs, pc) && !Works(site, job, pc, p)
    ensures Spared(fs, ActChunk(site, job, fs, pc).0, p)
  {
    if pc.Fetching? {
      var got := Fetched(site, job.env.files(pc.i).chunks(pc.k), job.m.files[pc.i].chunkHashes[pc.k]);
      if got.Some? {
        WriteElsewhere(fs, pc.fd, pc.off, got.value, p);
      }
    } else if TempOf(site, job, pc.i) in fs.names {
      RenameElsewhere(fs, TempOf(site, job, pc.i), Place(site, job, pc.i), p);
    }
  }

  lemma ActSpares(site: Site, job: Job, fs: Fs, pc: Pc, superseded: bool, p: string)
    requires FsOk(fs) && Ready(job, fs, pc, superseded) && Named(site, job, fs, pc) && !Works(site, job, pc, p)
    ensures Spared(fs, Acted(site, job, fs, pc, superseded).0, p)
  {
    if pc.AtFile? || pc.Opening? || pc.Removing? {
      ActFileSpares(site, job, fs, pc, superseded, p);
    } else if pc.AtChunk? || pc.Fetching? {
      ActChunkSpares(site, job, fs, pc, superseded, p);
    } else if pc.Recording? {
      CreateElsewhere(fs, site.statePath, p);
    } else if pc.Writing? {
      WriteElsewhere(fs, pc.fd, 0, Saved(job), p);
    }
  }

  // ---- A superseded sync spares all but one file ----

  // Wherever it still goes once superseded, the sync leaves p alone: it has its list, deletes
  // nothing there, and does not work there.
  ghost predicate Spares(site: Site, job: Job, pc: Pc, p: string) {
    && !pc.Loading? && !Works(site, job, pc, p)
    && (pc.Deleting? ==> forall q :: q in pc.todo ==> site.abs(q) != p)
  }

  lemma SparesOn(site: Site, job: Job, fs: Fs, pc: Pc, p: string)
    requires FsOk(fs) && Ready(job, fs, pc, true) && Spares(site, job, pc, p) && p != site.statePath
    ensures Spares(site, job, Acted(site, job, fs, pc, true).1, p)
  {
  }

  // Past its deletions, a sync fails to spare at most one file of a well-placed manifest.
  lemma SparesAllButOne(site: Site, jobs: seq<Job>, h: nat, g: nat, pc: Pc, i: nat, j: nat)
    requires h < |jobs| && g < |jobs| && i < j < |jobs[g].m.files| && !pc.Loading? && !pc.Deleting?
    requires PlacesApart(site, jobs) && WellPlaced(site, jobs[g].m.files)
    ensures SparesFile(site, jobs, h, g, pc, i) || SparesFile(site, jobs, h, g, pc, j)
  {
    if pc.Opening? || pc.AtChunk? || pc.Fetching? || pc.Removing? {
      if pc.i < |jobs[h].m.files| {
        ElsewhereSpares(site, jobs, h, g, pc, if Place(site, jobs[h], pc.i) == Place(site, jobs[g], i) then j else i);
      }
    }
  }

  ghost predicate SparesFile(site: Site, jobs: seq<Job>, h: nat, g: nat, pc: Pc, i: nat)
    requires h < |jobs| && g < |jobs| && i < |jobs[g].m.files|
  {
    Spares(site, jobs[h], pc, Place(site, jobs[g], i)) && Spares(site, jobs[h], pc, TempOf(site, jobs[g], i))
  }

  // What the manifests tell: a sync past its deletions spares a file unless the file it works on
  // has the same place.
  lemma ElsewhereSpares(site: Site, jobs: seq<Job>, h: nat, g: nat, pc: Pc, i: nat)
    requires h < |jobs| && g < |jobs| && i < |jobs[g].m.files| && !pc.Loading? && !pc.Deleting?
    requires PlacesApart(site, jobs)
    requires (pc.Opening? || pc.AtChunk? || pc.Fetching? || pc.Removing?) && pc.i < |jobs[h].m.files| ==>
      Place(site, jobs[h], pc.i) != Place(site, jobs[g], i)
    ensures SparesFile(site, jobs, h, g, pc, i)
  {
    if (pc.Opening? || pc.AtChunk? || pc.Fetching? || pc.Removing?) && pc.i < |jobs[h].m.files| {
      assert Place(site, jobs[h], pc.i) != TempOf(site, jobs[g], i);
      assert Place(site, jobs[g], i) != TempOf(site, jobs[h], pc.i);
      if TempOf(site, jobs[h], pc.i) == TempOf(site, jobs[g], i) {
        SameTempSamePlace(site, jobs[h], pc.i, jobs[g], i);
      }
    }
  }

  // ---- The newest sync ----

  // All older syncs spare file i of sync g.
  ghost predicate OlderSpare(site: Site, jobs: seq<Job>, s: State, g: nat, i: nat)
    requires g < |jobs| && i < |jobs[g].m.files|
  {
    |s.syncs| == g + 1 && forall h: nat :: h < g ==> SparesFile(site, jobs, h, g, s.syncs[h], i)
  }

  lemma SparedIsUntouched(fs: Fs, after: Fs, p: string, q: string)
    requires FsOk(fs) && FsOk(after) && Spared(fs, after, p) && Spared(fs, after, q)
    ensures Untouched(iset{p, q}, fs, after)
  {
  }

  lemma OlderStep(site: Site, jobs: seq<Job>, s: State, step: Step, g: nat, i: nat)
    requires Can(jobs, s, step) && AllNamed(site, jobs, s) && PlacesApart(site, jobs) && !step.Accept?
    requires g < |jobs| && i < |jobs[g].m.files| && OlderSpare(site, jobs, s, g, i)
    ensures OlderSpare(site, jobs, Next(site, jobs, s, step), g, i)
  {
    var t, h := Next(site, jobs, s, step), step.g;
    if h < g {
      OneOlderStep(site, jobs, s, step, g, Place(site, jobs[g], i));
      OneOlderStep(site, jobs, s, step, g, TempOf(site, jobs[g], i));
    }
    forall k: nat | k < g
      ensures SparesFile(site, jobs, k, g, t.syncs[k], i)
    {
      assert SparesFile(site, jobs, k, g, s.syncs[k], i);
      assert k != h ==> t.syncs[k] == s.syncs[k];
    }
  }

  lemma OlderUntouched(site: Site, jobs: seq<Job>, s: State, step: Step, g: nat, i: nat)
    requires Can(jobs, s, step) && AllNamed(site, jobs, s) && PlacesApart(site, jobs) && !step.Accept?
    requires g < |jobs| && i < |jobs[g].m.files| && OlderSpare(site, jobs, s, g, i) && step.g < g
    ensures Untouched(Own(site, jobs[g], i), s.fs, Next(site, jobs, s, step).fs)
  {
    OneOlderStep(site, jobs, s, step, g, Place(site, jobs[g], i));
    OneOlderStep(site, jobs, s, step, g, TempOf(site, jobs[g], i));
    SparedIsUntouched(s.fs, Next(site, jobs, s, step).fs, Place(site, jobs[g], i), TempOf(site, jobs[g], i));
  }

  lemma OneOlderStep(site: Site, jobs: seq<Job>, s: State, step: Step, g: nat, p: string)
    requires Can(jobs, s, step) && AllNamed(site, jobs, s) && !step.Accept? && step.g < g && |s.syncs| == g + 1
    requires Spares(site, jobs[step.g], s.syncs[step.g], p) && p != site.statePath
    ensures var t := Next(site, jobs, s, step);
      Spares(site, jobs[step.g], t.syncs[step.g], p) && Spared(s.fs, t.fs, p)
  {
    var h := step.g;
    if step.Act? {
      SparesOn(site, jobs[h], s.fs, s.syncs[h], p);
      ActSpares(site, jobs[h], s.fs, s.syncs[h], true, p);
    }
  }

  lemma {:induction false} SyncsGrow(site: Site, jobs: seq<Job>, b: seq<State>, steps: seq<Step>, i: nat, j: nat)
    requires Run(site, jobs, b, steps) && i <= j < |b|
    ensures |b[i].syncs| <= |b[j].syncs|
    decreases j
  {
    if i < j {
      SyncsGrow(site, jobs, b, steps, i, j - 1);
      assert Follows(site, jobs, b, steps, j - 1);
    }
  }

  ghost predicate OlderSpareAt(site: Site, jobs: seq<Job>, b: seq<State>, g: nat, i: nat, k: nat) {
    k < |b| && g < |jobs| && i < |jobs[g].m.files| && OlderSpare(site, jobs, b[k], g, i)
  }

  lemma OlderStepAt(site: Site, jobs: seq<Job>, b: seq<State>, steps: seq<Step>, g: nat, i: nat, k: nat)
    requires Run(site, jobs, b, steps) && PlacesApart(site, jobs) && k < |steps|
    requires OlderSpareAt(site, jobs, b, g, i, k) && |b[k + 1].syncs| == g + 1
    ensures OlderSpareAt(site, jobs, b, g, i, k + 1)
    ensures FsOk(b[k].fs) && FsOk(b[k + 1].fs)
    ensures By(steps[k], g) || Untouched(Own(site, jobs[g], i), b[k].fs, b[k + 1].fs)
  {
    RunKeepsNamed(site, jobs, b, steps, k);
    assert Follows(site, jobs, b, steps, k);
    OlderStep(site, jobs, b[k], steps[k], g, i);
    if steps[k].g < g {
      OlderUntouched(site, jobs, b[k], steps[k], g, i);
    }
  }

  lemma OlderSpareThroughout(
    site: Site, jobs: seq<Job>, b: seq<State>, steps: seq<Step>, g: nat, lo: nat, hi: nat, i: nat)
    requires Run(site, jobs, b, steps) && PlacesApart(site, jobs) && lo <= hi < |b| && |b[hi].syncs| == g + 1
    requires OlderSpareAt(site, jobs, b, g, i, lo)
    ensures forall k: nat :: lo <= k <= hi ==> OlderSpareAt(site, jobs, b, g, i, k)
  {
    forall k: nat | lo <= k <= hi
      ensures OlderSpareAt(site, jobs, b, g, i, k)
    {
      forall l: nat | lo <= l < k && OlderSpareAt(site, jobs, b, g, i, l)
        ensures OlderSpareAt(site, jobs, b, g, i, l + 1)
      {
        SyncsGrow(site, jobs, b, steps, l, l + 1);
        SyncsGrow(site, jobs, b, steps, l + 1, hi);
        OlderStepAt(site, jobs, b, steps, g, i, l);
      }
      Along((l: nat) => OlderSpareAt(site, jobs, b, g, i, l), lo, k);
    }
  }

  lemma OlderSpareUndisturbed(
    site: Site, jobs: seq<Job>, b: seq<State>, steps: seq<Step>, g: nat, lo: nat, hi: nat, i: nat)
    requires Run(site, jobs, b, steps) && PlacesApart(site, jobs) && lo <= hi < |b| && |b[hi].syncs| == g + 1
    requires OlderSpareAt(site, jobs, b, g, i, lo)
    ensures Undisturbed(b, steps, g, lo, hi, Own(site, jobs[g], i))
  {
    OlderSpareThroughout(site, jobs, b, steps, g, lo, hi, i);
    forall k: nat | lo < k < hi && !By(steps[k], g)
      ensures FsOk(b[k].fs) && FsOk(b[k + 1].fs) && Untouched(Own(site, jobs[g], i), b[k].fs, b[k + 1].fs)
    {
      assert OlderSpareAt(site, jobs, b, g, i, k) && OlderSpareAt(site, jobs, b, g, i, k + 1);
      OlderStepAt(site, jobs, b, steps, g, i, k);
    }
  }

  // The law in terms of the moment the newest sync starts: if by then every older one has its
  // list, has nothing left to delete at the place of file i, and does not work on a file of that
  // place, then whatever they go on to do, at the newest sync's complete report file i is verified
  // on disk if and only if it survives.  By SparesAllButOne that leaves out at most one file for
  // each older sync past its deletions.
  lemma NewestFileOnDisk(
    site: Site, jobs: seq<Job>, b: seq<State>, steps: seq<Step>, g: nat, lo: nat, hi: nat, i: nat)
    requires Run(site, jobs, b, steps) && StartsAt(b, steps, g, lo) && lo < hi < |b| && |b[hi].syncs| == g + 1
    requires g < |jobs| && i < |jobs[g].m.files| && WellPlaced(site, jobs[g].m.files) && PlacesApart(site, jobs)
    requires forall h: nat :: h < g && h < |b[lo].syncs| ==> SparesFile(site, jobs, h, g, b[lo].syncs[h], i)
    requires FsOk(b[hi].fs) && b[hi].syncs[g] == Ended(true, false)
    ensures OnDisk(site, View(b[hi].fs), jobs[g].m.files[i]) <==>
      Survives(site, jobs[g].env, View(b[lo].fs), jobs[g].m.files, i)
  {
    SyncsGrow(site, jobs, b, steps, lo, hi);
    OlderSpareUndisturbed(site, jobs, b, steps, g, lo, hi, i);
    OverlappedCompleteMeansOnDisk(site, jobs, b, steps, g, lo, hi, i);
  }
}
