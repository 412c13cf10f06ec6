// Runs of overlapping syncs that go wrong: why syncs must not touch one another's places, must
// take turns on the state file, and must store their indexes in order.
module MirrorTraces {
  import opened Common
  import opened Manifests
  import opened FileSystem
  import opened Mirror
  import opened ChunkIndex
  import opened MirrorRace
  import opened MirrorOverlap
  import opened MirrorServing

  // ---- Building runs ----

  ghost predicate IdleBefore(jobs: seq<Job>, s: State, g: nat) {
    forall h: nat :: h < g ==> h < |s.syncs| && h < |jobs| && Idle(jobs[h], s.syncs[h])
  }

  // One step; strict when syncs take turns.
  ghost predicate Goes(site: Site, jobs: seq<Job>, strict: bool, s: State, step: Step, t: State) {
    && Can(jobs, s, step) && t == Next(site, jobs, s, step)
    && (strict && Loads(s, step) ==> IdleBefore(jobs, s, step.g))
  }

  ghost function Rel(site: Site, jobs: seq<Job>, strict: bool): (rel: (State, Step, State) -> bool) {
    (s: State, step: Step, t: State) => Goes(site, jobs, strict, s, step, t)
  }

  ghost const EMPTY := State(Fs(map[], []), [], map[])

  // What is reached is reached by a run.
  lemma ReachedByRun(site: Site, jobs: seq<Job>, strict: bool, t: State)
    returns (b: seq<State>, steps: seq<Step>)
    requires Reach(Rel(site, jobs, strict), EMPTY, t)
    ensures Run(site, jobs, b, steps) && b[0] == EMPTY && b[|b| - 1] == t
    ensures strict ==> InTurn(jobs, b, steps)
  {
    b, steps :| PathTo(Rel(site, jobs, strict), b, steps, EMPTY, t);
    forall i: nat | i < |steps|
      ensures Follows(site, jobs, b, steps, i)
      ensures strict && Loads(b[i], steps[i]) ==> IdleBefore(jobs, b[i], steps[i].g)
    {
      assert Rel(site, jobs, strict)(b[i], steps[i], b[i + 1]);
    }
  }

  lemma AcceptGoes(site: Site, jobs: seq<Job>, strict: bool, s: State)
    requires FsOk(s.fs) && |s.syncs| < |jobs|
    ensures Reach(Rel(site, jobs, strict), s, s.(syncs := s.syncs + [Loading]))
  {
    ReachStep(Rel(site, jobs, strict), s, Accept, s.(syncs := s.syncs + [Loading]));
  }

  // s with sync g at pc.
  ghost function With(s: State, fs: Fs, g: nat, pc: Pc): (t: State)
    requires g < |s.syncs|
  {
    State(fs, s.syncs[g := pc], s.index)
  }

  lemma ActGoes(site: Site, jobs: seq<Job>, strict: bool, s: State, g: nat, fs: Fs, pc: Pc)
    requires FsOk(s.fs) && g < |s.syncs| <= |jobs| && Ready(jobs[g], s.fs, s.syncs[g], Superseded(s, g))
    requires Acted(site, jobs[g], s.fs, s.syncs[g], Superseded(s, g)) == (fs, pc) && s.syncs[g] != Indexing(true)
    requires strict && s.syncs[g].Loading? ==> IdleBefore(jobs, s, g)
    ensures Reach(Rel(site, jobs, strict), s, With(s, fs, g, pc))
  {
    ReachStep(Rel(site, jobs, strict), s, Act(g), With(s, fs, g, pc));
  }

  // From s, sync g goes on to pc over fs.
  ghost predicate GoesTo(site: Site, jobs: seq<Job>, strict: bool, s: State, g: nat, fs: Fs, pc: Pc)
    requires g < |s.syncs|
  {
    Reach(Rel(site, jobs, strict), s, With(s, fs, g, pc))
  }

  lemma GoesOn(
    site: Site, jobs: seq<Job>, strict: bool, s: State, g: nat, fs: Fs, pc: Pc, after: Fs, next: Pc)
    requires g < |s.syncs| <= |jobs| && GoesTo(site, jobs, strict, s, g, fs, pc) && FsOk(fs)
    requires Ready(jobs[g], fs, pc, Superseded(s, g)) && pc != Indexing(true) && !pc.Loading?
    requires Acted(site, jobs[g], fs, pc, Superseded(s, g)) == (after, next)
    ensures GoesTo(site, jobs, strict, s, g, after, next)
  {
    var t := With(s, fs, g, pc);
    ActGoes(site, jobs, strict, t, g, after, next);
    assert With(t, after, g, next) == With(s, after, g, next);
    ReachOn(Rel(site, jobs, strict), s, t, With(s, after, g, next));
  }

  // ---- The stretches of a sync of one file ----

  // Nothing goes wrong up to the write of the one chunk.
  ghost predicate Fetches(site: Site, job: Job, f: FileEntry, hash: string, data: Bytes) {
    && job.m.files == [f] && f.chunkHashes == [hash]
    && site.abs(f.path) != site.statePath && Temp(site, f) != site.statePath
    && FetchEnv(site, job.env.files(0), hash, data)
  }

  ghost predicate FetchEnv(site: Site, e: FileEnv, hash: string, data: Bytes) {
    && !e.superseded && e.createOk && !e.chunks(0).superseded && e.chunks(0).writeOk
    && Fetched(site, e.chunks(0), hash) == Some(data)
  }

  // Nor after it.
  ghost predicate Smooth(site: Site, job: Job, f: FileEntry, hash: string, data: Bytes) {
    && Fetches(site, job, f, hash, data)
    && job.env.files(0).renameOk && !job.env.superseded && job.env.persist.Full?
  }

  // The first two steps of a sync that has nothing to delete.
  lemma Start(site: Site, jobs: seq<Job>, strict: bool, s: State, g: nat, prev: map<string, FileEntry>)
    requires FsOk(s.fs) && g < |s.syncs| <= |jobs| && s.syncs[g].Loading?
    requires PrevFiles(site, View(s.fs)) == prev && prev.Keys <= Wanted(jobs[g])
    requires strict ==> IdleBefore(jobs, s, g)
    ensures GoesTo(site, jobs, strict, s, g, s.fs, AtFile(prev, 0, true))
  {
    assert prev.Keys - Wanted(jobs[g]) == {};
    ActGoes(site, jobs, strict, s, g, s.fs, Deleting(prev, {}));
    GoesOn(site, jobs, strict, s, g, s.fs, Deleting(prev, {}), s.fs, AtFile(prev, 0, true));
  }

  // From its start to its only fetch.
  lemma Front(site: Site, jobs: seq<Job>, strict: bool, s: State, g: nat, prev: map<string, FileEntry>,
              f: FileEntry, hash: string, data: Bytes)
    requires FsOk(s.fs) && g + 1 == |s.syncs| <= |jobs| && s.syncs[g].Loading?
    requires PrevFiles(site, View(s.fs)) == prev && prev.Keys <= {f.path} && !Skips(prev, f)
    requires Fetches(site, jobs[g], f, hash, data) && (strict ==> IdleBefore(jobs, s, g))
    ensures var (fs, fd) := Create(s.fs, Temp(site, f));
      GoesTo(site, jobs, strict, s, g, fs, Fetching(prev, 0, true, fd, 0, 0))
  {
    var (fs, fd) := Create(s.fs, Temp(site, f));
    OnlyWanted(jobs[g], f);
    Start(site, jobs, strict, s, g, prev);
    GoesOn(site, jobs, strict, s, g, s.fs, AtFile(prev, 0, true), s.fs, Opening(prev, 0, true));
    GoesOn(site, jobs, strict, s, g, s.fs, Opening(prev, 0, true), fs, AtChunk(prev, 0, true, fd, 0, 0));
    GoesOn(site, jobs, strict, s, g, fs, AtChunk(prev, 0, true, fd, 0, 0), fs, Fetching(prev, 0, true, fd, 0, 0));
  }

  lemma OnlyWanted(job: Job, f: FileEntry)
    requires job.m.files == [f]
    ensures FileMap(job.m.files, 1) == map[f.path := f] && Wanted(job) == {f.path}
  {
    assert FileMap(job.m.files, 0) == map[];
  }

  // The fetch, and the write to the file the temporary leads to.
  lemma Writes(site: Site, jobs: seq<Job>, strict: bool, s: State, g: nat, f: FileEntry, hash: string, data: Bytes)
    returns (t: State)
    requires FsOk(s.fs) && g < |s.syncs| <= |jobs| && Fetches(site, jobs[g], f, hash, data)
    requires s.syncs[g].Fetching? && s.syncs[g].i == 0 && s.syncs[g].ok && s.syncs[g].k == 0
    requires s.syncs[g].off == 0 && Temp(site, f) in s.fs.names && s.fs.names[Temp(site, f)] == s.syncs[g].fd
    requires |View(s.fs)[Temp(site, f)]| <= |data|
    ensures Reach(Rel(site, jobs, strict), s, t) && FsOk(t.fs) && t.index == s.index
    ensures t.fs.names == s.fs.names && View(t.fs) == View(s.fs)[Temp(site, f) := data]
    ensures var pc := s.syncs[g]; t.syncs == s.syncs[g := AtChunk(pc.prev, 0, true, pc.fd, |data|, 1)]
  {
    var pc, temp := s.syncs[g], Temp(site, f);
    var next := AtChunk(pc.prev, 0, true, pc.fd, |data|, 1);
    var fs := WriteAt(s.fs, pc.fd, 0, data);
    SpliceOver(View(s.fs)[temp], data);
    WriteShows(s.fs, temp, 0, data);
    ActGoes(site, jobs, strict, s, g, fs, next);
    t := With(s, fs, g, next);
  }

  lemma SpliceOver(was: Bytes, data: Bytes)
    requires |was| <= |data|
    ensures Splice(was, 0, data) == data
  {
  }

  // The rename.
  lemma Renames(site: Site, jobs: seq<Job>, strict: bool, s: State, g: nat, f: FileEntry, hash: string, data: Bytes)
    returns (t: State)
    requires FsOk(s.fs) && g < |s.syncs| <= |jobs| && Smooth(site, jobs[g], f, hash, data)
    requires s.syncs[g].AtChunk? && s.syncs[g].i == 0 && s.syncs[g].ok && s.syncs[g].k == 1
    requires Temp(site, f) in s.fs.names
    ensures Reach(Rel(site, jobs, strict), s, t) && FsOk(t.fs) && t.index == s.index
    ensures t.syncs == s.syncs[g := Removing(s.syncs[g].prev, 0, true)]
    ensures View(t.fs) == (View(s.fs) - {Temp(site, f)})[site.abs(f.path) := View(s.fs)[Temp(site, f)]]
  {
    var fs := Rename(s.fs, Temp(site, f), site.abs(f.path));
    ActGoes(site, jobs, strict, s, g, fs, Removing(s.syncs[g].prev, 0, true));
    t := With(s, fs, g, Removing(s.syncs[g].prev, 0, true));
  }

  // From the rename to the last check.
  lemma Passes(site: Site, jobs: seq<Job>, strict: bool, s: State, g: nat, f: FileEntry, hash: string, data: Bytes)
    returns (t: State)
    requires FsOk(s.fs) && g + 1 == |s.syncs| <= |jobs| && Smooth(site, jobs[g], f, hash, data)
    requires s.syncs[g].Removing? && s.syncs[g].i == 0 && s.syncs[g].ok && Temp(site, f) !in s.fs.names
    ensures Reach(Rel(site, jobs, strict), s, t) && FsOk(t.fs) && t.index == s.index
    ensures t.syncs == s.syncs[g := Recording(true)] && View(t.fs) == View(s.fs)
  {
    var prev, fs := s.syncs[g].prev, Remove(s.fs, Temp(site, f));
    ActGoes(site, jobs, strict, s, g, fs, AtFile(prev, 1, true));
    GoesOn(site, jobs, strict, s, g, fs, AtFile(prev, 1, true), fs, Recording(true));
    t := With(s, fs, g, Recording(true));
    assert View(s.fs) - {Temp(site, f)} == View(s.fs);
  }

  // From the last check to the store of the index, whatever has been accepted since.
  lemma Records(site: Site, jobs: seq<Job>, strict: bool, s: State, g: nat) returns (t: State)
    requires FsOk(s.fs) && g < |s.syncs| <= |jobs| && s.syncs[g] == Recording(true) && jobs[g].env.persist.Full?
    ensures Reach(Rel(site, jobs, strict), s, t) && FsOk(t.fs) && t.index == s.index
    ensures t.syncs == s.syncs[g := Indexing(true)]
    ensures View(t.fs) == View(s.fs)[site.statePath := jobs[g].raw]
  {
    var (fs, fd) := Create(s.fs, site.statePath);
    ActGoes(site, jobs, strict, s, g, fs, Writing(fd, true));
    var after := WriteAt(fs, fd, 0, jobs[g].raw);
    GoesOn(site, jobs, strict, s, g, fs, Writing(fd, true), after, Indexing(true));
    RecordShows(site, s.fs, jobs[g].raw);
    t := With(s, after, g, Indexing(true));
  }

  lemma RecordShows(site: Site, fs: Fs, raw: Bytes)
    requires FsOk(fs)
    ensures var (after, fd) := Create(fs, site.statePath);
      View(WriteAt(after, fd, 0, raw)) == View(fs)[site.statePath := raw]
  {
    var (after, fd) := Create(fs, site.statePath);
    WriteShows(after, site.statePath, 0, raw);
    assert [] + raw == raw;
  }

  // The store of the index, and the end.
  lemma Ends(site: Site, jobs: seq<Job>, strict: bool, s: State, g: nat) returns (t: State)
    requires FsOk(s.fs) && g < |s.syncs| <= |jobs| && s.syncs[g] == Indexing(true)
    ensures Reach(Rel(site, jobs, strict), s, t) && t.fs == s.fs && t.index == IndexOf(site, jobs[g])
    ensures t.syncs == s.syncs[g := Ended(true, false)]
  {
    var u := State(s.fs, s.syncs[g := Announcing(true)], IndexOf(site, jobs[g]));
    ReachStep(Rel(site, jobs, strict), s, Act(g), u);
    ActGoes(site, jobs, strict, u, g, s.fs, Ended(true, false));
    t := With(u, s.fs, g, Ended(true, false));
    ReachOn(Rel(site, jobs, strict), s, u, t);
  }

  // ---- One sync of one file in an empty directory ----

  lemma FirstFetches(site: Site, jobs: seq<Job>, strict: bool, f: FileEntry, hash: string, data: Bytes)
    returns (s: State)
    requires 1 <= |jobs| && Fetches(site, jobs[0], f, hash, data)
    ensures Reach(Rel(site, jobs, strict), EMPTY, s) && FsOk(s.fs) && s.index == map[]
    ensures s.syncs == [Fetching(map[], 0, true, 0, 0, 0)]
    ensures s.fs.names == map[Temp(site, f) := 0] && View(s.fs) == map[Temp(site, f) := []]
  {
    AcceptGoes(site, jobs, strict, EMPTY);
    var a := State(EMPTY.fs, [Loading], map[]);
    assert EMPTY.syncs + [Loading] == [Loading];
    Front(site, jobs, strict, a, 0, map[], f, hash, data);
    var (fs, fd) := Create(a.fs, Temp(site, f));
    s := With(a, fs, 0, Fetching(map[], 0, true, fd, 0, 0));
    ReachOn(Rel(site, jobs, strict), EMPTY, a, s);
  }

  lemma FirstPasses(site: Site, jobs: seq<Job>, strict: bool, f: FileEntry, hash: string, data: Bytes)
    returns (t: State)
    requires 1 <= |jobs| && Smooth(site, jobs[0], f, hash, data)
    ensures Reach(Rel(site, jobs, strict), EMPTY, t) && FsOk(t.fs) && t.index == map[]
    ensures t.syncs == [Recording(true)] && View(t.fs) == map[site.abs(f.path) := data]
  {
    assert |Temp(site, f)| > |site.abs(f.path)|;
    var rel := Rel(site, jobs, strict);
    var s := FirstFetches(site, jobs, strict, f, hash, data);
    t := Writes(site, jobs, strict, s, 0, f, hash, data);
    ReachOn(rel, EMPTY, s, t);
    s := t;
    t := Renames(site, jobs, strict, s, 0, f, hash, data);
    ReachOn(rel, EMPTY, s, t);
    s := t;
    t := Passes(site, jobs, strict, s, 0, f, hash, data);
    ReachOn(rel, EMPTY, s, t);
  }

  // From Recording to the end.
  lemma Finishes(site: Site, jobs: seq<Job>, strict: bool, s: State, g: nat) returns (t: State)
    requires FsOk(s.fs) && g < |s.syncs| <= |jobs| && s.syncs[g] == Recording(true) && jobs[g].env.persist.Full?
    ensures Reach(Rel(site, jobs, strict), s, t) && FsOk(t.fs) && t.index == IndexOf(site, jobs[g])
    ensures t.syncs == s.syncs[g := Ended(true, false)]
    ensures View(t.fs) == View(s.fs)[site.statePath := jobs[g].raw]
  {
    var u := Records(site, jobs, strict, s, g);
    t := Ends(site, jobs, strict, u, g);
    ReachOn(Rel(site, jobs, strict), s, u, t);
  }

  // ---- A shared temporary ----

  // A newer manifest that lists the same path is accepted while the first sync fetches: its sync
  // truncates the same temporary and writes its own chunk.
  lemma SecondWrites(site: Site, jobs: seq<Job>, s: State, f: FileEntry, hash: string, data: Bytes)
    returns (t: State)
    requires |jobs| == 2 && FsOk(s.fs) && |s.syncs| == 1 && Fetches(site, jobs[1], f, hash, data)
    requires s.fs.names == map[Temp(site, f) := 0] && View(s.fs) == map[Temp(site, f) := []]
    ensures Reach(Rel(site, jobs, false), s, t) && FsOk(t.fs)
    ensures t.syncs == s.syncs + [AtChunk(map[], 0, true, 0, |data|, 1)]
    ensures t.fs.names == s.fs.names && View(t.fs) == map[Temp(site, f) := data]
  {
    AcceptGoes(site, jobs, false, s);
    var a := s.(syncs := s.syncs + [Loading]);
    Front(site, jobs, false, a, 1, map[], f, hash, data);
    var (fs, fd) := Create(a.fs, Temp(site, f));
    var u := With(a, fs, 1, Fetching(map[], 0, true, fd, 0, 0));
    ReachOn(Rel(site, jobs, false), s, a, u);
    t := Writes(site, jobs, false, u, 1, f, hash, data);
    ReachOn(Rel(site, jobs, false), s, u, t);
  }

  // The second sync renames what is in the temporary, records its state and reports complete.
  lemma SecondCompletes(site: Site, jobs: seq<Job>, s: State, f: FileEntry, hash: string, data: Bytes)
    returns (t: State)
    requires |jobs| == 2 && FsOk(s.fs) && |s.syncs| == 2 && Smooth(site, jobs[1], f, hash, data)
    requires s.syncs[1].AtChunk? && s.syncs[1].i == 0 && s.syncs[1].ok && s.syncs[1].k == 1
    requires Temp(site, f) in s.fs.names
    ensures Reach(Rel(site, jobs, false), s, t) && FsOk(t.fs)
    ensures |t.syncs| == 2 && t.syncs[1] == Ended(true, false)
    ensures site.abs(f.path) in View(t.fs) && View(t.fs)[site.abs(f.path)] == View(s.fs)[Temp(site, f)]
  {
    assert |Temp(site, f)| > |site.abs(f.path)|;
    var rel := Rel(site, jobs, false);
    var u := Renames(site, jobs, false, s, 1, f, hash, data);
    var v := Passes(site, jobs, false, u, 1, f, hash, data);
    ReachOn(rel, s, u, v);
    t := Finishes(site, jobs, false, v, 1);
    ReachOn(rel, s, v, t);
  }

  lemma NotVerified(site: Site, data: Bytes, hash: string)
    requires !HashMatches(site, data, hash)
    ensures !Verified(site, data, [hash])
  {
    forall pieces | Chunked(site, pieces, [hash])
      ensures Flatten(pieces) != data
    {
      assert pieces == [pieces[0]];
      assert Flatten(pieces) == pieces[0] + Flatten([]) == pieces[0];
      assert HashMatches(site, pieces[0], [hash][0]);
    }
  }

  // With two manifests that list one path with different chunks of the same length, there is a
  // run in which the newer sync skips nothing, is never superseded and reports complete, and the
  // file on disk is the older one's.  What the older sync's later checks see is left open.
  lemma OverlapCorrupts(
    site: Site, jobs: seq<Job>, f: FileEntry, g: FileEntry, hash: string, newer: string, d: Bytes, e: Bytes)
    returns (b: seq<State>, steps: seq<Step>)
    requires |jobs| == 2 && Fetches(site, jobs[0], f, hash, d) && Smooth(site, jobs[1], g, newer, e)
    requires f.path == g.path && |d| == |e| && !HashMatches(site, d, newer)
    ensures Run(site, jobs, b, steps)
    ensures var t := b[|b| - 1];
      FsOk(t.fs) && |t.syncs| == 2 && t.syncs[1] == Ended(true, false) && !OnDisk(site, View(t.fs), g)
  {
    var rel := Rel(site, jobs, false);
    var s := FirstFetches(site, jobs, false, f, hash, d);
    var t := SecondWrites(site, jobs, s, g, newer, e);
    ReachOn(rel, EMPTY, s, t);
    s := t;
    t := Writes(site, jobs, false, s, 0, f, hash, d);
    ReachOn(rel, EMPTY, s, t);
    s := t;
    t := SecondCompletes(site, jobs, s, g, newer, e);
    ReachOn(rel, EMPTY, s, t);
    NotVerified(site, d, newer);
    b, steps := ReachedByRun(site, jobs, false, t);
  }

  // ---- A late record of the state ----

  // A sync without files, newer than all, up to its last check.
  lemma EmptyPasses(site: Site, jobs: seq<Job>, strict: bool, s: State) returns (t: State)
    requires FsOk(s.fs) && |s.syncs| < |jobs| && PrevFiles(site, View(s.fs)) == map[]
    requires jobs[|s.syncs|].m.files == [] && !jobs[|s.syncs|].env.superseded
    requires strict ==> IdleBefore(jobs, s, |s.syncs|)
    ensures Reach(Rel(site, jobs, strict), s, t)
    ensures t == s.(syncs := s.syncs + [Recording(true)])
  {
    var g := |s.syncs|;
    AcceptGoes(site, jobs, strict, s);
    var a := s.(syncs := s.syncs + [Loading]);
    Start(site, jobs, strict, a, g, map[]);
    GoesOn(site, jobs, strict, a, g, s.fs, AtFile(map[], 0, true), s.fs, Recording(true));
    t := With(a, s.fs, g, Recording(true));
    ReachOn(Rel(site, jobs, strict), s, a, t);
  }

  // A sync past its last check records its state after a newer one, whose manifest lists nothing,
  // has read the old list, recorded its own state and reported complete.  Both report complete,
  // and the file stays on disk under the older state.
  lemma LateRecordWins(site: Site, jobs: seq<Job>, f: FileEntry, hash: string, d: Bytes)
    returns (b: seq<State>, steps: seq<Step>)
    requires |jobs| == 2 && Smooth(site, jobs[0], f, hash, d)
    requires jobs[1].m.files == [] && !jobs[1].env.superseded && jobs[1].env.persist.Full?
    ensures Run(site, jobs, b, steps)
    ensures var t := b[|b| - 1];
      && FsOk(t.fs) && t.syncs == [Ended(true, false), Ended(true, false)]
      && site.abs(f.path) in View(t.fs) && View(t.fs)[site.abs(f.path)] == d
      && site.statePath in View(t.fs) && View(t.fs)[site.statePath] == jobs[0].raw
  {
    var rel := Rel(site, jobs, false);
    var s := FirstPasses(site, jobs, false, f, hash, d);
    var t := EmptyPasses(site, jobs, false, s);
    ReachOn(rel, EMPTY, s, t);
    s := t;
    t := Finishes(site, jobs, false, s, 1);
    ReachOn(rel, EMPTY, s, t);
    s := t;
    t := Finishes(site, jobs, false, s, 0);
    ReachOn(rel, EMPTY, s, t);
    b, steps := ReachedByRun(site, jobs, false, t);
  }

  // ---- A late store of the index ----

  // A second sync of one file, from its start to the end, over an idle first one.
  lemma SecondSyncs(site: Site, jobs: seq<Job>, s: State, f: FileEntry, hash: string, data: Bytes)
    returns (t: State)
    requires |jobs| == 2 && FsOk(s.fs) && |s.syncs| == 1 && IdleBefore(jobs, s, 1)
    requires PrevFiles(site, View(s.fs)) == map[] && Temp(site, f) !in View(s.fs)
    requires Smooth(site, jobs[1], f, hash, data)
    ensures Reach(Rel(site, jobs, true), s, t) && FsOk(t.fs)
    ensures t.syncs == [s.syncs[0], Ended(true, false)] && t.index == IndexOf(site, jobs[1])
  {
    var rel := Rel(site, jobs, true);
    var u := SecondRenames(site, jobs, s, map[], f, hash, data);
    var v := Passes(site, jobs, true, u, 1, f, hash, data);
    ReachOn(rel, s, u, v);
    t := Finishes(site, jobs, true, v, 1);
    ReachOn(rel, s, v, t);
  }

  // ... from its start to the fetch.
  lemma SecondFetches(site: Site, jobs: seq<Job>, s: State, prev: map<string, FileEntry>,
                      f: FileEntry, hash: string, data: Bytes)
    returns (t: State)
    requires |jobs| == 2 && FsOk(s.fs) && |s.syncs| == 1 && IdleBefore(jobs, s, 1)
    requires PrevFiles(site, View(s.fs)) == prev && prev.Keys <= {f.path} && !Skips(prev, f)
    requires Fetches(site, jobs[1], f, hash, data)
    ensures Reach(Rel(site, jobs, true), s, t) && FsOk(t.fs) && t.index == s.index
    ensures |t.syncs| == 2 && t.syncs[0] == s.syncs[0] && View(t.fs) == View(s.fs)[Temp(site, f) := []]
    ensures Temp(site, f) in t.fs.names && t.syncs[1] == Fetching(prev, 0, true, t.fs.names[Temp(site, f)], 0, 0)
  {
    AcceptGoes(site, jobs, true, s);
    var a := s.(syncs := s.syncs + [Loading]);
    Front(site, jobs, true, a, 1, prev, f, hash, data);
    var (fs, fd) := Create(a.fs, Temp(site, f));
    t := With(a, fs, 1, Fetching(prev, 0, true, fd, 0, 0));
    ReachOn(Rel(site, jobs, true), s, a, t);
  }

  // ... from its start to the rename.
  lemma SecondRenames(site: Site, jobs: seq<Job>, s: State, prev: map<string, FileEntry>,
                      f: FileEntry, hash: string, data: Bytes)
    returns (t: State)
    requires |jobs| == 2 && FsOk(s.fs) && |s.syncs| == 1 && IdleBefore(jobs, s, 1)
    requires PrevFiles(site, View(s.fs)) == prev && prev.Keys <= {f.path} && !Skips(prev, f)
    requires Temp(site, f) !in View(s.fs) && Smooth(site, jobs[1], f, hash, data)
    ensures Reach(Rel(site, jobs, true), s, t) && FsOk(t.fs) && t.index == s.index
    ensures |t.syncs| == 2 && t.syncs[0] == s.syncs[0] && t.syncs[1] == Removing(prev, 0, true)
    ensures Temp(site, f) !in t.fs.names && View(t.fs) == View(s.fs)[site.abs(f.path) := data]
  {
    var u := SecondFetches(site, jobs, s, prev, f, hash, data);
    t := WritesAndRenames(site, jobs, true, u, 1, f, hash, data);
    ReachOn(Rel(site, jobs, true), s, u, t);
    assert |Temp(site, f)| > |site.abs(f.path)|;
    ThroughTemp(View(s.fs), Temp(site, f), site.abs(f.path), data);
  }

  lemma WritesAndRenames(
    site: Site, jobs: seq<Job>, strict: bool, s: State, g: nat, f: FileEntry, hash: string, data: Bytes)
    returns (t: State)
    requires FsOk(s.fs) && g < |s.syncs| <= |jobs| && Smooth(site, jobs[g], f, hash, data)
    requires s.syncs[g].Fetching? && s.syncs[g].i == 0 && s.syncs[g].ok && s.syncs[g].k == 0
    requires s.syncs[g].off == 0 && Temp(site, f) in s.fs.names && s.fs.names[Temp(site, f)] == s.syncs[g].fd
    requires View(s.fs)[Temp(site, f)] == []
    ensures Reach(Rel(site, jobs, strict), s, t) && FsOk(t.fs) && t.index == s.index
    ensures t.syncs == s.syncs[g := Removing(s.syncs[g].prev, 0, true)]
    ensures View(t.fs) == (View(s.fs)[Temp(site, f) := data] - {Temp(site, f)})[site.abs(f.path) := data]
  {
    var u := Writes(site, jobs, strict, s, g, f, hash, data);
    t := Renames(site, jobs, strict, u, g, f, hash, data);
    ReachOn(Rel(site, jobs, strict), s, u, t);
  }

  lemma ThroughTemp(disk: Disk, temp: string, abs: string, data: Bytes)
    requires temp !in disk && temp != abs
    ensures (disk[temp := []][temp := data] - {temp})[abs := data] == disk[abs := data]
  {
  }

  // Two clean syncs that take turns on the disk, of which the older one, past its last system
  // call when the newer one starts, stores its index last: the newer manifest's chunk is on disk
  // and is not served.
  lemma LateIndexWins(site: Site, jobs: seq<Job>, f: FileEntry, hash: string, d: Bytes)
    returns (b: seq<State>, steps: seq<Step>)
    requires |jobs| == 2 && CleanRun(site, map[], jobs) && jobs[0].m.files == []
    requires !jobs[0].env.superseded && jobs[0].env.persist.Full? && site.parse(jobs[0].raw) == Some(jobs[0].m)
    requires Smooth(site, jobs[1], f, hash, d)
    ensures |b| > 0 && CleanTurns(site, jobs, b, steps, |b| - 1)
    ensures var t := b[|b| - 1];
      && FsOk(t.fs) && t.index == IndexOf(site, jobs[0])
      && Lists(jobs[1].m.files, hash) && Served(View(t.fs), t.index, hash).NoChunk?
  {
    var t := LateIndexReached(site, jobs, f, hash, d);
    b, steps := ReachedByRun(site, jobs, true, t);
    assert View(EMPTY.fs) == map[];
    assert hash in jobs[1].m.files[0].chunkHashes;
  }

  lemma LateIndexReached(site: Site, jobs: seq<Job>, f: FileEntry, hash: string, d: Bytes) returns (t: State)
    requires |jobs| == 2 && jobs[0].m.files == [] && Smooth(site, jobs[1], f, hash, d)
    requires !jobs[0].env.superseded && jobs[0].env.persist.Full? && site.parse(jobs[0].raw) == Some(jobs[0].m)
    ensures Reach(Rel(site, jobs, true), EMPTY, t) && FsOk(t.fs)
    ensures t.syncs == [Ended(true, false), Ended(true, false)] && t.index == IndexOf(site, jobs[0])
  {
    var rel := Rel(site, jobs, true);
    var s := EmptyPasses(site, jobs, true, EMPTY);
    t := Records(site, jobs, true, s, 0);
    ReachOn(rel, EMPTY, s, t);
    s := t;
    assert View(s.fs) == map[site.statePath := jobs[0].raw];
    t := SecondSyncs(site, jobs, s, f, hash, d);
    ReachOn(rel, EMPTY, s, t);
    s := t;
    t := Ends(site, jobs, true, s, 0);
    ReachOn(rel, EMPTY, s, t);
  }

  // ---- An index that is behind the disk ----

  // Between the rename of a newer version of a file and the store of its index, the old index
  // leads into the new bytes: a peer that asks for the old chunk gets the new one.
  lemma StaleIndexMisleads(
    site: Site, jobs: seq<Job>, f: FileEntry, g: FileEntry, hash: string, newer: string, d: Bytes, e: Bytes)
    returns (b: seq<State>, steps: seq<Step>)
    requires |jobs| == 2 && Smooth(site, jobs[0], f, hash, d) && Smooth(site, jobs[1], g, newer, e)
    requires site.parse(jobs[0].raw) == Some(jobs[0].m) && f.path == g.path && hash != newer
    requires f.size == |d| == |e| && f.size <= f.chunkSize && !HashMatches(site, e, hash)
    ensures Run(site, jobs, b, steps) && InTurn(jobs, b, steps)
    ensures var t := b[|b| - 1];
      FsOk(t.fs) && t.index == IndexOf(site, jobs[0]) && Served(View(t.fs), t.index, hash) == Chunk(e)
  {
    var t := StaleIndexReached(site, jobs, f, g, hash, newer, d, e);
    IndexOfOne(site, jobs[0], f, hash);
    assert e[0..|e|] == e;
    b, steps := ReachedByRun(site, jobs, true, t);
  }

  lemma StaleIndexReached(
    site: Site, jobs: seq<Job>, f: FileEntry, g: FileEntry, hash: string, newer: string, d: Bytes, e: Bytes)
    returns (t: State)
    requires |jobs| == 2 && Smooth(site, jobs[0], f, hash, d) && Smooth(site, jobs[1], g, newer, e)
    requires site.parse(jobs[0].raw) == Some(jobs[0].m) && f.path == g.path && hash != newer
    ensures Reach(Rel(site, jobs, true), EMPTY, t) && FsOk(t.fs) && t.index == IndexOf(site, jobs[0])
    ensures site.abs(f.path) in View(t.fs) && View(t.fs)[site.abs(f.path)] == e
  {
    assert |Temp(site, f)| > |site.abs(f.path)|;
    var rel := Rel(site, jobs, true);
    var s := FirstPasses(site, jobs, true, f, hash, d);
    t := Finishes(site, jobs, true, s, 0);
    ReachOn(rel, EMPTY, s, t);
    s := t;
    OnlyWanted(jobs[0], f);
    var prev := map[f.path := f];
    assert PrevFiles(site, View(s.fs)) == prev;
    t := SecondRenames(site, jobs, s, prev, g, newer, e);
    ReachOn(rel, EMPTY, s, t);
  }

  lemma IndexOfOne(site: Site, job: Job, f: FileEntry, hash: string)
    requires job.m.files == [f] && f.chunkHashes == [hash] && 0 <= f.size <= f.chunkSize
    ensures IndexOf(site, job) == map[hash := Loc(site.abs(f.path), 0, f.size)]
  {
    var none: Index := map[];
    assert Indexed(site, job.m.files, 0) == none;
    assert FileIndexed(site, none, f, 0) == none;
    assert SizeAt(f, 0) == f.size && OffsetAt(f, 0) == 0;
  }
}
