// mirror.go: overlapping syncs.  Every accepted manifest starts its own sync on a goroutine, and
// all of them work on the same directory.  One step is one system call or one look at the
// generation counter; steps of all syncs interleave freely.  The environment of a sync (module
// Mirror) foretells what its sources and the file system will answer and what its checks of the
// generation will see; a check can only be taken when what it sees is what was foretold.
module MirrorRace {
  import opened Common
  import opened Manifests
  import opened FileSystem
  import opened Mirror
  import opened ChunkIndex

  // Where a sync stands.
  datatype Pc =
    | Loading                                                         // about to read the old list
    | Deleting(prev: map<string, FileEntry>, todo: set<string>)       // removing what is not wanted
    | AtFile(prev: map<string, FileEntry>, i: nat, ok: bool)          // check before file i, or the last one
    | Opening(prev: map<string, FileEntry>, i: nat, ok: bool)         // about to create the temporary
    | AtChunk(prev: map<string, FileEntry>, i: nat, ok: bool, fd: nat, off: nat, k: nat)  // check, or rename
    | Fetching(prev: map<string, FileEntry>, i: nat, ok: bool, fd: nat, off: nat, k: nat) // fetch and write
    | Removing(prev: map<string, FileEntry>, i: nat, ok: bool)        // the deferred removal
    | Recording(ok: bool)                                             // about to open the state file
    | Writing(fd: nat, ok: bool)                                      // about to write the state
    | Indexing(ok: bool)                                              // about to store the chunk index, if ok
    | Announcing(ok: bool)
    | Ended(complete: bool, aborted: bool)

  // syncs[g] is the sync of the g-th accepted manifest; the last one is of the current generation.
  // index is what ServeChunk looks hashes up in.
  datatype State = State(fs: Fs, syncs: seq<Pc>, index: Index)

  datatype Step = Accept | Delete(g: nat, p: string) | Act(g: nat)

  predicate Superseded(s: State, g: nat) {
    g + 1 != |s.syncs|
  }

  // The places and contents a step relies on exist, and a check sees what was foretold.
  predicate Ready(job: Job, fs: Fs, pc: Pc, superseded: bool) {
    var files, e := job.m.files, job.env;
    match pc
    case Loading => true
    case Deleting(_, todo) => todo == {}
    case AtFile(_, i, _) =>
      i <= |files| && superseded == if i < |files| then e.files(i).superseded else e.superseded
    case Opening(_, i, _) => i < |files|
    case AtChunk(_, i, _, _, _, k) =>
      && i < |files| && k <= |files[i].chunkHashes|
      && (k < |files[i].chunkHashes| ==> superseded == e.files(i).chunks(k).superseded)
    case Fetching(_, i, _, fd, _, k) => i < |files| && k < |files[i].chunkHashes| && fd < |fs.data|
    case Removing(_, i, _) => i < |files|
    case Recording(_) => true
    case Writing(fd, _) => fd < |fs.data|
    case Indexing(_) => true
    case Announcing(_) => true
    case Ended(_, _) => false
  }

  function Wanted(job: Job): (r: set<string>) {
    FileMap(job.m.files, |job.m.files|).Keys
  }

  ghost function ActFile(site: Site, job: Job, fs: Fs, pc: Pc): (r: (Fs, Pc))
    requires FsOk(fs) && (pc.AtFile? || pc.Opening? || pc.Removing?)
    requires pc.i <= |job.m.files| && (!pc.AtFile? ==> pc.i < |job.m.files|)
    ensures FsOk(r.0)
  {
    var files, e := job.m.files, job.env;
    match pc
    case AtFile(prev, i, ok) =>
      if i == |files| then (fs, if e.superseded then Ended(false, true) else Recording(ok))
      else if e.files(i).superseded then (fs, Ended(false, true))
      else if Skips(prev, files[i]) then (fs, AtFile(prev, i + 1, ok))
      else (fs, Opening(prev, i, ok))
    case Opening(prev, i, ok) =>
      if !e.files(i).createOk then (fs, AtFile(prev, i + 1, false))
      else
        var (after, fd) := Create(fs, Temp(site, files[i]));
        (after, AtChunk(prev, i, ok, fd, 0, 0))
    case Removing(prev, i, ok) => (Remove(fs, Temp(site, files[i])), AtFile(prev, i + 1, ok))
  }

  ghost function ActChunk(site: Site, job: Job, fs: Fs, pc: Pc): (r: (Fs, Pc))
    requires FsOk(fs) && (pc.AtChunk? || pc.Fetching?)
    requires pc.i < |job.m.files| && pc.k <= |job.m.files[pc.i].chunkHashes|
    requires pc.Fetching? ==> pc.k < |job.m.files[pc.i].chunkHashes| && pc.fd < |fs.data|
    ensures FsOk(r.0)
  {
    var f, e := job.m.files[pc.i], job.env.files(pc.i);
    match pc
    case AtChunk(prev, i, ok, fd, off, k) =>
      if k < |f.chunkHashes| then
        (fs, if e.chunks(k).superseded then Removing(prev, i, false) else Fetching(prev, i, ok, fd, off, k))
      else if !e.renameOk || Temp(site, f) !in fs.names then (fs, Removing(prev, i, false))
      else (Rename(fs, Temp(site, f), site.abs(f.path)), Removing(prev, i, ok))
    case Fetching(prev, i, ok, fd, off, k) =>
      var got := Fetched(site, e.chunks(k), f.chunkHashes[k]);
      if got.None? || !e.chunks(k).writeOk then (fs, Removing(prev, i, false))
      else (WriteAt(fs, fd, off, got.value), AtChunk(prev, i, ok, fd, off + |got.value|, k + 1))
  }

  // What one step of a sync does to the file system and to the sync.
  ghost function Acted(site: Site, job: Job, fs: Fs, pc: Pc, superseded: bool): (r: (Fs, Pc))
    requires FsOk(fs) && Ready(job, fs, pc, superseded)
    ensures FsOk(r.0)
  {
    match pc
    case Loading =>
      var prev := PrevFiles(site, View(fs));
      (fs, Deleting(prev, prev.Keys - Wanted(job)))
    case Deleting(prev, _) => (fs, AtFile(prev, 0, true))
    case AtFile(_, _, _) => ActFile(site, job, fs, pc)
    case Opening(_, _, _) => ActFile(site, job, fs, pc)
    case AtChunk(_, _, _, _, _, _) => ActChunk(site, job, fs, pc)
    case Fetching(_, _, _, _, _, _) => ActChunk(site, job, fs, pc)
    case Removing(_, _, _) => ActFile(site, job, fs, pc)
    case Recording(ok) =>
      if job.env.persist.Unopened? then (fs, Indexing(ok))
      else
        var (after, fd) := Create(fs, site.statePath);
        (after, Writing(fd, ok))
    case Writing(fd, ok) => (WriteAt(fs, fd, 0, Saved(job)), Indexing(ok))
    case Indexing(ok) => (fs, Announcing(ok))
    case Announcing(ok) => (fs, Ended(ok, false))
  }

  // The bytes of the state that get written.
  function Saved(job: Job): (r: Bytes) {
    match job.env.persist
    case Unopened => []
    case Partial(n) => job.raw[..Min(n, |job.raw|)]
    case Full => job.raw
  }

  ghost predicate Can(jobs: seq<Job>, s: State, step: Step) {
    && FsOk(s.fs) && |s.syncs| <= |jobs|
    && match step
       case Accept => |s.syncs| < |jobs|
       case Delete(g, p) => g < |s.syncs| && s.syncs[g].Deleting? && p in s.syncs[g].todo
       case Act(g) => g < |s.syncs| && Ready(jobs[g], s.fs, s.syncs[g], Superseded(s, g))
  }

  ghost function Next(site: Site, jobs: seq<Job>, s: State, step: Step): (t: State)
    requires Can(jobs, s, step)
    ensures FsOk(t.fs)
  {
    match step
    case Accept => s.(syncs := s.syncs + [Loading])
    case Delete(g, p) =>
      var pc := s.syncs[g];
      State(if jobs[g].env.deleteOk(p) then Remove(s.fs, site.abs(p)) else s.fs,
            s.syncs[g := pc.(todo := pc.todo - {p})], s.index)
    case Act(g) =>
      var (fs, pc) := Acted(site, jobs[g], s.fs, s.syncs[g], Superseded(s, g));
      State(fs, s.syncs[g := pc], if Stores(s, step) then IndexOf(site, jobs[g]) else s.index)
  }

  // A sync without failures stores its chunk index; nobody looks at the generation here.
  predicate Stores(s: State, step: Step) {
    step.Act? && step.g < |s.syncs| && s.syncs[step.g] == Indexing(true)
  }

  function IndexOf(site: Site, job: Job): (r: Index) {
    Indexed(site, job.m.files, |job.m.files|)
  }

  ghost predicate Follows(site: Site, jobs: seq<Job>, b: seq<State>, steps: seq<Step>, i: nat)
    requires i < |steps| && |b| == |steps| + 1
  {
    Can(jobs, b[i], steps[i]) && b[i + 1] == Next(site, jobs, b[i], steps[i])
  }

  // A run from any directory and no syncs.
  ghost predicate Run(site: Site, jobs: seq<Job>, b: seq<State>, steps: seq<Step>) {
    && |b| == |steps| + 1 && FsOk(b[0].fs) && b[0].syncs == [] && b[0].index == map[]
    && forall i: nat :: i < |steps| ==> Follows(site, jobs, b, steps, i)
  }

  predicate By(step: Step, g: nat) {
    !step.Accept? && step.g == g
  }

  // ---- A sync in step with what Mirror.Synced computes, on the places in f ----

  ghost function ProgressAt(site: Site, job: Job, disk: Disk, i: nat): (r: Progress)
    requires i <= |job.m.files|
  {
    var prev := PrevFiles(site, disk);
    FilesSynced(site, job.env, prev, disk - Doomed(site, job.env, prev.Keys, Wanted(job)), job.m.files, i)
  }

  // p leads to the file fd, whose bytes are w.
  ghost predicate Leads(fs: Fs, p: string, fd: nat, w: Bytes)
    requires FsOk(fs)
  {
    p in fs.names && fs.names[p] == fd && View(fs)[p] == w
  }

  ghost predicate InDeleting(site: Site, job: Job, f: iset<string>, disk: Disk, fs: Fs, pc: Pc)
    requires FsOk(fs) && pc.Deleting?
  {
    && pc.prev == PrevFiles(site, disk) && pc.todo <= pc.prev.Keys - Wanted(job)
    && Same(f, View(fs), disk - Doomed(site, job.env, pc.prev.Keys - pc.todo, Wanted(job)))
  }

  // The files before i are done, and i is the next one.
  ghost predicate InFile(site: Site, job: Job, disk: Disk, pc: Pc)
    requires pc.AtFile? || pc.Opening? || pc.AtChunk? || pc.Fetching?
  {
    && pc.prev == PrevFiles(site, disk) && pc.i <= |job.m.files|
    && ProgressAt(site, job, disk, pc.i).ok == pc.ok && !ProgressAt(site, job, disk, pc.i).aborted
    && (!pc.AtFile? ==>
          pc.i < |job.m.files| && !job.env.files(pc.i).superseded && !Skips(pc.prev, job.m.files[pc.i]))
  }

  // k chunks of file i are in the temporary, and nothing else has changed.
  ghost predicate InChunk(site: Site, job: Job, f: iset<string>, disk: Disk, fs: Fs, pc: Pc)
    requires FsOk(fs) && (pc.AtChunk? || pc.Fetching?) && pc.i < |job.m.files|
  {
    var file, e := job.m.files[pc.i], job.env.files(pc.i);
    && e.createOk && pc.k <= |file.chunkHashes|
    && (pc.Fetching? ==> pc.k < |file.chunkHashes| && !e.chunks(pc.k).superseded)
    && Same(f - iset{Temp(site, file)}, View(fs), ProgressAt(site, job, disk, pc.i).disk)
    && Assembled(site, e, file.chunkHashes, pc.k).Some?
    && var w := Assembled(site, e, file.chunkHashes, pc.k).value;
       pc.off == |w| && Leads(fs, Temp(site, file), pc.fd, w)
  }

  // File i is done but for the removal of its temporary.
  ghost predicate InRemoving(site: Site, job: Job, f: iset<string>, disk: Disk, fs: Fs, pc: Pc)
    requires FsOk(fs) && pc.Removing?
  {
    && pc.prev == PrevFiles(site, disk) && pc.i < |job.m.files|
    && var p := ProgressAt(site, job, disk, pc.i + 1);
       && p.ok == pc.ok && !p.aborted && Temp(site, job.m.files[pc.i]) !in p.disk
       && Same(f - iset{Temp(site, job.m.files[pc.i])}, View(fs), p.disk)
  }

  ghost predicate InRecording(site: Site, job: Job, f: iset<string>, disk: Disk, fs: Fs, pc: Pc)
    requires FsOk(fs) && (pc.Recording? || pc.Writing?)
  {
    var p := ProgressAt(site, job, disk, |job.m.files|);
    && p.ok == pc.ok && !p.aborted && !job.env.superseded
    && if pc.Recording? then Same(f, View(fs), p.disk)
       else
         && !job.env.persist.Unopened? && Same(f - iset{site.statePath}, View(fs), p.disk)
         && (site.statePath in f ==> Leads(fs, site.statePath, pc.fd, []))
         && (forall q :: q in f && q in fs.names && q != site.statePath ==> fs.names[q] != pc.fd)
  }

  ghost predicate InEnd(site: Site, job: Job, f: iset<string>, disk: Disk, fs: Fs, pc: Pc)
    requires FsOk(fs) && (pc.Indexing? || pc.Announcing? || pc.Ended?)
  {
    var out := Synced(site, job.env, disk, job.raw, job.m);
    && Same(f, View(fs), out.disk)
    && if !pc.Ended? then out.complete == pc.ok && !out.aborted
       else out.complete == pc.complete && out.aborted == pc.aborted
  }

  ghost predicate InStep(site: Site, job: Job, f: iset<string>, disk: Disk, fs: Fs, pc: Pc)
    requires FsOk(fs)
  {
    match pc
    case Loading => false
    case Deleting(_, _) => InDeleting(site, job, f, disk, fs, pc)
    case AtFile(_, i, _) => InFile(site, job, disk, pc) && Same(f, View(fs), ProgressAt(site, job, disk, i).disk)
    case Opening(_, i, _) => InFile(site, job, disk, pc) && Same(f, View(fs), ProgressAt(site, job, disk, i).disk)
    case AtChunk(_, _, _, _, _, _) => InFile(site, job, disk, pc) && InChunk(site, job, f, disk, fs, pc)
    case Fetching(_, _, _, _, _, _) => InFile(site, job, disk, pc) && InChunk(site, job, f, disk, fs, pc)
    case Removing(_, _, _) => InRemoving(site, job, f, disk, fs, pc)
    case Recording(_) => InRecording(site, job, f, disk, fs, pc)
    case Writing(_, _) => InRecording(site, job, f, disk, fs, pc)
    case Indexing(_) => InEnd(site, job, f, disk, fs, pc)
    case Announcing(_) => InEnd(site, job, f, disk, fs, pc)
    case Ended(_, _) => InEnd(site, job, f, disk, fs, pc)
  }

  // f contains the places and temporaries of the manifest.
  ghost predicate Covers(site: Site, job: Job, f: iset<string>) {
    forall i :: 0 <= i < |job.m.files| ==> site.abs(job.m.files[i].path) in f && Temp(site, job.m.files[i]) in f
  }

  // ---- Each step keeps a sync in step ----

  lemma LoadInStep(site: Site, job: Job, f: iset<string>, fs: Fs)
    requires FsOk(fs)
    ensures var (after, pc) := Acted(site, job, fs, Loading, false);
      after == fs && InStep(site, job, f, View(fs), after, pc)
  {
    var prev := PrevFiles(site, View(fs));
    var todo := prev.Keys - Wanted(job);
    assert Doomed(site, job.env, prev.Keys - todo, Wanted(job)) == {};
    assert View(fs) - {} == View(fs);
  }

  lemma DeleteInStep(site: Site, job: Job, f: iset<string>, disk: Disk, fs: Fs, pc: Pc, p: string)
    requires FsOk(fs) && pc.Deleting? && p in pc.todo && InDeleting(site, job, f, disk, fs, pc)
    ensures var after := if job.env.deleteOk(p) then Remove(fs, site.abs(p)) else fs;
      InDeleting(site, job, f, disk, after, pc.(todo := pc.todo - {p}))
  {
    var done := pc.prev.Keys - pc.todo;
    assert pc.prev.Keys - (pc.todo - {p}) == done + {p};
    DoomedMore(site, job.env, done, p, Wanted(job));
    SameMinus(f, View(fs), disk, Doomed(site, job.env, done, Wanted(job)), site.abs(p));
  }

  lemma DeletedInStep(site: Site, job: Job, f: iset<string>, disk: Disk, fs: Fs, pc: Pc)
    requires FsOk(fs) && pc.Deleting? && pc.todo == {} && InDeleting(site, job, f, disk, fs, pc)
    ensures InStep(site, job, f, disk, fs, AtFile(pc.prev, 0, true))
  {
    assert pc.prev.Keys - {} == pc.prev.Keys;
  }

  lemma AtFileInStep(site: Site, job: Job, f: iset<string>, disk: Disk, fs: Fs, pc: Pc)
    requires FsOk(fs) && pc.AtFile? && InStep(site, job, f, disk, fs, pc) && pc.i < |job.m.files|
    ensures var (after, next) := ActFile(site, job, fs, pc); InStep(site, job, f, disk, after, next)
  {
    if job.env.files(pc.i).superseded {
      AbortedThere(site, job, disk, pc.i);
    }
  }

  lemma AbortedThere(site: Site, job: Job, disk: Disk, i: nat)
    requires i < |job.m.files| && job.env.files(i).superseded && !ProgressAt(site, job, disk, i).aborted
    ensures var out := Synced(site, job.env, disk, job.raw, job.m);
      out == Outcome(ProgressAt(site, job, disk, i).disk, false, true)
  {
    var prev := PrevFiles(site, disk);
    var start := disk - Doomed(site, job.env, prev.Keys, Wanted(job));
    AbortSticks(site, job.env, prev, start, job.m.files, i + 1, |job.m.files|);
  }

  lemma LastCheckInStep(site: Site, job: Job, f: iset<string>, disk: Disk, fs: Fs, pc: Pc)
    requires FsOk(fs) && pc.AtFile? && InStep(site, job, f, disk, fs, pc) && pc.i == |job.m.files|
    ensures var (after, next) := ActFile(site, job, fs, pc); InStep(site, job, f, disk, after, next)
  {
  }

  lemma NextProgress(site: Site, job: Job, disk: Disk, i: nat)
    requires i < |job.m.files| && !ProgressAt(site, job, disk, i).aborted && !job.env.files(i).superseded
    requires !Skips(PrevFiles(site, disk), job.m.files[i])
    ensures var p := ProgressAt(site, job, disk, i);
      var (after, ok) := FileSynced(site, job.env.files(i), p.disk, job.m.files[i]);
      ProgressAt(site, job, disk, i + 1) == Progress(after, p.ok && ok, false)
  {
  }

  lemma NotOpenedInStep(site: Site, job: Job, f: iset<string>, disk: Disk, fs: Fs, pc: Pc)
    requires FsOk(fs) && pc.Opening? && InFile(site, job, disk, pc) && !job.env.files(pc.i).createOk
    requires Same(f, View(fs), ProgressAt(site, job, disk, pc.i).disk)
    ensures InFile(site, job, disk, AtFile(pc.prev, pc.i + 1, false))
    ensures Same(f, View(fs), ProgressAt(site, job, disk, pc.i + 1).disk)
  {
    NextProgress(site, job, disk, pc.i);
  }

  lemma OpenedInStep(site: Site, job: Job, f: iset<string>, disk: Disk, fs: Fs, pc: Pc)
    requires FsOk(fs) && pc.Opening? && InFile(site, job, disk, pc) && job.env.files(pc.i).createOk
    requires Same(f, View(fs), ProgressAt(site, job, disk, pc.i).disk)
    ensures var (after, fd) := Create(fs, Temp(site, job.m.files[pc.i]));
      var next := AtChunk(pc.prev, pc.i, pc.ok, fd, 0, 0);
      InFile(site, job, disk, next) && InChunk(site, job, f, disk, after, next)
  {
    SameCreated(f, fs, Temp(site, job.m.files[pc.i]), ProgressAt(site, job, disk, pc.i).disk);
  }

  lemma RemoveInStep(site: Site, job: Job, f: iset<string>, disk: Disk, fs: Fs, pc: Pc)
    requires FsOk(fs) && pc.Removing? && InRemoving(site, job, f, disk, fs, pc)
    ensures var (after, next) := ActFile(site, job, fs, pc); InStep(site, job, f, disk, after, next)
  {
    var p := ProgressAt(site, job, disk, pc.i + 1);
    SameRemoved(f, fs, Temp(site, job.m.files[pc.i]), p.disk);
  }

  // A file that fails after its temporary was created leaves the others alone.
  lemma FailedInStep(site: Site, job: Job, f: iset<string>, disk: Disk, fs: Fs, pc: Pc)
    requires FsOk(fs) && (pc.AtChunk? || pc.Fetching?) && InFile(site, job, disk, pc)
    requires InChunk(site, job, f, disk, fs, pc)
    requires !FileSynced(site, job.env.files(pc.i), ProgressAt(site, job, disk, pc.i).disk, job.m.files[pc.i]).1
    ensures InRemoving(site, job, f, disk, fs, Removing(pc.prev, pc.i, false))
  {
    NextProgress(site, job, disk, pc.i);
  }

  lemma ChunkFailed(site: Site, job: Job, f: iset<string>, disk: Disk, fs: Fs, pc: Pc)
    requires FsOk(fs) && (pc.AtChunk? || pc.Fetching?) && InFile(site, job, disk, pc)
    requires InChunk(site, job, f, disk, fs, pc) && pc.k < |job.m.files[pc.i].chunkHashes|
    requires Assembled(site, job.env.files(pc.i), job.m.files[pc.i].chunkHashes, pc.k + 1).None?
    ensures InRemoving(site, job, f, disk, fs, Removing(pc.prev, pc.i, false))
  {
    var hashes := job.m.files[pc.i].chunkHashes;
    FailureSticks(site, job.env.files(pc.i), hashes, pc.k + 1, |hashes|);
    FailedInStep(site, job, f, disk, fs, pc);
  }

  lemma RenamedInStep(site: Site, job: Job, f: iset<string>, disk: Disk, fs: Fs, pc: Pc)
    requires FsOk(fs) && pc.AtChunk? && InFile(site, job, disk, pc) && InChunk(site, job, f, disk, fs, pc)
    requires pc.k == |job.m.files[pc.i].chunkHashes| && job.env.files(pc.i).renameOk
    ensures var file := job.m.files[pc.i];
      var after := Rename(fs, Temp(site, file), site.abs(file.path));
      InRemoving(site, job, f, disk, after, Removing(pc.prev, pc.i, pc.ok))
  {
    var file, e := job.m.files[pc.i], job.env.files(pc.i);
    var w := Assembled(site, e, file.chunkHashes, pc.k).value;
    NextProgress(site, job, disk, pc.i);
    SameRenamed(f, fs, Temp(site, file), site.abs(file.path), ProgressAt(site, job, disk, pc.i).disk, w);
    assert |Temp(site, file)| > |site.abs(file.path)|;
  }

  lemma FetchedInStep(site: Site, job: Job, f: iset<string>, disk: Disk, fs: Fs, pc: Pc, data: Bytes)
    requires FsOk(fs) && pc.Fetching? && InFile(site, job, disk, pc) && InChunk(site, job, f, disk, fs, pc)
    requires Fetched(site, job.env.files(pc.i).chunks(pc.k), job.m.files[pc.i].chunkHashes[pc.k]) == Some(data)
    requires job.env.files(pc.i).chunks(pc.k).writeOk
    ensures pc.fd < |fs.data|
    ensures var next := AtChunk(pc.prev, pc.i, pc.ok, pc.fd, pc.off + |data|, pc.k + 1);
      InFile(site, job, disk, next) && InChunk(site, job, f, disk, WriteAt(fs, pc.fd, pc.off, data), next)
  {
    var temp := Temp(site, job.m.files[pc.i]);
    SameWritten(f, fs, temp, pc.off, data, ProgressAt(site, job, disk, pc.i).disk);
    WriteShows(fs, temp, pc.off, data);
  }

  lemma RecordInStep(site: Site, job: Job, f: iset<string>, disk: Disk, fs: Fs, ok: bool)
    requires FsOk(fs) && InRecording(site, job, f, disk, fs, Recording(ok))
    ensures var (after, next) := Acted(site, job, fs, Recording(ok), false); InStep(site, job, f, disk, after, next)
  {
    if !job.env.persist.Unopened? {
      SameCreated(f, fs, site.statePath, ProgressAt(site, job, disk, |job.m.files|).disk);
    }
  }

  lemma WriteInStep(site: Site, job: Job, f: iset<string>, disk: Disk, fs: Fs, pc: Pc)
    requires FsOk(fs) && pc.Writing? && pc.fd < |fs.data| && InRecording(site, job, f, disk, fs, pc)
    ensures InEnd(site, job, f, disk, WriteAt(fs, pc.fd, 0, Saved(job)), Indexing(pc.ok))
  {
    var d := ProgressAt(site, job, disk, |job.m.files|).disk;
    SameOverwritten(f, fs, site.statePath, pc.fd, Saved(job), d);
    assert Synced(site, job.env, disk, job.raw, job.m).disk == d[site.statePath := Saved(job)];
  }

  lemma ActFileInStep(site: Site, job: Job, f: iset<string>, disk: Disk, fs: Fs, pc: Pc)
    requires FsOk(fs) && (pc.AtFile? || pc.Opening? || pc.Removing?) && InStep(site, job, f, disk, fs, pc)
    ensures var (after, next) := ActFile(site, job, fs, pc); InStep(site, job, f, disk, after, next)
  {
    match pc
    case AtFile(_, i, _) =>
      if i < |job.m.files| {
        AtFileInStep(site, job, f, disk, fs, pc);
      } else {
        LastCheckInStep(site, job, f, disk, fs, pc);
      }
    case Opening(_, i, _) =>
      if job.env.files(i).createOk {
        OpenedInStep(site, job, f, disk, fs, pc);
      } else {
        NotOpenedInStep(site, job, f, disk, fs, pc);
      }
    case Removing(_, _, _) => RemoveInStep(site, job, f, disk, fs, pc);
  }

  lemma AtChunkInStep(site: Site, job: Job, f: iset<string>, disk: Disk, fs: Fs, pc: Pc)
    requires FsOk(fs) && pc.AtChunk? && InFile(site, job, disk, pc) && InChunk(site, job, f, disk, fs, pc)
    ensures var (after, next) := ActChunk(site, job, fs, pc); InStep(site, job, f, disk, after, next)
  {
    var file, e := job.m.files[pc.i], job.env.files(pc.i);
    if pc.k < |file.chunkHashes| {
      if e.chunks(pc.k).superseded {
        ChunkFailed(site, job, f, disk, fs, pc);
      }
    } else if e.renameOk {
      RenamedInStep(site, job, f, disk, fs, pc);
    } else {
      FailedInStep(site, job, f, disk, fs, pc);
    }
  }

  lemma FetchFails(site: Site, job: Job, f: iset<string>, disk: Disk, fs: Fs, pc: Pc)
    requires FsOk(fs) && pc.Fetching? && InFile(site, job, disk, pc) && InChunk(site, job, f, disk, fs, pc)
    requires job.env.files(pc.i).chunks(pc.k).writeOk ==>
      Fetched(site, job.env.files(pc.i).chunks(pc.k), job.m.files[pc.i].chunkHashes[pc.k]).None?
    ensures InRemoving(site, job, f, disk, fs, Removing(pc.prev, pc.i, false))
  {
    ChunkFailed(site, job, f, disk, fs, pc);
  }

  lemma FetchInStep(site: Site, job: Job, f: iset<string>, disk: Disk, fs: Fs, pc: Pc)
    requires FsOk(fs) && pc.Fetching? && InFile(site, job, disk, pc) && InChunk(site, job, f, disk, fs, pc)
    requires pc.fd < |fs.data|
    ensures var (after, next) := ActChunk(site, job, fs, pc); InStep(site, job, f, disk, after, next)
  {
    var e := job.env.files(pc.i).chunks(pc.k);
    var got := Fetched(site, e, job.m.files[pc.i].chunkHashes[pc.k]);
    if got.None? || !e.writeOk {
      FetchFails(site, job, f, disk, fs, pc);
    } else {
      FetchedInStep(site, job, f, disk, fs, pc, got.value);
    }
  }

  lemma ActInStep(site: Site, job: Job, f: iset<string>, disk: Disk, fs: Fs, pc: Pc, superseded: bool)
    requires FsOk(fs) && InStep(site, job, f, disk, fs, pc) && Ready(job, fs, pc, superseded)
    ensures var (after, next) := Acted(site, job, fs, pc, superseded); InStep(site, job, f, disk, after, next)
  {
    match pc
    case Deleting(_, _) => DeletedInStep(site, job, f, disk, fs, pc);
    case AtFile(_, _, _) => ActFileInStep(site, job, f, disk, fs, pc);
    case Opening(_, _, _) => ActFileInStep(site, job, f, disk, fs, pc);
    case AtChunk(_, _, _, _, _, _) => AtChunkInStep(site, job, f, disk, fs, pc);
    case Fetching(_, _, _, _, _, _) => FetchInStep(site, job, f, disk, fs, pc);
    case Removing(_, _, _) => ActFileInStep(site, job, f, disk, fs, pc);
    case Recording(ok) => RecordInStep(site, job, f, disk, fs, ok);
    case Writing(_, _) => WriteInStep(site, job, f, disk, fs, pc);
    case Indexing(_) =>
    case Announcing(_) =>
  }

  lemma UntouchedChunk(site: Site, job: Job, f: iset<string>, disk: Disk, fs: Fs, after: Fs, pc: Pc)
    requires FsOk(fs) && FsOk(after) && Covers(site, job, f) && Untouched(f, fs, after)
    requires (pc.AtChunk? || pc.Fetching?) && pc.i < |job.m.files| && InChunk(site, job, f, disk, fs, pc)
    ensures InChunk(site, job, f, disk, after, pc)
  {
    var temp := Temp(site, job.m.files[pc.i]);
    assert temp in f;
    SameThrough(f, fs, after, f - iset{temp}, ProgressAt(site, job, disk, pc.i).disk);
  }

  lemma UntouchedRecord(site: Site, job: Job, f: iset<string>, disk: Disk, fs: Fs, after: Fs, pc: Pc)
    requires FsOk(fs) && FsOk(after) && Untouched(f, fs, after)
    requires (pc.Recording? || pc.Writing?) && InRecording(site, job, f, disk, fs, pc)
    ensures InRecording(site, job, f, disk, after, pc)
  {
    var d := ProgressAt(site, job, disk, |job.m.files|).disk;
    SameThrough(f, fs, after, if pc.Recording? then f else f - iset{site.statePath}, d);
  }

  // A step that leaves the places in f alone leaves the sync in step.
  lemma UntouchedInStep(site: Site, job: Job, f: iset<string>, disk: Disk, fs: Fs, after: Fs, pc: Pc)
    requires FsOk(fs) && FsOk(after) && InStep(site, job, f, disk, fs, pc) && Covers(site, job, f)
    requires Untouched(f, fs, after)
    ensures InStep(site, job, f, disk, after, pc)
  {
    match pc
    case Deleting(_, _) =>
      SameThrough(f, fs, after, f, disk - Doomed(site, job.env, pc.prev.Keys - pc.todo, Wanted(job)));
    case AtFile(_, i, _) => SameThrough(f, fs, after, f, ProgressAt(site, job, disk, i).disk);
    case Opening(_, i, _) => SameThrough(f, fs, after, f, ProgressAt(site, job, disk, i).disk);
    case AtChunk(_, _, _, _, _, _) => UntouchedChunk(site, job, f, disk, fs, after, pc);
    case Fetching(_, _, _, _, _, _) => UntouchedChunk(site, job, f, disk, fs, after, pc);
    case Removing(_, i, _) =>
      SameThrough(f, fs, after, f - iset{Temp(site, job.m.files[i])}, ProgressAt(site, job, disk, i + 1).disk);
    case Recording(_) => UntouchedRecord(site, job, f, disk, fs, after, pc);
    case Writing(_, _) => UntouchedRecord(site, job, f, disk, fs, after, pc);
    case Indexing(_) => SameThrough(f, fs, after, f, Synced(site, job.env, disk, job.raw, job.m).disk);
    case Announcing(_) => SameThrough(f, fs, after, f, Synced(site, job.env, disk, job.raw, job.m).disk);
    case Ended(_, _) => SameThrough(f, fs, after, f, Synced(site, job.env, disk, job.raw, job.m).disk);
  }
}
