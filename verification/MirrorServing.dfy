// Serving chunks while syncs overlap: the stored index is that of the last sync to store one,
// whichever manifest that is.
module MirrorServing {
  import opened Common
  import opened Manifests
  import opened FileSystem
  import opened Mirror
  import opened ChunkIndex
  import opened MirrorRace
  import opened MirrorOverlap

  // ---- Which index is stored ----

  // Step j stores an index, and no later step before i does.
  ghost predicate LastStore(b: seq<State>, steps: seq<Step>, i: nat, j: nat) {
    && j < i <= |steps| < |b| && Stores(b[j], steps[j])
    && (forall k: nat :: j < k < i ==> !Stores(b[k], steps[k]))
  }

  ghost predicate NoStore(b: seq<State>, steps: seq<Step>, i: nat) {
    i <= |steps| < |b| && forall k: nat :: k < i ==> !Stores(b[k], steps[k])
  }

  lemma IndexAfter(site: Site, jobs: seq<Job>, s: State, step: Step)
    requires Can(jobs, s, step)
    ensures Next(site, jobs, s, step).index ==
      if Stores(s, step) then IndexOf(site, jobs[step.g]) else s.index
  {
  }

  // In every run the index is that of the last sync to store one, and empty before.
  lemma {:induction false} IndexIsLastStored(
    site: Site, jobs: seq<Job>, b: seq<State>, steps: seq<Step>, i: nat) returns (j: nat)
    requires Run(site, jobs, b, steps) && i < |b|
    ensures if LastStore(b, steps, i, j) then steps[j].g < |jobs| && b[i].index == IndexOf(site, jobs[steps[j].g])
      else NoStore(b, steps, i) && b[i].index == map[]
  {
    j := 0;
    if i > 0 {
      j := IndexIsLastStored(site, jobs, b, steps, i - 1);
      assert Follows(site, jobs, b, steps, i - 1);
      IndexAfter(site, jobs, b[i - 1], steps[i - 1]);
      if Stores(b[i - 1], steps[i - 1]) {
        j := i - 1;
      }
    }
  }

  // Past the store of its index.
  predicate Stored(pc: Pc) {
    pc.Announcing? || pc.Ended?
  }

  ghost predicate AllStored(s: State) {
    forall h :: 0 <= h < |s.syncs| ==> Stored(s.syncs[h])
  }

  predicate Succeeded(pc: Pc) {
    pc == Announcing(true) || pc == Ended(true, false)
  }

  lemma SucceedsByStoring(site: Site, jobs: seq<Job>, s: State, step: Step, g: nat)
    requires Can(jobs, s, step) && g < |Next(site, jobs, s, step).syncs|
    requires Succeeded(Next(site, jobs, s, step).syncs[g])
    ensures g < |s.syncs| && (Succeeded(s.syncs[g]) || (step == Act(g) && Stores(s, step)))
  {
  }

  // A sync that has succeeded has stored its index.
  lemma {:induction false} SucceededHasStored(
    site: Site, jobs: seq<Job>, b: seq<State>, steps: seq<Step>, i: nat, g: nat) returns (j: nat)
    requires Run(site, jobs, b, steps) && i < |b| && g < |b[i].syncs| && Succeeded(b[i].syncs[g])
    ensures j < i && steps[j] == Act(g) && Stores(b[j], steps[j])
  {
    assert i > 0;
    assert Follows(site, jobs, b, steps, i - 1);
    SucceedsByStoring(site, jobs, b[i - 1], steps[i - 1], g);
    if steps[i - 1] == Act(g) && Stores(b[i - 1], steps[i - 1]) {
      j := i - 1;
    } else {
      j := SucceededHasStored(site, jobs, b, steps, i - 1, g);
    }
  }

  // ---- Exactly when the newest manifest is served ----

  // Where the index of a manifest puts chunk k of its file f.
  function LocOf(site: Site, f: FileEntry, k: nat): (loc: Loc) {
    Loc(site.abs(f.path), OffsetAt(f, k), SizeAt(f, k))
  }

  // What the publisher cut into f has bytes of that hash at the location.
  ghost predicate HasThere(site: Site, f: FileEntry, loc: Loc, hash: string) {
    && site.abs(f.path) == loc.path && 0 <= loc.offset && 0 <= loc.size && loc.offset + loc.size <= f.size
    && exists pieces :: Cut(site, f, pieces) &&
         HashMatches(site, Flatten(pieces)[loc.offset..loc.offset + loc.size], hash)
  }

  ghost predicate SomeHasThere(site: Site, files: seq<FileEntry>, loc: Loc, hash: string) {
    exists j :: 0 <= j < |files| && HasThere(site, files[j], loc, hash)
  }

  // Every file of that place ends before the location does.
  ghost predicate NoneReaches(site: Site, files: seq<FileEntry>, loc: Loc) {
    loc.offset < 0 || forall j :: 0 <= j < |files| && site.abs(files[j].path) == loc.path ==>
      loc.size >= 0 && loc.offset + loc.size > files[j].size
  }

  // The older manifest was still serves for the newest one, files: a condition on the two
  // manifests and what the publisher cut.  A hash listed now was listed then, and where it was
  // listed last a file of the newest manifest has its bytes; where a hash listed only then was
  // listed last, no file of the newest manifest reaches.
  ghost predicate StillGood(site: Site, was: seq<FileEntry>, files: seq<FileEntry>) {
    forall hash :: StillGoodFor(site, was, files, hash)
  }

  ghost predicate StillGoodFor(site: Site, was: seq<FileEntry>, files: seq<FileEntry>, hash: string) {
    if Lists(files, hash)
    then exists i: nat, k: nat ::
      LastHashAt(was, |was|, i, k, hash) && SomeHasThere(site, files, LocOf(site, was[i], k), hash)
    else forall i: nat, k: nat ::
      LastHashAt(was, |was|, i, k, hash) ==> NoneReaches(site, files, LocOf(site, was[i], k))
  }

  lemma LastIsUnique(files: seq<FileEntry>, n: nat, i: nat, k: nat, j: nat, l: nat, hash: string)
    requires n <= |files| && LastHashAt(files, n, i, k, hash) && LastHashAt(files, n, j, l, hash)
    ensures i == j && k == l
  {
  }

  // A file on disk that was verified is what the publisher cut.
  lemma DiskIsPublished(site: Site, disk: Disk, f: FileEntry, pieces: seq<Bytes>)
    requires CollisionFree(site) && OnDisk(site, disk, f) && Cut(site, f, pieces)
    ensures disk[site.abs(f.path)] == Flatten(pieces) && |disk[site.abs(f.path)]| == f.size
  {
    var stored :| Chunked(site, stored, f.chunkHashes) && Flatten(stored) == disk[site.abs(f.path)];
    PiecesAreUnique(site, pieces, stored, f.chunkHashes);
  }

  // The disk holds the manifest files and nothing else but the state.
  ghost predicate Exactly(site: Site, disk: Disk, files: seq<FileEntry>) {
    && AllOnDisk(site, disk, files) && AllWellCut(site, files)
    && (forall p :: p in disk && p != site.statePath ==> Places(site, files, p))
  }

  lemma ReadableInFile(site: Site, disk: Disk, f: FileEntry, loc: Loc, hash: string)
    requires CollisionFree(site) && OnDisk(site, disk, f) && WellCut(site, f) && site.abs(f.path) == loc.path
    ensures Readable(site, disk, hash, loc) <==> HasThere(site, f, loc, hash)
  {
    forall pieces | Cut(site, f, pieces)
      ensures disk[loc.path] == Flatten(pieces) && |disk[loc.path]| == f.size
    {
      DiskIsPublished(site, disk, f, pieces);
    }
    var pieces :| Cut(site, f, pieces);
  }

  lemma ReadableExactlyWhen(site: Site, disk: Disk, files: seq<FileEntry>, loc: Loc, hash: string)
    requires CollisionFree(site) && Exactly(site, disk, files) && loc.path != site.statePath
    ensures Readable(site, disk, hash, loc) <==> SomeHasThere(site, files, loc, hash)
  {
    forall j | 0 <= j < |files| && site.abs(files[j].path) == loc.path
      ensures Readable(site, disk, hash, loc) <==> HasThere(site, files[j], loc, hash)
    {
      ReadableInFile(site, disk, files[j], loc, hash);
    }
    if loc.path in disk {
      var j :| 0 <= j < |files| && site.abs(files[j].path) == loc.path;
      assert HasThere(site, files[j], loc, hash) ==> SomeHasThere(site, files, loc, hash);
    }
  }

  // Nothing is found at the location.
  predicate Misses(disk: Disk, loc: Loc) {
    loc.path !in disk || loc.offset < 0 || (loc.size >= 0 && loc.offset + loc.size > |disk[loc.path]|)
  }

  lemma MissesExactlyWhen(site: Site, disk: Disk, files: seq<FileEntry>, loc: Loc)
    requires CollisionFree(site) && Exactly(site, disk, files) && loc.path != site.statePath
    ensures Misses(disk, loc) <==> NoneReaches(site, files, loc)
  {
    forall j | 0 <= j < |files|
      ensures site.abs(files[j].path) in disk && |disk[site.abs(files[j].path)]| == files[j].size
    {
      var pieces :| Cut(site, files[j], pieces);
      DiskIsPublished(site, disk, files[j], pieces);
    }
    if loc.path in disk {
      var j :| 0 <= j < |files| && site.abs(files[j].path) == loc.path;
    }
  }

  lemma AnswersExactlyWhen(site: Site, disk: Disk, was: seq<FileEntry>, files: seq<FileEntry>, hash: string)
    requires CollisionFree(site) && Exactly(site, disk, files) && WellPlaced(site, was)
    ensures Answers(site, disk, Indexed(site, was, |was|), files, hash) <==> StillGoodFor(site, was, files, hash)
  {
    var idx := Indexed(site, was, |was|);
    var i, k := IndexedIsLast(site, was, |was|, hash);
    ServedExactlyWhen(site, disk, idx, hash);
    if hash in idx {
      ReadableExactlyWhen(site, disk, files, idx[hash], hash);
      MissesExactlyWhen(site, disk, files, idx[hash]);
      LastDecides(site, was, files, i, k, hash);
    } else {
      assert forall i: nat, k: nat :: !LastHashAt(was, |was|, i, k, hash);
    }
  }

  lemma LastDecides(site: Site, was: seq<FileEntry>, files: seq<FileEntry>, i: nat, k: nat, hash: string)
    requires LastHashAt(was, |was|, i, k, hash)
    ensures StillGoodFor(site, was, files, hash) <==>
      if Lists(files, hash) then SomeHasThere(site, files, LocOf(site, was[i], k), hash)
      else NoneReaches(site, files, LocOf(site, was[i], k))
  {
    forall j: nat, l: nat | LastHashAt(was, |was|, j, l, hash)
      ensures i == j && k == l
    {
      LastIsUnique(was, |was|, i, k, j, l, hash);
    }
  }

  lemma ServesExactlyWhen(site: Site, disk: Disk, was: seq<FileEntry>, files: seq<FileEntry>)
    requires CollisionFree(site) && Exactly(site, disk, files) && WellPlaced(site, was)
    ensures ServesManifest(site, disk, Indexed(site, was, |was|), files) <==> StillGood(site, was, files)
  {
    forall hash
      ensures Answers(site, disk, Indexed(site, was, |was|), files, hash) <==> StillGoodFor(site, was, files, hash)
    {
      AnswersExactlyWhen(site, disk, was, files, hash);
    }
  }

  lemma {:induction false} CleanRunIsPlaced(site: Site, jobs: seq<Job>, g: nat)
    requires CleanRun(site, map[], jobs) && g < |jobs|
    ensures WellPlaced(site, jobs[g].m.files)
  {
    if g < |jobs| - 1 {
      CleanRunIsPlaced(site, jobs[..|jobs| - 1], g);
    }
  }

  // ---- Reading the condition off the lists ----

  lemma {:induction false} FullBefore(site: Site, f: FileEntry, pieces: seq<Bytes>, k: nat)
    requires Cut(site, f, pieces) && k < |pieces|
    ensures OffsetAt(f, k) == k * f.chunkSize
  {
    if k > 0 {
      FullBefore(site, f, pieces, k - 1);
      OffsetsFollowPieces(site, f, pieces, k - 1);
    }
  }

  // Where the two versions of a file are cut alike up to chunk k, what the location of chunk k
  // holds is decided by the two lists of hashes alone.
  lemma CutAlikeIsSameHash(site: Site, f: FileEntry, g: FileEntry, k: nat)
    requires CollisionFree(site) && WellCut(site, f) && WellCut(site, g) && site.abs(f.path) == site.abs(g.path)
    requires f.chunkSize == g.chunkSize && k < |f.chunkHashes| && k < |g.chunkHashes|
    requires SizeAt(f, k) == SizeAt(g, k)
    ensures HasThere(site, g, LocOf(site, f, k), f.chunkHashes[k]) <==>
      site.lower(f.chunkHashes[k]) == site.lower(g.chunkHashes[k])
  {
    var before :| Cut(site, f, before);
    FullBefore(site, f, before, k);
    var after :| Cut(site, g, after);
    FullBefore(site, g, after, k);
    assert LocOf(site, f, k) == LocOf(site, g, k);
    OwnPiece(site, g, after, k, f.chunkHashes[k]);
  }

  lemma OwnPiece(site: Site, g: FileEntry, pieces: seq<Bytes>, k: nat, hash: string)
    requires CollisionFree(site) && Cut(site, g, pieces) && k < |g.chunkHashes|
    ensures HasThere(site, g, LocOf(site, g, k), hash) <==> site.lower(hash) == site.lower(g.chunkHashes[k])
  {
    forall others | Cut(site, g, others)
      ensures others == pieces
    {
      PiecesAreUnique(site, pieces, others, g.chunkHashes);
    }
    PieceThere(site, g, pieces, k);
    assert HashMatches(site, pieces[k], g.chunkHashes[k]);
    assert HashMatches(site, pieces[k], hash) <==> site.lower(hash) == site.lower(g.chunkHashes[k]);
  }

  lemma PieceThere(site: Site, f: FileEntry, pieces: seq<Bytes>, k: nat)
    requires Cut(site, f, pieces) && k < |pieces|
    ensures 0 <= OffsetAt(f, k) && 0 <= SizeAt(f, k) && OffsetAt(f, k) + SizeAt(f, k) <= f.size
    ensures Flatten(pieces)[OffsetAt(f, k)..OffsetAt(f, k) + SizeAt(f, k)] == pieces[k]
  {
    OffsetsFollowPieces(site, f, pieces, k);
    FlattenSplit(pieces, k);
  }

  // The setting: a run of clean syncs that take turns, from an empty directory, each past the
  // store of its index.
  ghost predicate CleanTurns(site: Site, jobs: seq<Job>, b: seq<State>, steps: seq<Step>, i: nat) {
    && Run(site, jobs, b, steps) && InTurn(jobs, b, steps) && i < |b| && AllStored(b[i])
    && View(b[0].fs) == map[] && |b[i].syncs| == |jobs| && jobs != [] && CleanRun(site, map[], jobs)
  }

  lemma StoredSucceeds(site: Site, job: Job, disk: Disk, fs: Fs, pc: Pc)
    requires FsOk(fs) && Stored(pc) && InStep(site, job, EVERYWHERE, disk, fs, pc)
    requires var out := Synced(site, job.env, disk, job.raw, job.m); out.complete && !out.aborted
    ensures Succeeded(pc)
  {
  }

  lemma LastTurnSucceeded(site: Site, jobs: seq<Job>, s: State, c: nat)
    requires Turns(site, jobs, map[], s, c) && AllStored(s) && |s.syncs| == |jobs| && jobs != []
    requires CleanRun(site, map[], jobs)
    ensures Succeeded(s.syncs[|jobs| - 1])
  {
    AllTurnsTaken(site, jobs, map[], s, c);
    CleanSyncCompletes(site, jobs);
    StoredSucceeds(site, jobs[c - 1], DiskAfter(site, map[], jobs[..c - 1]), s.fs, s.syncs[c - 1]);
  }

  lemma NewestSucceeded(site: Site, jobs: seq<Job>, b: seq<State>, steps: seq<Step>, i: nat)
    requires CleanTurns(site, jobs, b, steps, i)
    ensures Succeeded(b[i].syncs[|jobs| - 1])
  {
    RunTakesTurns(site, jobs, b, steps, i);
    var c: nat :| Turns(site, jobs, map[], b[i], c);
    LastTurnSucceeded(site, jobs, b[i], c);
  }

  lemma CleanSyncCompletes(site: Site, jobs: seq<Job>)
    requires jobs != [] && CleanRun(site, map[], jobs)
    ensures var n := |jobs| - 1;
      var out := Synced(site, jobs[n].env, DiskAfter(site, map[], jobs[..n]), jobs[n].raw, jobs[n].m);
      out.complete && !out.aborted
  {
  }

  lemma SomeStoredLast(site: Site, jobs: seq<Job>, b: seq<State>, steps: seq<Step>, i: nat) returns (j: nat)
    requires CleanTurns(site, jobs, b, steps, i)
    ensures LastStore(b, steps, i, j) && steps[j].g < |jobs| && b[i].index == IndexOf(site, jobs[steps[j].g])
  {
    NewestSucceeded(site, jobs, b, steps, i);
    var k := SucceededHasStored(site, jobs, b, steps, i, |jobs| - 1);
    j := IndexIsLastStored(site, jobs, b, steps, i);
  }

  lemma DiskIsAsAfterAll(site: Site, jobs: seq<Job>, b: seq<State>, steps: seq<Step>, i: nat)
    requires CleanTurns(site, jobs, b, steps, i)
    ensures FsOk(b[i].fs) && View(b[i].fs) == DiskAfter(site, map[], jobs)
  {
    InTurnIsSequential(site, jobs, b, steps, i);
    assert jobs[..|jobs|] == jobs;
  }

  // Of clean syncs one after another, with the index of any of them.
  lemma IndexServesExactlyWhen(site: Site, jobs: seq<Job>, g: nat)
    requires CollisionFree(site) && CleanRun(site, map[], jobs) && g < |jobs|
    requires AllWellCut(site, jobs[|jobs| - 1].m.files)
    ensures var disk, files := DiskAfter(site, map[], jobs), jobs[|jobs| - 1].m.files;
      && (ServesManifest(site, disk, IndexOf(site, jobs[g]), files) <==> StillGood(site, jobs[g].m.files, files))
      && (g == |jobs| - 1 ==> ServesManifest(site, disk, IndexOf(site, jobs[g]), files))
  {
    CleanRunMirrors(site, jobs);
    CleanRunIsPlaced(site, jobs, g);
    ServesExactlyWhen(site, DiskAfter(site, map[], jobs), jobs[g].m.files, jobs[|jobs| - 1].m.files);
    CleanRunServes(site, jobs);
  }

  // Some sync was the last to store its index, and the node serves the newest manifest if and
  // only if that sync's manifest is still good for it; in particular if it is the newest itself.
  lemma InTurnRunServesExactlyWhen(
    site: Site, jobs: seq<Job>, b: seq<State>, steps: seq<Step>, i: nat) returns (j: nat)
    requires CleanTurns(site, jobs, b, steps, i) && CollisionFree(site)
    requires AllWellCut(site, jobs[|jobs| - 1].m.files)
    ensures FsOk(b[i].fs) && LastStore(b, steps, i, j) && steps[j].g < |jobs|
    ensures var g, files := steps[j].g, jobs[|jobs| - 1].m.files;
      && (ServesManifest(site, View(b[i].fs), b[i].index, files) <==> StillGood(site, jobs[g].m.files, files))
      && (g == |jobs| - 1 ==> ServesManifest(site, View(b[i].fs), b[i].index, files))
  {
    j := SomeStoredLast(site, jobs, b, steps, i);
    DiskIsAsAfterAll(site, jobs, b, steps, i);
    IndexServesExactlyWhen(site, jobs, steps[j].g);
  }
}
