// One file of one sync among overlapping ones: what becomes of it is decided by its own place and
// its own temporary.
module MirrorLocal {
  import opened Common
  import opened Manifests
  import opened FileSystem
  import opened Mirror
  import opened MirrorRace
  import opened MirrorOverlap

  function Place(site: Site, job: Job, i: nat): (p: string)
    requires i < |job.m.files|
  {
    site.abs(job.m.files[i].path)
  }

  function TempOf(site: Site, job: Job, i: nat): (p: string)
    requires i < |job.m.files|
    ensures p != Place(site, job, i)
  {
    assert |Temp(site, job.m.files[i])| > |site.abs(job.m.files[i].path)|;
    Temp(site, job.m.files[i])
  }

  ghost function Own(site: Site, job: Job, i: nat): (f: iset<string>)
    requires i < |job.m.files|
  {
    iset{Place(site, job, i), TempOf(site, job, i)}
  }

  // p does not lead to the file fd.
  ghost predicate Apart(fs: Fs, p: string, fd: nat) {
    p in fs.names ==> fs.names[p] != fd
  }

  // File i is on disk exactly when the first k files, none of which failed, leave it there.
  ghost predicate Right(site: Site, job: Job, disk: Disk, fs: Fs, k: nat, i: nat)
    requires FsOk(fs) && k <= |job.m.files| && i < |job.m.files|
  {
    var prev := PrevFiles(site, disk);
    var start := disk - Doomed(site, job.env, prev.Keys, Wanted(job));
    OnDisk(site, View(fs), job.m.files[i]) <==> Placed(site, prev, start, job.m.files, k, i)
  }

  ghost predicate LocalFile(site: Site, job: Job, disk: Disk, fs: Fs, pc: Pc, i: nat)
    requires FsOk(fs) && i < |job.m.files| && (pc.AtFile? || pc.Opening?)
  {
    && pc.prev == PrevFiles(site, disk) && pc.i <= |job.m.files|
    && (pc.Opening? ==> pc.i < |job.m.files| && !Skips(pc.prev, job.m.files[pc.i]))
    && (pc.ok ==> Right(site, job, disk, fs, pc.i, i))
  }

  // While file i itself is written, its temporary leads to the open file, which holds the chunks
  // so far; while another one is, its place does not lead to the open file, unless it is that
  // one's temporary and about to be destroyed.
  ghost predicate LocalChunk(site: Site, job: Job, disk: Disk, fs: Fs, pc: Pc, i: nat)
    requires FsOk(fs) && i < |job.m.files| && (pc.AtChunk? || pc.Fetching?)
  {
    && pc.prev == PrevFiles(site, disk) && pc.i < |job.m.files| && !Skips(pc.prev, job.m.files[pc.i])
    && pc.k <= |job.m.files[pc.i].chunkHashes|
    && (pc.Fetching? ==> pc.k < |job.m.files[pc.i].chunkHashes| && !job.env.files(pc.i).chunks(pc.k).superseded)
    && if pc.i == i then LocalOwn(site, job, fs, pc)
       else TempOf(site, job, pc.i) != Place(site, job, i) ==>
         Apart(fs, Place(site, job, i), pc.fd) && (pc.ok ==> Right(site, job, disk, fs, pc.i, i))
  }

  ghost predicate LocalOwn(site: Site, job: Job, fs: Fs, pc: Pc)
    requires FsOk(fs) && (pc.AtChunk? || pc.Fetching?)
    requires pc.i < |job.m.files| && pc.k <= |job.m.files[pc.i].chunkHashes|
  {
    var got := Assembled(site, job.env.files(pc.i), job.m.files[pc.i].chunkHashes, pc.k);
    got.Some? && pc.off == |got.value| && Leads(fs, TempOf(site, job, pc.i), pc.fd, got.value)
  }

  ghost predicate LocalRemoving(site: Site, job: Job, disk: Disk, fs: Fs, pc: Pc, i: nat)
    requires FsOk(fs) && i < |job.m.files| && pc.Removing?
  {
    && pc.prev == PrevFiles(site, disk) && pc.i < |job.m.files|
    && (pc.ok ==> Right(site, job, disk, fs, pc.i + 1, i))
    && (pc.ok && TempOf(site, job, pc.i) == Place(site, job, i) ==> Place(site, job, i) !in fs.names)
  }

  ghost predicate LocalEnd(site: Site, job: Job, disk: Disk, fs: Fs, pc: Pc, i: nat)
    requires FsOk(fs) && i < |job.m.files|
  {
    match pc
    case Recording(ok) => ok ==> Right(site, job, disk, fs, |job.m.files|, i)
    case Writing(fd, ok) => Apart(fs, Place(site, job, i), fd) && (ok ==> Right(site, job, disk, fs, |job.m.files|, i))
    case Indexing(ok) => ok ==> Right(site, job, disk, fs, |job.m.files|, i)
    case Announcing(ok) => ok ==> Right(site, job, disk, fs, |job.m.files|, i)
    case Ended(complete, _) => complete ==> Right(site, job, disk, fs, |job.m.files|, i)
    case _ => true
  }

  ghost predicate Local(site: Site, job: Job, disk: Disk, fs: Fs, pc: Pc, i: nat)
    requires FsOk(fs) && i < |job.m.files|
  {
    if pc.Loading? then false
    else if pc.Deleting? then InDeleting(site, job, iset{Place(site, job, i)}, disk, fs, pc)
    else if pc.AtFile? || pc.Opening? then LocalFile(site, job, disk, fs, pc, i)
    else if pc.AtChunk? || pc.Fetching? then LocalChunk(site, job, disk, fs, pc, i)
    else if pc.Removing? then LocalRemoving(site, job, disk, fs, pc, i)
    else LocalEnd(site, job, disk, fs, pc, i)
  }

  // ---- What keeps file i as it is ----

  // Nothing at p changes.
  ghost predicate Spared(fs: Fs, after: Fs, p: string)
    requires FsOk(fs) && FsOk(after)
  {
    && (p in fs.names <==> p in after.names)
    && (p in fs.names ==> fs.names[p] == after.names[p] && View(fs)[p] == View(after)[p])
  }

  lemma RightThrough(site: Site, job: Job, disk: Disk, fs: Fs, after: Fs, k: nat, i: nat)
    requires FsOk(fs) && FsOk(after) && k <= |job.m.files| && i < |job.m.files|
    requires Spared(fs, after, Place(site, job, i)) && Right(site, job, disk, fs, k, i)
    ensures Right(site, job, disk, after, k, i)
  {
  }

  lemma CreateElsewhere(fs: Fs, q: string, p: string)
    requires FsOk(fs) && p != q
    ensures Spared(fs, Create(fs, q).0, p) && Apart(Create(fs, q).0, p, Create(fs, q).1)
  {
  }

  lemma WriteElsewhere(fs: Fs, fd: nat, off: nat, data: Bytes, p: string)
    requires FsOk(fs) && fd < |fs.data| && Apart(fs, p, fd)
    ensures Spared(fs, WriteAt(fs, fd, off, data), p)
  {
  }

  lemma RemoveElsewhere(fs: Fs, q: string, p: string)
    requires FsOk(fs) && (p != q || p !in fs.names)
    ensures Spared(fs, Remove(fs, q), p)
  {
  }

  lemma RenameElsewhere(fs: Fs, q: string, r: string, p: string)
    requires FsOk(fs) && q in fs.names && p != q && p != r
    ensures Spared(fs, Rename(fs, q, r), p)
  {
  }

  // ---- One more file ----

  lemma RightSkipped(site: Site, job: Job, disk: Disk, fs: Fs, k: nat, i: nat)
    requires FsOk(fs) && k < |job.m.files| && i < |job.m.files| && Right(site, job, disk, fs, k, i)
    requires Skips(PrevFiles(site, disk), job.m.files[k])
    ensures Right(site, job, disk, fs, k + 1, i)
  {
    var prev := PrevFiles(site, disk);
    PlacedStep(site, prev, disk - Doomed(site, job.env, prev.Keys, Wanted(job)), job.m.files, k + 1, i);
  }

  // Another file k was written: file i is as before, or destroyed by that one's temporary.
  lemma RightOther(site: Site, job: Job, disk: Disk, fs: Fs, k: nat, i: nat)
    requires FsOk(fs) && k < |job.m.files| && i < |job.m.files| && k != i
    requires !Skips(PrevFiles(site, disk), job.m.files[k])
    requires if TempOf(site, job, k) == Place(site, job, i) then Place(site, job, i) !in fs.names
      else Right(site, job, disk, fs, k, i)
    ensures Right(site, job, disk, fs, k + 1, i)
  {
    var prev := PrevFiles(site, disk);
    PlacedStep(site, prev, disk - Doomed(site, job.env, prev.Keys, Wanted(job)), job.m.files, k + 1, i);
  }

  lemma RightOwn(site: Site, job: Job, disk: Disk, fs: Fs, i: nat)
    requires FsOk(fs) && i < |job.m.files| && OnDisk(site, View(fs), job.m.files[i])
    requires !Skips(PrevFiles(site, disk), job.m.files[i])
    ensures Right(site, job, disk, fs, i + 1, i)
  {
    var prev := PrevFiles(site, disk);
    PlacedStep(site, prev, disk - Doomed(site, job.env, prev.Keys, Wanted(job)), job.m.files, i + 1, i);
  }

  // ---- Each step of the sync keeps the description ----

  lemma LoadIsLocal(site: Site, job: Job, fs: Fs, i: nat)
    requires FsOk(fs) && i < |job.m.files|
    ensures var (after, pc) := Acted(site, job, fs, Loading, false); Local(site, job, View(fs), after, pc, i)
  {
    LoadInStep(site, job, iset{Place(site, job, i)}, fs);
  }

  lemma DeletedIsLocal(site: Site, job: Job, disk: Disk, fs: Fs, pc: Pc, i: nat)
    requires FsOk(fs) && i < |job.m.files| && pc.Deleting? && pc.todo == {} && Local(site, job, disk, fs, pc, i)
    ensures LocalFile(site, job, disk, fs, AtFile(pc.prev, 0, true), i)
  {
    assert pc.prev.Keys - {} == pc.prev.Keys;
    assert Place(site, job, i) in iset{Place(site, job, i)};
  }

  lemma AtFileIsLocal(site: Site, job: Job, disk: Disk, fs: Fs, pc: Pc, i: nat)
    requires FsOk(fs) && i < |job.m.files| && pc.AtFile? && LocalFile(site, job, disk, fs, pc, i)
    ensures var (after, next) := ActFile(site, job, fs, pc); Local(site, job, disk, after, next, i)
  {
    if pc.i < |job.m.files| && Skips(pc.prev, job.m.files[pc.i]) && pc.ok {
      RightSkipped(site, job, disk, fs, pc.i, i);
    }
  }

  lemma OpenedIsLocal(site: Site, job: Job, disk: Disk, fs: Fs, pc: Pc, i: nat)
    requires FsOk(fs) && i < |job.m.files| && pc.Opening? && LocalFile(site, job, disk, fs, pc, i)
    ensures var (after, fd) := Create(fs, TempOf(site, job, pc.i));
      LocalChunk(site, job, disk, after, AtChunk(pc.prev, pc.i, pc.ok, fd, 0, 0), i)
  {
    var temp := TempOf(site, job, pc.i);
    if pc.i != i && temp != Place(site, job, i) {
      CreateElsewhere(fs, temp, Place(site, job, i));
      if pc.ok {
        RightThrough(site, job, disk, fs, Create(fs, temp).0, pc.i, i);
      }
    }
  }

  lemma RemovedIsLocal(site: Site, job: Job, disk: Disk, fs: Fs, pc: Pc, i: nat)
    requires FsOk(fs) && i < |job.m.files| && pc.Removing? && LocalRemoving(site, job, disk, fs, pc, i)
    ensures LocalFile(site, job, disk, Remove(fs, TempOf(site, job, pc.i)), AtFile(pc.prev, pc.i + 1, pc.ok), i)
  {
    var temp := TempOf(site, job, pc.i);
    if pc.ok {
      RemoveElsewhere(fs, temp, Place(site, job, i));
      RightThrough(site, job, disk, fs, Remove(fs, temp), pc.i + 1, i);
    }
  }

  lemma OwnRenamed(site: Site, job: Job, disk: Disk, fs: Fs, pc: Pc)
    requires FsOk(fs) && pc.AtChunk? && pc.i < |job.m.files| && pc.k == |job.m.files[pc.i].chunkHashes|
    requires LocalOwn(site, job, fs, pc)
    ensures OnDisk(site, View(Rename(fs, TempOf(site, job, pc.i), Place(site, job, pc.i))), job.m.files[pc.i])
  {
    var hashes := job.m.files[pc.i].chunkHashes;
    var pieces := AssembledIsVerified(site, job.env.files(pc.i), hashes, |hashes|);
    assert hashes[..|hashes|] == hashes;
    assert Verified(site, View(fs)[TempOf(site, job, pc.i)], hashes);
  }

  lemma RenamedIsLocal(site: Site, job: Job, disk: Disk, fs: Fs, pc: Pc, i: nat)
    requires FsOk(fs) && i < |job.m.files| && pc.AtChunk? && LocalChunk(site, job, disk, fs, pc, i)
    requires WellPlaced(site, job.m.files) && pc.k == |job.m.files[pc.i].chunkHashes|
    requires TempOf(site, job, pc.i) in fs.names
    ensures var after := Rename(fs, TempOf(site, job, pc.i), Place(site, job, pc.i));
      LocalRemoving(site, job, disk, after, Removing(pc.prev, pc.i, pc.ok), i)
  {
    var temp, own, p := TempOf(site, job, pc.i), Place(site, job, pc.i), Place(site, job, i);
    var after := Rename(fs, temp, own);
    if pc.i == i {
      OwnRenamed(site, job, disk, fs, pc);
      RightOwn(site, job, disk, after, i);
    } else {
      assert own != p;
      if temp != p && pc.ok {
        RenameElsewhere(fs, temp, own, p);
        RightThrough(site, job, disk, fs, after, pc.i, i);
      }
      if pc.ok {
        RightOther(site, job, disk, after, pc.i, i);
      }
    }
  }

  lemma OwnWritten(site: Site, job: Job, fs: Fs, pc: Pc, data: Bytes)
    requires FsOk(fs) && pc.Fetching? && pc.i < |job.m.files| && pc.k < |job.m.files[pc.i].chunkHashes|
    requires LocalOwn(site, job, fs, pc) && pc.fd < |fs.data| && !job.env.files(pc.i).chunks(pc.k).superseded
    requires Fetched(site, job.env.files(pc.i).chunks(pc.k), job.m.files[pc.i].chunkHashes[pc.k]) == Some(data)
    requires job.env.files(pc.i).chunks(pc.k).writeOk
    ensures LocalOwn(site, job, WriteAt(fs, pc.fd, pc.off, data),
                     AtChunk(pc.prev, pc.i, pc.ok, pc.fd, pc.off + |data|, pc.k + 1))
  {
    WriteShows(fs, TempOf(site, job, pc.i), pc.off, data);
  }

  lemma WrittenIsLocal(site: Site, job: Job, disk: Disk, fs: Fs, pc: Pc, i: nat, data: Bytes)
    requires FsOk(fs) && i < |job.m.files| && pc.Fetching? && LocalChunk(site, job, disk, fs, pc, i)
    requires pc.fd < |fs.data| && job.env.files(pc.i).chunks(pc.k).writeOk
    requires Fetched(site, job.env.files(pc.i).chunks(pc.k), job.m.files[pc.i].chunkHashes[pc.k]) == Some(data)
    ensures LocalChunk(site, job, disk, WriteAt(fs, pc.fd, pc.off, data),
                       AtChunk(pc.prev, pc.i, pc.ok, pc.fd, pc.off + |data|, pc.k + 1), i)
  {
    var p := Place(site, job, i);
    if pc.i == i {
      OwnWritten(site, job, fs, pc, data);
    } else if TempOf(site, job, pc.i) != p {
      WriteElsewhere(fs, pc.fd, pc.off, data, p);
      if pc.ok {
        RightThrough(site, job, disk, fs, WriteAt(fs, pc.fd, pc.off, data), pc.i, i);
      }
    }
  }

  lemma RecordingIsLocal(site: Site, job: Job, disk: Disk, fs: Fs, ok: bool, i: nat)
    requires FsOk(fs) && i < |job.m.files| && LocalEnd(site, job, disk, fs, Recording(ok), i)
    requires WellPlaced(site, job.m.files)
    ensures var (after, fd) := Create(fs, site.statePath); LocalEnd(site, job, disk, after, Writing(fd, ok), i)
  {
    CreateElsewhere(fs, site.statePath, Place(site, job, i));
    if ok {
      RightThrough(site, job, disk, fs, Create(fs, site.statePath).0, |job.m.files|, i);
    }
  }

  lemma WritingIsLocal(site: Site, job: Job, disk: Disk, fs: Fs, pc: Pc, i: nat)
    requires FsOk(fs) && i < |job.m.files| && pc.Writing? && LocalEnd(site, job, disk, fs, pc, i)
    requires pc.fd < |fs.data|
    ensures LocalEnd(site, job, disk, WriteAt(fs, pc.fd, 0, Saved(job)), Indexing(pc.ok), i)
  {
    WriteElsewhere(fs, pc.fd, 0, Saved(job), Place(site, job, i));
    if pc.ok {
      RightThrough(site, job, disk, fs, WriteAt(fs, pc.fd, 0, Saved(job)), |job.m.files|, i);
    }
  }

  lemma ActFileIsLocal(site: Site, job: Job, disk: Disk, fs: Fs, pc: Pc, i: nat)
    requires FsOk(fs) && i < |job.m.files| && (pc.AtFile? || pc.Opening? || pc.Removing?)
    requires Local(site, job, disk, fs, pc, i)
    ensures var (after, next) := ActFile(site, job, fs, pc); Local(site, job, disk, after, next, i)
  {
    if pc.AtFile? {
      AtFileIsLocal(site, job, disk, fs, pc, i);
    } else if pc.Opening? {
      OpenedIsLocal(site, job, disk, fs, pc, i);
    } else {
      RemovedIsLocal(site, job, disk, fs, pc, i);
    }
  }

  lemma AtChunkIsLocal(site: Site, job: Job, disk: Disk, fs: Fs, pc: Pc, i: nat)
    requires FsOk(fs) && i < |job.m.files| && pc.AtChunk? && LocalChunk(site, job, disk, fs, pc, i)
    requires WellPlaced(site, job.m.files)
    ensures var (after, next) := ActChunk(site, job, fs, pc); Local(site, job, disk, after, next, i)
  {
    var e, hashes := job.env.files(pc.i), job.m.files[pc.i].chunkHashes;
    if pc.k == |hashes| && e.renameOk && TempOf(site, job, pc.i) in fs.names {
      RenamedIsLocal(site, job, disk, fs, pc, i);
    }
  }

  lemma FetchingGives(site: Site, job: Job, fs: Fs, pc: Pc)
    requires FsOk(fs) && pc.Fetching? && pc.i < |job.m.files| && pc.k < |job.m.files[pc.i].chunkHashes|
    requires pc.fd < |fs.data|
    ensures var e := job.env.files(pc.i).chunks(pc.k);
      var got := Fetched(site, e, job.m.files[pc.i].chunkHashes[pc.k]);
      ActChunk(site, job, fs, pc) ==
        if got.None? || !e.writeOk then (fs, Removing(pc.prev, pc.i, false))
        else (WriteAt(fs, pc.fd, pc.off, got.value),
              AtChunk(pc.prev, pc.i, pc.ok, pc.fd, pc.off + |got.value|, pc.k + 1))
  {
  }

  lemma FetchingIsLocal(site: Site, job: Job, disk: Disk, fs: Fs, pc: Pc, i: nat)
    requires FsOk(fs) && i < |job.m.files| && pc.Fetching? && LocalChunk(site, job, disk, fs, pc, i)
    requires pc.fd < |fs.data|
    ensures var (after, next) := ActChunk(site, job, fs, pc); Local(site, job, disk, after, next, i)
  {
    FetchingGives(site, job, fs, pc);
    var e := job.env.files(pc.i).chunks(pc.k);
    var got := Fetched(site, e, job.m.files[pc.i].chunkHashes[pc.k]);
    if got.None? || !e.writeOk {
      assert LocalRemoving(site, job, disk, fs, Removing(pc.prev, pc.i, false), i);
    } else {
      WrittenIsLocal(site, job, disk, fs, pc, i, got.value);
    }
  }

  lemma ActIsLocal(site: Site, job: Job, disk: Disk, fs: Fs, pc: Pc, superseded: bool, i: nat)
    requires FsOk(fs) && i < |job.m.files| && Local(site, job, disk, fs, pc, i)
    requires Ready(job, fs, pc, superseded) && WellPlaced(site, job.m.files)
    ensures var (after, next) := Acted(site, job, fs, pc, superseded); Local(site, job, disk, after, next, i)
  {
    match pc
    case Deleting(_, _) => DeletedIsLocal(site, job, disk, fs, pc, i);
    case AtFile(_, _, _) => ActFileIsLocal(site, job, disk, fs, pc, i);
    case Opening(_, _, _) => ActFileIsLocal(site, job, disk, fs, pc, i);
    case AtChunk(_, _, _, _, _, _) => AtChunkIsLocal(site, job, disk, fs, pc, i);
    case Fetching(_, _, _, _, _, _) => FetchingIsLocal(site, job, disk, fs, pc, i);
    case Removing(_, _, _) => ActFileIsLocal(site, job, disk, fs, pc, i);
    case Recording(ok) => RecordingIsLocal(site, job, disk, fs, ok, i);
    case Writing(_, _) => WritingIsLocal(site, job, disk, fs, pc, i);
    case Indexing(_) =>
    case Announcing(_) =>
  }

  // ---- Steps of others ----

  lemma OthersKeepLocal(site: Site, job: Job, disk: Disk, fs: Fs, after: Fs, pc: Pc, i: nat)
    requires FsOk(fs) && FsOk(after) && i < |job.m.files| && Local(site, job, disk, fs, pc, i)
    requires Untouched(Own(site, job, i), fs, after)
    ensures Local(site, job, disk, after, pc, i)
  {
    var p := Place(site, job, i);
    assert p in Own(site, job, i) && TempOf(site, job, i) in Own(site, job, i);
    assert Spared(fs, after, p);
    if pc.Deleting? {
      SameThrough(Own(site, job, i), fs, after, iset{p},
                  disk - Doomed(site, job.env, pc.prev.Keys - pc.todo, Wanted(job)));
    } else if pc.AtFile? || pc.Opening? {
      OthersKeepFile(site, job, disk, fs, after, pc, i);
    } else if pc.AtChunk? || pc.Fetching? {
      OthersKeepChunk(site, job, disk, fs, after, pc, i);
    } else if pc.Removing? {
      if pc.ok {
        RightThrough(site, job, disk, fs, after, pc.i + 1, i);
      }
    } else {
      OthersKeepEnd(site, job, disk, fs, after, pc, i);
    }
  }

  lemma OthersKeepFile(site: Site, job: Job, disk: Disk, fs: Fs, after: Fs, pc: Pc, i: nat)
    requires FsOk(fs) && FsOk(after) && i < |job.m.files| && (pc.AtFile? || pc.Opening?)
    requires LocalFile(site, job, disk, fs, pc, i) && Spared(fs, after, Place(site, job, i))
    ensures LocalFile(site, job, disk, after, pc, i)
  {
    if pc.ok {
      RightThrough(site, job, disk, fs, after, pc.i, i);
    }
  }

  lemma OthersKeepChunk(site: Site, job: Job, disk: Disk, fs: Fs, after: Fs, pc: Pc, i: nat)
    requires FsOk(fs) && FsOk(after) && i < |job.m.files| && (pc.AtChunk? || pc.Fetching?)
    requires LocalChunk(site, job, disk, fs, pc, i) && Untouched(Own(site, job, i), fs, after)
    requires Spared(fs, after, Place(site, job, i))
    ensures LocalChunk(site, job, disk, after, pc, i)
  {
    assert Place(site, job, i) in Own(site, job, i) && TempOf(site, job, i) in Own(site, job, i);
    if pc.i != i && TempOf(site, job, pc.i) != Place(site, job, i) && pc.ok {
      RightThrough(site, job, disk, fs, after, pc.i, i);
    }
  }

  lemma OthersKeepEnd(site: Site, job: Job, disk: Disk, fs: Fs, after: Fs, pc: Pc, i: nat)
    requires FsOk(fs) && FsOk(after) && i < |job.m.files| && LocalEnd(site, job, disk, fs, pc, i)
    requires Untouched(Own(site, job, i), fs, after) && Spared(fs, after, Place(site, job, i))
    ensures LocalEnd(site, job, disk, after, pc, i)
  {
    assert Place(site, job, i) in Own(site, job, i);
    if Right(site, job, disk, fs, |job.m.files|, i) {
      RightThrough(site, job, disk, fs, after, |job.m.files|, i);
    }
  }

  // ---- The law ----

  lemma StepKeepsLocal(site: Site, jobs: seq<Job>, s: State, step: Step, g: nat, i: nat, disk: Disk)
    requires Can(jobs, s, step) && g < |s.syncs| && i < |jobs[g].m.files| && WellPlaced(site, jobs[g].m.files)
    requires Local(site, jobs[g], disk, s.fs, s.syncs[g], i)
    requires By(step, g) || Untouched(Own(site, jobs[g], i), s.fs, Next(site, jobs, s, step).fs)
    ensures var t := Next(site, jobs, s, step);
      g < |t.syncs| && Local(site, jobs[g], disk, t.fs, t.syncs[g], i)
  {
    if step.Accept? {
    } else if step.g != g {
      OthersKeepLocal(site, jobs[g], disk, s.fs, Next(site, jobs, s, step).fs, s.syncs[g], i);
    } else if step.Delete? {
      DeleteInStep(site, jobs[g], iset{Place(site, jobs[g], i)}, disk, s.fs, s.syncs[g], step.p);
    } else {
      ActIsLocal(site, jobs[g], disk, s.fs, s.syncs[g], Superseded(s, g), i);
    }
  }

  ghost predicate LocalAt(site: Site, jobs: seq<Job>, b: seq<State>, g: nat, i: nat, disk: Disk, k: nat) {
    && k < |b| && FsOk(b[k].fs) && g < |jobs| && g < |b[k].syncs| && i < |jobs[g].m.files|
    && Local(site, jobs[g], disk, b[k].fs, b[k].syncs[g], i)
  }

  lemma LocalStart(site: Site, jobs: seq<Job>, b: seq<State>, steps: seq<Step>, g: nat, lo: nat, i: nat)
    requires Run(site, jobs, b, steps) && StartsAt(b, steps, g, lo) && g < |jobs| && i < |jobs[g].m.files|
    ensures LocalAt(site, jobs, b, g, i, View(b[lo].fs), lo + 1)
  {
    assert Follows(site, jobs, b, steps, lo);
    LoadIsLocal(site, jobs[g], b[lo].fs, i);
  }

  lemma LocalStep(
    site: Site, jobs: seq<Job>, b: seq<State>, steps: seq<Step>, g: nat, lo: nat, k: nat, hi: nat, i: nat, disk: Disk)
    requires Run(site, jobs, b, steps) && lo < k < hi < |b| && LocalAt(site, jobs, b, g, i, disk, k)
    requires WellPlaced(site, jobs[g].m.files) && Undisturbed(b, steps, g, lo, hi, Own(site, jobs[g], i))
    ensures LocalAt(site, jobs, b, g, i, disk, k + 1)
  {
    assert Follows(site, jobs, b, steps, k);
    StepKeepsLocal(site, jobs, b[k], steps[k], g, i, disk);
  }

  lemma LocalThroughout(
    site: Site, jobs: seq<Job>, b: seq<State>, steps: seq<Step>, g: nat, lo: nat, hi: nat, i: nat)
    requires Run(site, jobs, b, steps) && StartsAt(b, steps, g, lo) && lo < hi < |b|
    requires g < |jobs| && i < |jobs[g].m.files| && WellPlaced(site, jobs[g].m.files)
    requires Undisturbed(b, steps, g, lo, hi, Own(site, jobs[g], i))
    ensures LocalAt(site, jobs, b, g, i, View(b[lo].fs), hi)
  {
    var disk := View(b[lo].fs);
    LocalStart(site, jobs, b, steps, g, lo, i);
    forall k: nat | lo < k < hi && LocalAt(site, jobs, b, g, i, disk, k)
      ensures LocalAt(site, jobs, b, g, i, disk, k + 1)
    {
      LocalStep(site, jobs, b, steps, g, lo, k, hi, i, disk);
    }
    Along((k: nat) => LocalAt(site, jobs, b, g, i, disk, k), lo + 1, hi);
  }

  // A sync that ends complete, overlapped by any number of others: if none of them touched the
  // place and the temporary of file i in the meantime, whatever they did to its other files, file
  // i is verified on disk at that moment if and only if it survives.
  lemma OverlappedCompleteMeansOnDisk(
    site: Site, jobs: seq<Job>, b: seq<State>, steps: seq<Step>, g: nat, lo: nat, hi: nat, i: nat)
    requires Run(site, jobs, b, steps) && StartsAt(b, steps, g, lo) && lo < hi < |b|
    requires g < |jobs| && i < |jobs[g].m.files| && WellPlaced(site, jobs[g].m.files)
    requires Undisturbed(b, steps, g, lo, hi, Own(site, jobs[g], i))
    requires FsOk(b[hi].fs) && g < |b[hi].syncs| && b[hi].syncs[g] == Ended(true, false)
    ensures OnDisk(site, View(b[hi].fs), jobs[g].m.files[i]) <==>
      Survives(site, jobs[g].env, View(b[lo].fs), jobs[g].m.files, i)
  {
    LocalThroughout(site, jobs, b, steps, g, lo, hi, i);
  }
}
