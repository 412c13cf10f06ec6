// mirror.go: fetching, checking, writing and deleting mirrored files.
//
// The disk is a map from absolute paths to bytes; the state file is one of its entries.  Peers,
// the relay API and the file system's errors are an environment that may answer anything at each
// point where the code asks.  The functions below say what one sync computes when nothing else
// touches the disk; module MirrorManager does it with the code's own loops and fields, and
// module MirrorRace says what becomes of it when syncs overlap.
module Mirror {
  import opened Common
  import opened Manifests
  import opened FileSystem

  // SHA-256 in hex, strings.ToLower, the path join and the state file's place, kept abstract.
  datatype Site = Site(sum: Bytes -> string, lower: string -> string, abs: string -> string,
                       statePath: string, parse: Bytes -> Option<Manifest>)

  // What a peer answers for a chunk: no connection, a miss, or some bytes.
  datatype Reply = Unreachable | Miss | Sent(data: Bytes)

  // One chunk fetch: is the sync superseded, what do the peers and the relay answer, does the
  // write succeed.  relay is None when no relay is configured.
  datatype ChunkEnv = ChunkEnv(superseded: bool, peers: seq<Reply>, relay: Option<Reply>, writeOk: bool)

  datatype FileEnv = FileEnv(superseded: bool, createOk: bool, chunks: nat -> ChunkEnv, renameOk: bool)

  // os.WriteFile truncates before it writes: the state file is not opened, or keeps a prefix of
  // the new bytes, or all of them.
  datatype Persist = Unopened | Partial(n: nat) | Full

  datatype SyncEnv =
    SyncEnv(deleteOk: string -> bool, files: nat -> FileEnv, superseded: bool, persist: Persist)

  predicate HashMatches(site: Site, data: Bytes, hash: string) {
    site.sum(data) == site.lower(hash)
  }

  // ---- fetchChunk ----

  function FirstGood(site: Site, peers: seq<Reply>, hash: string): (r: Option<Bytes>) {
    if peers == [] then None
    else if peers[0].Sent? && HashMatches(site, peers[0].data, hash) then Some(peers[0].data)
    else FirstGood(site, peers[1..], hash)
  }

  function Fetched(site: Site, e: ChunkEnv, hash: string): (r: Option<Bytes>) {
    var p := FirstGood(site, e.peers, hash);
    if p.Some? then p
    else if e.relay.Some? && e.relay.value.Sent? && HashMatches(site, e.relay.value.data, hash)
    then Some(e.relay.value.data)
    else None
  }

  ghost predicate Offers(site: Site, e: ChunkEnv, hash: string, data: Bytes) {
    HashMatches(site, data, hash) && (Sent(data) in e.peers || e.relay == Some(Sent(data)))
  }

  // A chunk is obtained exactly when some source offers bytes of that hash, whoever the
  // source is, and only such bytes are ever returned.
  lemma {:induction false} FetchIsChecked(site: Site, e: ChunkEnv, hash: string)
    ensures var r := Fetched(site, e, hash);
      && (r.Some? ==> Offers(site, e, hash, r.value))
      && (r.None? ==> forall data :: !Offers(site, e, hash, data))
  {
    FirstGoodIsFirst(site, e.peers, hash);
  }

  lemma {:induction false} FirstGoodIsFirst(site: Site, peers: seq<Reply>, hash: string)
    ensures var r := FirstGood(site, peers, hash);
      && (r.Some? ==> Sent(r.value) in peers && HashMatches(site, r.value, hash))
      && (r.None? ==> forall data :: Sent(data) in peers ==> !HashMatches(site, data, hash))
  {
    if peers != [] {
      FirstGoodIsFirst(site, peers[1..], hash);
    }
  }

  // The sources are asked in order, the relay last: what is returned is the first good answer.
  ghost predicate GoodAt(site: Site, e: ChunkEnv, hash: string, i: nat, data: Bytes) {
    && i <= |e.peers| && HashMatches(site, data, hash)
    && (if i < |e.peers| then e.peers[i] == Sent(data) else e.relay == Some(Sent(data)))
  }

  lemma {:induction false} FirstSourceWins(site: Site, e: ChunkEnv, hash: string, i: nat, data: Bytes)
    requires GoodAt(site, e, hash, i, data) && forall j: nat, d :: j < i ==> !GoodAt(site, e, hash, j, d)
    ensures Fetched(site, e, hash) == Some(data)
  {
    forall j | 0 <= j < Min(i, |e.peers|)
      ensures !(e.peers[j].Sent? && HashMatches(site, e.peers[j].data, hash))
    {
      if e.peers[j].Sent? {
        assert !GoodAt(site, e, hash, j, e.peers[j].data);
      }
    }
    FirstGoodFrom(site, e.peers, hash, i);
  }

  lemma {:induction false} FirstGoodFrom(site: Site, peers: seq<Reply>, hash: string, i: nat)
    requires i <= |peers| && (i < |peers| ==> peers[i].Sent? && HashMatches(site, peers[i].data, hash))
    requires forall j :: 0 <= j < i ==> !(peers[j].Sent? && HashMatches(site, peers[j].data, hash))
    ensures FirstGood(site, peers, hash) == if i < |peers| then Some(peers[i].data) else None
  {
    if i > 0 {
      assert !(peers[0].Sent? && HashMatches(site, peers[0].data, hash));
      FirstGoodFrom(site, peers[1..], hash, i - 1);
    }
  }

  // ---- syncFile ----

  // The bytes written to the temporary file by the first k chunks; None once anything fails.
  function Assembled(site: Site, e: FileEnv, hashes: seq<string>, k: nat): (r: Option<Bytes>)
    requires k <= |hashes|
  {
    if k == 0 then Some([])
    else
      var before := Assembled(site, e, hashes, k - 1);
      var ce := e.chunks(k - 1);
      var got := Fetched(site, ce, hashes[k - 1]);
      if before.None? || ce.superseded || got.None? || !ce.writeOk then None else Some(before.value + got.value)
  }

  function Temp(site: Site, f: FileEntry): (p: string) {
    site.abs(f.path) + ".part"
  }

  // The disk after syncFile and whether it reported success.
  function FileSynced(site: Site, e: FileEnv, disk: Disk, f: FileEntry): (r: (Disk, bool)) {
    if !e.createOk then (disk, false)
    else
      var data := Assembled(site, e, f.chunkHashes, |f.chunkHashes|);
      if data.None? || !e.renameOk then (disk - {Temp(site, f)}, false)
      else ((disk - {Temp(site, f)})[site.abs(f.path) := data.value], true)
  }

  // data is a concatenation of chunks hashing to the listed hashes, in order.
  ghost predicate Chunked(site: Site, pieces: seq<Bytes>, hashes: seq<string>) {
    |pieces| == |hashes| && forall i :: 0 <= i < |pieces| ==> HashMatches(site, pieces[i], hashes[i])
  }

  ghost predicate Verified(site: Site, data: Bytes, hashes: seq<string>) {
    exists pieces :: Chunked(site, pieces, hashes) && Flatten(pieces) == data
  }

  ghost predicate OnDisk(site: Site, disk: Disk, f: FileEntry) {
    site.abs(f.path) in disk && Verified(site, disk[site.abs(f.path)], f.chunkHashes)
  }

  lemma {:induction false} AssembledIsVerified(site: Site, e: FileEnv, hashes: seq<string>, k: nat)
    returns (pieces: seq<Bytes>)
    requires k <= |hashes| && Assembled(site, e, hashes, k).Some?
    ensures Chunked(site, pieces, hashes[..k]) && Flatten(pieces) == Assembled(site, e, hashes, k).value
  {
    pieces := [];
    if k > 0 {
      pieces := AssembledIsVerified(site, e, hashes, k - 1);
      var got := Fetched(site, e.chunks(k - 1), hashes[k - 1]).value;
      FetchIsChecked(site, e.chunks(k - 1), hashes[k - 1]);
      FlattenSnoc(pieces, got);
      pieces := pieces + [got];
    }
  }

  lemma OnlyFileAndTemp(site: Site, e: FileEnv, disk: Disk, f: FileEntry)
    ensures var (after, ok) := FileSynced(site, e, disk, f);
      && (ok ==> OnDisk(site, after, f))
      && (!ok ==> after == disk || after == disk - {Temp(site, f)})
      && (forall p :: p != site.abs(f.path) && p != Temp(site, f) ==>
        (p in after <==> p in disk) && (p in disk ==> after[p] == disk[p]))
  {
    var (after, ok) := FileSynced(site, e, disk, f);
    if ok {
      var pieces := AssembledIsVerified(site, e, f.chunkHashes, |f.chunkHashes|);
      assert f.chunkHashes[..|f.chunkHashes|] == f.chunkHashes;
      assert Verified(site, after[site.abs(f.path)], f.chunkHashes);
    }
  }

  // A file reported ok is on disk with every chunk checked; nothing but it and its temporary
  // file is touched, whatever the outcome.
  lemma SyncedFileIsVerified(site: Site, e: FileEnv, disk: Disk, f: FileEntry)
    ensures var (after, ok) := FileSynced(site, e, disk, f);
      var temp := site.abs(f.path) + ".part";
      && (ok ==> OnDisk(site, after, f))
      && (!ok ==> after == disk || after == disk - {temp})
      && (forall p :: p != site.abs(f.path) && p != temp ==>
        (p in after <==> p in disk) && (p in disk ==> after[p] == disk[p]))
  {
    OnlyFileAndTemp(site, e, disk, f);
  }

  // ---- sync ----

  // loadPrevFileList / the wanted map: path to entry, later entries winning.
  function FileMap(files: seq<FileEntry>, k: nat): (r: map<string, FileEntry>)
    requires k <= |files|
  {
    if k == 0 then map[] else FileMap(files, k - 1)[files[k - 1].path := files[k - 1]]
  }

  lemma {:induction false} FileMapHasPaths(files: seq<FileEntry>, k: nat, path: string)
    requires k <= |files|
    ensures path in FileMap(files, k) <==> exists i :: 0 <= i < k && files[i].path == path
  {
    if k > 0 {
      FileMapHasPaths(files, k - 1, path);
    }
  }

  // The map has exactly the listed paths, each with its last entry.
  lemma {:induction false} FileMapIsLast(files: seq<FileEntry>, k: nat, i: nat)
    requires i < k <= |files| && forall j :: i < j < k ==> files[j].path != files[i].path
    ensures files[i].path in FileMap(files, k) && FileMap(files, k)[files[i].path] == files[i]
    ensures forall path :: path in FileMap(files, k) <==> exists j :: 0 <= j < k && files[j].path == path
  {
    forall path
      ensures path in FileMap(files, k) <==> exists j :: 0 <= j < k && files[j].path == path
    {
      FileMapHasPaths(files, k, path);
    }
    LastEntryStays(files, k, i);
  }

  lemma {:induction false} LastEntryStays(files: seq<FileEntry>, k: nat, i: nat)
    requires i < k <= |files| && forall j :: i < j < k ==> files[j].path != files[i].path
    ensures files[i].path in FileMap(files, k) && FileMap(files, k)[files[i].path] == files[i]
  {
    if i < k - 1 {
      assert files[k - 1].path != files[i].path;
      LastEntryStays(files, k - 1, i);
    }
  }

  function Persisted(site: Site, disk: Disk): (r: Option<Manifest>) {
    if site.statePath in disk then site.parse(disk[site.statePath]) else None
  }

  function PrevFiles(site: Site, disk: Disk): (r: map<string, FileEntry>) {
    var m := Persisted(site, disk);
    if m.None? then map[] else FileMap(m.value.files, |m.value.files|)
  }

  function Doomed(site: Site, e: SyncEnv, prev: set<string>, wanted: set<string>): (r: set<string>) {
    set p | p in prev && p !in wanted && e.deleteOk(p) :: site.abs(p)
  }

  lemma DoomedMore(site: Site, e: SyncEnv, done: set<string>, p: string, wanted: set<string>)
    ensures Doomed(site, e, done + {p}, wanted) ==
      if p !in wanted && e.deleteOk(p) then Doomed(site, e, done, wanted) + {site.abs(p)}
      else Doomed(site, e, done, wanted)
  {
  }

  // The guard that skips a file: the persisted manifest lists it with the same chunks.
  predicate Skips(prev: map<string, FileEntry>, f: FileEntry) {
    f.path in prev && prev[f.path].chunkHashes == f.chunkHashes
  }

  datatype Progress = Progress(disk: Disk, ok: bool, aborted: bool)

  function FilesSynced(
    site: Site, e: SyncEnv, prev: map<string, FileEntry>, disk: Disk, files: seq<FileEntry>, k: nat): (r: Progress)
    requires k <= |files|
  {
    if k == 0 then Progress(disk, true, false)
    else
      var p := FilesSynced(site, e, prev, disk, files, k - 1);
      var f := files[k - 1];
      if p.aborted then p
      else if e.files(k - 1).superseded then p.(aborted := true)
      else if Skips(prev, f) then p
      else
        var (after, ok) := FileSynced(site, e.files(k - 1), p.disk, f);
        Progress(after, p.ok && ok, false)
  }

  datatype Outcome = Outcome(disk: Disk, complete: bool, aborted: bool)

  function Synced(site: Site, e: SyncEnv, disk: Disk, raw: Bytes, m: Manifest): (r: Outcome) {
    var prev := PrevFiles(site, disk);
    var start := disk - Doomed(site, e, prev.Keys, FileMap(m.files, |m.files|).Keys);
    var p := FilesSynced(site, e, prev, start, m.files, |m.files|);
    if p.aborted || e.superseded then Outcome(p.disk, false, true)
    else Outcome(Recorded(site, e.persist, p.disk, raw), p.ok, false)
  }

  // What is left of the state after trying to write it.
  function Recorded(site: Site, persist: Persist, disk: Disk, raw: Bytes): (r: Disk) {
    match persist
    case Unopened => disk
    case Partial(n) => disk[site.statePath := raw[..Min(n, |raw|)]]
    case Full => disk[site.statePath := raw]
  }

  // Distinct places, none of them the state file.
  ghost predicate WellPlaced(site: Site, files: seq<FileEntry>) {
    && (forall i, j :: 0 <= i < j < |files| ==> site.abs(files[i].path) != site.abs(files[j].path))
    && (forall i :: 0 <= i < |files| ==> site.abs(files[i].path) != site.statePath)
  }

  ghost predicate AllOnDisk(site: Site, disk: Disk, files: seq<FileEntry>) {
    forall i :: 0 <= i < |files| ==> OnDisk(site, disk, files[i])
  }

  // One of the files from..to-1 that are not skipped keeps its temporary at the place of file i.
  ghost predicate Clobbers(
    site: Site, prev: map<string, FileEntry>, files: seq<FileEntry>, i: nat, from: nat, to: nat)
    requires i < |files| && to <= |files|
  {
    exists j :: from <= j < to && !Skips(prev, files[j]) && Temp(site, files[j]) == site.abs(files[i].path)
  }

  // What a caller can check before the sync about file i: no temporary destroys it, and if it
  // will be skipped it is right already and no deletion hits its place.
  ghost predicate Survives(site: Site, e: SyncEnv, disk: Disk, files: seq<FileEntry>, i: nat)
    requires i < |files|
  {
    var prev := PrevFiles(site, disk);
    if Skips(prev, files[i]) then
      && OnDisk(site, disk, files[i]) && !Clobbers(site, prev, files, i, 0, |files|)
      && site.abs(files[i].path) !in Doomed(site, e, prev.Keys, FileMap(files, |files|).Keys)
    else !Clobbers(site, prev, files, i, i + 1, |files|)
  }

  lemma {:induction false} FileMapKeys(files: seq<FileEntry>, k: nat)
    requires k <= |files|
    ensures forall p :: p in FileMap(files, k) <==> exists i :: 0 <= i < k && files[i].path == p
  {
    if k > 0 {
      FileMapKeys(files, k - 1);
      assert files[k - 1].path in FileMap(files, k);
    }
  }

  lemma {:induction false} FileMapValues(files: seq<FileEntry>, k: nat, p: string)
    requires k <= |files| && p in FileMap(files, k)
    ensures FileMap(files, k)[p].path == p && FileMap(files, k)[p] in files
  {
    if k > 0 && files[k - 1].path != p {
      FileMapValues(files, k - 1, p);
    }
  }

  // One more file that syncs: it is on disk afterwards, and another file is if it was and its
  // place is not the temporary's.
  lemma OneFileMore(site: Site, e: FileEnv, disk: Disk, f: FileEntry, g: FileEntry)
    requires FileSynced(site, e, disk, f).1 && (g == f || site.abs(g.path) != site.abs(f.path))
    ensures OnDisk(site, FileSynced(site, e, disk, f).0, g) <==>
      g == f || (OnDisk(site, disk, g) && Temp(site, f) != site.abs(g.path))
  {
    OnlyFileAndTemp(site, e, disk, f);
  }

  // After the first k files of a loop without failures: which files are on disk.
  ghost predicate Placed(
    site: Site, prev: map<string, FileEntry>, disk: Disk, files: seq<FileEntry>, k: nat, i: nat)
    requires k <= |files| && i < |files|
  {
    if i < k && !Skips(prev, files[i]) then !Clobbers(site, prev, files, i, i + 1, k)
    else OnDisk(site, disk, files[i]) && !Clobbers(site, prev, files, i, 0, k)
  }

  lemma PlacedStep(site: Site, prev: map<string, FileEntry>, disk: Disk, files: seq<FileEntry>, k: nat, i: nat)
    requires 0 < k <= |files| && i < |files|
    ensures Placed(site, prev, disk, files, k, i) <==> (
      if Skips(prev, files[k - 1]) then Placed(site, prev, disk, files, k - 1, i)
      else
        || i == k - 1
        || (Placed(site, prev, disk, files, k - 1, i) && Temp(site, files[k - 1]) != site.abs(files[i].path)))
  {
    forall from: nat | from <= k - 1
      ensures Clobbers(site, prev, files, i, from, k) <==>
        Clobbers(site, prev, files, i, from, k - 1) ||
          (!Skips(prev, files[k - 1]) && Temp(site, files[k - 1]) == site.abs(files[i].path))
    {
    }
  }

  lemma {:induction false} FilesPlaced(
    site: Site, e: SyncEnv, prev: map<string, FileEntry>, disk: Disk, files: seq<FileEntry>, k: nat, i: nat)
    requires k <= |files| && i < |files| && WellPlaced(site, files)
    requires var p := FilesSynced(site, e, prev, disk, files, k); p.ok && !p.aborted
    ensures OnDisk(site, FilesSynced(site, e, prev, disk, files, k).disk, files[i]) <==>
      Placed(site, prev, disk, files, k, i)
  {
    if k > 0 {
      FilesPlaced(site, e, prev, disk, files, k - 1, i);
      PlacedStep(site, prev, disk, files, k, i);
      if !Skips(prev, files[k - 1]) {
        var before := FilesSynced(site, e, prev, disk, files, k - 1);
        assert i != k - 1 ==> site.abs(files[i].path) != site.abs(files[k - 1].path);
        OneFileMore(site, e.files(k - 1), before.disk, files[k - 1], files[i]);
      }
    }
  }

  // The law of one sync, exactly: after a sync that reports complete, a file of the manifest is
  // verified on disk if and only if it survives, for manifests of any length.
  lemma CompleteMeansOnDisk(site: Site, e: SyncEnv, disk: Disk, raw: Bytes, m: Manifest, i: nat)
    requires WellPlaced(site, m.files) && Synced(site, e, disk, raw, m).complete && i < |m.files|
    ensures OnDisk(site, Synced(site, e, disk, raw, m).disk, m.files[i]) <==> Survives(site, e, disk, m.files, i)
  {
    var prev := PrevFiles(site, disk);
    var start := disk - Doomed(site, e, prev.Keys, FileMap(m.files, |m.files|).Keys);
    FilesPlaced(site, e, prev, start, m.files, |m.files|, i);
  }

  // ---- Runs of syncs ----

  ghost predicate Places(site: Site, files: seq<FileEntry>, p: string) {
    exists i :: 0 <= i < |files| && site.abs(files[i].path) == p
  }

  // The disk is exactly the persisted manifest: its files, verified, and nothing else.
  ghost predicate Mirrors(site: Site, disk: Disk) {
    var m := Persisted(site, disk);
    var files := if m.None? then [] else m.value.files;
    && AllOnDisk(site, disk, files)
    && (forall p :: p in disk && p != site.statePath ==> Places(site, files, p))
  }

  // A sync with no failed or superseded file, whose deletions and state write succeeded.
  ghost predicate Clean(site: Site, e: SyncEnv, disk: Disk, raw: Bytes, m: Manifest) {
    Synced(site, e, disk, raw, m).complete && e.persist.Full?
    && forall p :: p in PrevFiles(site, disk) ==> e.deleteOk(p)
  }

  // Two manifests of one publisher: each well placed, and a path has one place.
  ghost predicate Compatible(site: Site, a: seq<FileEntry>, b: seq<FileEntry>) {
    forall i, j :: 0 <= i < |a| && 0 <= j < |b| && a[i].path != b[j].path ==> site.abs(a[i].path) != site.abs(b[j].path)
  }

  lemma PrevOf(site: Site, disk: Disk, p: string)
    requires p in PrevFiles(site, disk)
    ensures Persisted(site, disk).Some? && PrevFiles(site, disk)[p] in Persisted(site, disk).value.files
    ensures PrevFiles(site, disk)[p].path == p
  {
    var files := Persisted(site, disk).value.files;
    FileMapValues(files, |files|, p);
  }

  // No file of the manifest is destroyed by another one's temporary.
  ghost predicate Unclobbered(site: Site, prev: map<string, FileEntry>, files: seq<FileEntry>) {
    forall i: nat :: i < |files| ==>
      !Clobbers(site, prev, files, i, if Skips(prev, files[i]) then 0 else i + 1, |files|)
  }

  lemma MirroredFileSurvives(site: Site, e: SyncEnv, disk: Disk, files: seq<FileEntry>, i: nat)
    requires Mirrors(site, disk) && i < |files|
    requires Persisted(site, disk).Some? ==> Compatible(site, Persisted(site, disk).value.files, files)
    ensures var prev := PrevFiles(site, disk);
      Survives(site, e, disk, files, i) <==>
        !Clobbers(site, prev, files, i, if Skips(prev, files[i]) then 0 else i + 1, |files|)
  {
    var prev, wanted := PrevFiles(site, disk), FileMap(files, |files|).Keys;
    if Skips(prev, files[i]) {
      PrevOf(site, disk, files[i].path);
      FileMapKeys(files, |files|);
      forall q | q in prev.Keys && q !in wanted
        ensures site.abs(q) != site.abs(files[i].path)
      {
        PrevOf(site, disk, q);
        assert files[i].path in wanted;
      }
    }
  }

  // Every place occupied after the loop was occupied before it or belongs to the manifest.
  lemma {:induction false} NoStrayFiles(
    site: Site, e: SyncEnv, prev: map<string, FileEntry>, disk: Disk, files: seq<FileEntry>, k: nat, p: string)
    requires k <= |files| && p in FilesSynced(site, e, prev, disk, files, k).disk
    ensures p in disk || Places(site, files, p)
  {
    if k > 0 {
      var before := FilesSynced(site, e, prev, disk, files, k - 1);
      if p in before.disk {
        NoStrayFiles(site, e, prev, disk, files, k - 1, p);
      } else {
        assert site.abs(files[k - 1].path) == p;
      }
    }
  }

  // One clean sync takes an exact mirror of one manifest to an exact mirror of the next, if and
  // only if no temporary destroys a file of it.
  lemma CleanSyncMirrors(site: Site, e: SyncEnv, disk: Disk, raw: Bytes, m: Manifest)
    requires Mirrors(site, disk) && Clean(site, e, disk, raw, m)
    requires site.parse(raw) == Some(m) && WellPlaced(site, m.files)
    requires Persisted(site, disk).Some? ==> Compatible(site, Persisted(site, disk).value.files, m.files)
    ensures Mirrors(site, Synced(site, e, disk, raw, m).disk) <==>
      Unclobbered(site, PrevFiles(site, disk), m.files)
    ensures Persisted(site, Synced(site, e, disk, raw, m).disk) == Some(m)
  {
    var out := Synced(site, e, disk, raw, m);
    forall i: nat | i < |m.files|
      ensures OnDisk(site, out.disk, m.files[i]) <==> Survives(site, e, disk, m.files, i)
      ensures var prev := PrevFiles(site, disk);
        Survives(site, e, disk, m.files, i) <==>
          !Clobbers(site, prev, m.files, i, if Skips(prev, m.files[i]) then 0 else i + 1, |m.files|)
    {
      MirroredFileSurvives(site, e, disk, m.files, i);
      CompleteMeansOnDisk(site, e, disk, raw, m, i);
    }
    forall p | p in out.disk && p != site.statePath
      ensures Places(site, m.files, p)
    {
      OnlyManifestPlaces(site, e, disk, raw, m, p);
    }
  }

  lemma OnlyManifestPlaces(site: Site, e: SyncEnv, disk: Disk, raw: Bytes, m: Manifest, p: string)
    requires Mirrors(site, disk) && Clean(site, e, disk, raw, m)
    requires p in Synced(site, e, disk, raw, m).disk && p != site.statePath
    ensures Places(site, m.files, p)
  {
    var prev := PrevFiles(site, disk);
    var wanted := FileMap(m.files, |m.files|).Keys;
    var doomed := Doomed(site, e, prev.Keys, wanted);
    NoStrayFiles(site, e, prev, disk - doomed, m.files, |m.files|, p);
    if p in disk - doomed {
      var was := Persisted(site, disk);
      assert was.Some?;
      var i :| 0 <= i < |was.value.files| && site.abs(was.value.files[i].path) == p;
      var q := was.value.files[i].path;
      FileMapKeys(was.value.files, |was.value.files|);
      assert q in prev.Keys;
      assert q !in wanted ==> site.abs(q) in doomed;
      FileMapKeys(m.files, |m.files|);
    }
  }

  datatype Job = Job(raw: Bytes, m: Manifest, env: SyncEnv)

  function DiskAfter(site: Site, disk: Disk, jobs: seq<Job>): (r: Disk) {
    if jobs == [] then disk
    else
      var last := jobs[|jobs| - 1];
      Synced(site, last.env, DiskAfter(site, disk, jobs[..|jobs| - 1]), last.raw, last.m).disk
  }

  // The sync is clean, its bytes parse to its manifest, and its files leave one another alone.
  ghost predicate CleanJob(site: Site, disk: Disk, job: Job) {
    && site.parse(job.raw) == Some(job.m) && WellPlaced(site, job.m.files)
    && Clean(site, job.env, disk, job.raw, job.m) && Unclobbered(site, PrevFiles(site, disk), job.m.files)
  }

  ghost predicate CleanRun(site: Site, disk: Disk, jobs: seq<Job>) {
    jobs == [] || (
      var n := |jobs| - 1;
      && CleanRun(site, disk, jobs[..n])
      && CleanJob(site, DiskAfter(site, disk, jobs[..n]), jobs[n])
      && (n > 0 ==> Compatible(site, jobs[n - 1].m.files, jobs[n].m.files)))
  }

  // Over every run of clean syncs from an empty directory, the disk after the last one holds
  // exactly that manifest's files, each a concatenation of chunks of the listed hashes.
  lemma {:induction false} CleanRunMirrors(site: Site, jobs: seq<Job>)
    requires CleanRun(site, map[], jobs)
    ensures Mirrors(site, DiskAfter(site, map[], jobs))
    ensures Persisted(site, DiskAfter(site, map[], jobs)) == if jobs == [] then None else Some(jobs[|jobs| - 1].m)
  {
    if jobs != [] {
      var n := |jobs| - 1;
      CleanRunMirrors(site, jobs[..n]);
      CleanSyncMirrors(site, jobs[n].env, DiskAfter(site, map[], jobs[..n]), jobs[n].raw, jobs[n].m);
    }
  }

  // ---- Failure and abortion stick ----

  lemma {:induction false} FailureSticks(site: Site, e: FileEnv, hashes: seq<string>, k: nat, n: nat)
    requires k <= n <= |hashes| && Assembled(site, e, hashes, k).None?
    ensures Assembled(site, e, hashes, n).None?
  {
    if k < n {
      FailureSticks(site, e, hashes, k, n - 1);
    }
  }

  lemma {:induction false} AbortSticks(
    site: Site, e: SyncEnv, prev: map<string, FileEntry>, disk: Disk, files: seq<FileEntry>, k: nat, n: nat)
    requires k <= n <= |files| && FilesSynced(site, e, prev, disk, files, k).aborted
    ensures FilesSynced(site, e, prev, disk, files, n) == FilesSynced(site, e, prev, disk, files, k)
  {
    if k < n {
      AbortSticks(site, e, prev, disk, files, k, n - 1);
    }
  }

  // ---- A failed file is forgotten ----

  // The loop puts nothing at the place of a file that is skipped or fails.
  lemma {:induction false} NothingAppears(
    site: Site, e: SyncEnv, prev: map<string, FileEntry>, disk: Disk, files: seq<FileEntry>, k: nat, i: nat)
    requires k <= |files| && i < |files| && WellPlaced(site, files)
    requires Skips(prev, files[i]) || !FileSynced(site, e.files(i), disk, files[i]).1
    ensures var d, p := FilesSynced(site, e, prev, disk, files, k).disk, site.abs(files[i].path);
      p in d ==> p in disk && d[p] == disk[p]
  {
    if k > 0 {
      NothingAppears(site, e, prev, disk, files, k - 1, i);
      var before := FilesSynced(site, e, prev, disk, files, k - 1);
      OnlyFileAndTemp(site, e.files(k - 1), before.disk, files[k - 1]);
      FileSyncsExactlyWhen(site, e.files(k - 1), before.disk, files[k - 1]);
      FileSyncsExactlyWhen(site, e.files(k - 1), disk, files[k - 1]);
      assert i != k - 1 ==> site.abs(files[i].path) != site.abs(files[k - 1].path);
    }
  }

  predicate SameFile(f: FileEntry, g: FileEntry) {
    f.path == g.path && f.chunkHashes == g.chunkHashes
  }

  // The persisted manifest lists f, which is not on disk.
  ghost predicate Lost(site: Site, disk: Disk, f: FileEntry) {
    && Persisted(site, disk).Some? && WellPlaced(site, Persisted(site, disk).value.files)
    && ListsFile(Persisted(site, disk).value.files, f) && !OnDisk(site, disk, f)
  }

  ghost predicate ListsFile(files: seq<FileEntry>, f: FileEntry) {
    exists i :: 0 <= i < |files| && SameFile(files[i], f)
  }

  // A sync of a manifest that lists f, whose state is recorded whole or not at all, and whose
  // temporaries are not the state file.
  ghost predicate Relists(site: Site, job: Job, f: FileEntry) {
    && site.parse(job.raw) == Some(job.m) && WellPlaced(site, job.m.files) && ListsFile(job.m.files, f)
    && !job.env.persist.Partial?
    && (forall i :: 0 <= i < |job.m.files| ==> Temp(site, job.m.files[i]) != site.statePath)
  }

  lemma {:induction false} LastListed(site: Site, files: seq<FileEntry>, k: nat, i: nat)
    requires i < k <= |files| && WellPlaced(site, files)
    ensures files[i].path in FileMap(files, k) && FileMap(files, k)[files[i].path] == files[i]
  {
    if i < k - 1 {
      LastListed(site, files, k - 1, i);
      assert site.abs(files[i].path) != site.abs(files[k - 1].path);
    }
  }

  // A lost file is skipped by the next sync that lists it.
  lemma LostIsSkipped(site: Site, disk: Disk, files: seq<FileEntry>, f: FileEntry, i: nat)
    requires Lost(site, disk, f) && i < |files| && SameFile(files[i], f)
    ensures Skips(PrevFiles(site, disk), files[i])
  {
    var was := Persisted(site, disk).value.files;
    var k: nat :| k < |was| && SameFile(was[k], f);
    LastListed(site, was, |was|, k);
  }

  // The state file is touched by nothing but the recording of the new state.
  lemma {:induction false} StateUntouched(
    site: Site, e: SyncEnv, prev: map<string, FileEntry>, disk: Disk, files: seq<FileEntry>, k: nat)
    requires k <= |files| && WellPlaced(site, files)
    requires forall i :: 0 <= i < |files| ==> Temp(site, files[i]) != site.statePath
    ensures var d := FilesSynced(site, e, prev, disk, files, k).disk;
      && (site.statePath in d <==> site.statePath in disk)
      && (site.statePath in d ==> d[site.statePath] == disk[site.statePath])
  {
    if k > 0 {
      StateUntouched(site, e, prev, disk, files, k - 1);
      var before := FilesSynced(site, e, prev, disk, files, k - 1);
      OnlyFileAndTemp(site, e.files(k - 1), before.disk, files[k - 1]);
      assert site.abs(files[k - 1].path) != site.statePath && Temp(site, files[k - 1]) != site.statePath;
    }
  }

  lemma StateNotDoomed(site: Site, e: SyncEnv, disk: Disk, wanted: set<string>)
    requires Persisted(site, disk).Some? ==> WellPlaced(site, Persisted(site, disk).value.files)
    ensures site.statePath !in Doomed(site, e, PrevFiles(site, disk).Keys, wanted)
  {
    forall q | q in PrevFiles(site, disk)
      ensures site.abs(q) != site.statePath
    {
      PrevOf(site, disk, q);
    }
  }

  // The state file after a sync by itself: an aborted one leaves it alone, any other writes the new
  // state, even after a failed file, or what the file system let it write.
  lemma StateRecordedExactlyWhen(site: Site, disk: Disk, job: Job)
    requires WellPlaced(site, job.m.files)
    requires forall i :: 0 <= i < |job.m.files| ==> Temp(site, job.m.files[i]) != site.statePath
    requires Persisted(site, disk).Some? ==> WellPlaced(site, Persisted(site, disk).value.files)
    ensures var out := Synced(site, job.env, disk, job.raw, job.m);
      if out.aborted || job.env.persist.Unopened? then
        && (site.statePath in out.disk <==> site.statePath in disk)
        && (site.statePath in disk ==> out.disk[site.statePath] == disk[site.statePath])
      else
        && site.statePath in out.disk && out.disk[site.statePath] <= job.raw
        && (job.env.persist.Full? ==> out.disk[site.statePath] == job.raw)
  {
    var prev, files := PrevFiles(site, disk), job.m.files;
    var wanted := FileMap(files, |files|).Keys;
    StateNotDoomed(site, job.env, disk, wanted);
    StateUntouched(site, job.env, prev, disk - Doomed(site, job.env, prev.Keys, wanted), files, |files|);
  }

  // What a relisting sync leaves: the old or the new state, and nothing new at a place that its
  // file skips or fails to write.
  lemma RelistedState(site: Site, disk: Disk, job: Job, f: FileEntry)
    requires Relists(site, job, f)
    requires Persisted(site, disk).Some? ==> WellPlaced(site, Persisted(site, disk).value.files)
    ensures var out := Synced(site, job.env, disk, job.raw, job.m);
      Persisted(site, out.disk) ==
        if out.aborted || job.env.persist.Unopened? then Persisted(site, disk) else Some(job.m)
  {
    var prev, files := PrevFiles(site, disk), job.m.files;
    var wanted := FileMap(files, |files|).Keys;
    StateNotDoomed(site, job.env, disk, wanted);
    StateUntouched(site, job.env, prev, disk - Doomed(site, job.env, prev.Keys, wanted), files, |files|);
  }

  // The sync leaves file i alone or fails to write it.
  ghost predicate SkipsOrFails(site: Site, disk: Disk, job: Job, i: nat)
    requires i < |job.m.files|
  {
    || Skips(PrevFiles(site, disk), job.m.files[i])
    || !FileSynced(site, job.env.files(i), disk, job.m.files[i]).1
  }

  lemma StillMissing(site: Site, disk: Disk, job: Job, i: nat)
    requires WellPlaced(site, job.m.files) && i < |job.m.files| && !OnDisk(site, disk, job.m.files[i])
    requires SkipsOrFails(site, disk, job, i)
    ensures !OnDisk(site, Synced(site, job.env, disk, job.raw, job.m).disk, job.m.files[i])
  {
    var prev, files := PrevFiles(site, disk), job.m.files;
    var start := disk - Doomed(site, job.env, prev.Keys, FileMap(files, |files|).Keys);
    FileSyncsExactlyWhen(site, job.env.files(i), disk, files[i]);
    FileSyncsExactlyWhen(site, job.env.files(i), start, files[i]);
    NothingAppears(site, job.env, prev, start, files, |files|, i);
  }

  ghost predicate AllRelist(site: Site, jobs: seq<Job>, f: FileEntry) {
    forall k :: 0 <= k < |jobs| ==> Relists(site, jobs[k], f)
  }

  lemma {:induction false} LostStaysLost(site: Site, disk: Disk, jobs: seq<Job>, f: FileEntry)
    requires Lost(site, disk, f) && AllRelist(site, jobs, f)
    ensures Lost(site, DiskAfter(site, disk, jobs), f)
  {
    if jobs != [] {
      var n := |jobs| - 1;
      LostStaysLost(site, disk, jobs[..n], f);
      var d := DiskAfter(site, disk, jobs[..n]);
      var i: nat :| i < |jobs[n].m.files| && SameFile(jobs[n].m.files[i], f);
      LostIsSkipped(site, d, jobs[n].m.files, f, i);
      StillMissing(site, d, jobs[n], i);
      RelistedState(site, d, jobs[n], f);
    }
  }

  // A sync that fails to write file i although it records its state.
  ghost predicate FailsAt(site: Site, disk: Disk, job: Job, i: nat) {
    && i < |job.m.files| && Relists(site, job, job.m.files[i]) && job.env.persist.Full?
    && !FileSynced(site, job.env.files(i), disk, job.m.files[i]).1
    && !Synced(site, job.env, disk, job.raw, job.m).aborted
  }

  lemma FailedFileIsLost(site: Site, disk: Disk, job: Job, i: nat)
    requires FailsAt(site, disk, job, i) && !OnDisk(site, disk, job.m.files[i])
    requires Persisted(site, disk).Some? ==> WellPlaced(site, Persisted(site, disk).value.files)
    ensures Lost(site, Synced(site, job.env, disk, job.raw, job.m).disk, job.m.files[i])
  {
    StillMissing(site, disk, job, i);
    RelistedState(site, disk, job, job.m.files[i]);
  }

  // Whether a sync that lists a lost file at k reports complete does not depend on that file.
  ghost predicate IgnoresFile(site: Site, disk: Disk, job: Job, k: nat)
    requires k < |job.m.files|
  {
    Synced(site, job.env, disk, job.raw, job.m).complete <==>
      && !job.env.superseded && !job.env.files(k).superseded
      && forall j: nat :: j < |job.m.files| && j != k ==>
           FileGoes(site, job.env, PrevFiles(site, disk), job.m.files, j)
  }

  lemma LostIsIgnored(site: Site, disk: Disk, job: Job, f: FileEntry, k: nat)
    requires Lost(site, disk, f) && WellPlaced(site, job.m.files)
    requires k < |job.m.files| && SameFile(job.m.files[k], f)
    ensures !OnDisk(site, Synced(site, job.env, disk, job.raw, job.m).disk, job.m.files[k])
    ensures IgnoresFile(site, disk, job, k)
  {
    LostIsSkipped(site, disk, job.m.files, f, k);
    StillMissing(site, disk, job, k);
    CompletesExactlyWhen(site, job.env, disk, job.raw, job.m);
    assert FileGoes(site, job.env, PrevFiles(site, disk), job.m.files, k) <==> !job.env.files(k).superseded;
  }

  // State is recorded even when a file failed.  So a file that was not on disk and failed once,
  // for whatever reason, stays missing over every later run of syncs that list it with the same
  // chunks, and none of them looks at what its sources offer: whether one of them reports
  // complete depends on the other files only.
  lemma FailedFileIsSkippedForever(
    site: Site, disk: Disk, first: Job, i: nat, later: seq<Job>, last: Job, k: nat)
    requires FailsAt(site, disk, first, i) && !OnDisk(site, disk, first.m.files[i])
    requires Persisted(site, disk).Some? ==> WellPlaced(site, Persisted(site, disk).value.files)
    requires AllRelist(site, later, first.m.files[i]) && WellPlaced(site, last.m.files)
    requires k < |last.m.files| && SameFile(last.m.files[k], first.m.files[i])
    ensures var d := DiskAfter(site, Synced(site, first.env, disk, first.raw, first.m).disk, later);
      && !OnDisk(site, Synced(site, last.env, d, last.raw, last.m).disk, last.m.files[k])
      && IgnoresFile(site, d, last, k)
  {
    var d1 := Synced(site, first.env, disk, first.raw, first.m).disk;
    FailedFileIsLost(site, disk, first, i);
    LostStaysLost(site, d1, later, first.m.files[i]);
    LostIsIgnored(site, DiskAfter(site, d1, later), last, first.m.files[i], k);
  }

  // ---- Exactly when a sync completes ----

  // Chunk k can be obtained from some source and written.
  ghost predicate ChunkGoes(site: Site, e: FileEnv, hashes: seq<string>, k: nat)
    requires k < |hashes|
  {
    var ce := e.chunks(k);
    !ce.superseded && ce.writeOk && exists data :: Offers(site, ce, hashes[k], data)
  }

  lemma {:induction false} AssembledExactlyWhen(site: Site, e: FileEnv, hashes: seq<string>, n: nat)
    requires n <= |hashes|
    ensures Assembled(site, e, hashes, n).Some? <==> forall k: nat :: k < n ==> ChunkGoes(site, e, hashes, k)
  {
    if n > 0 {
      AssembledExactlyWhen(site, e, hashes, n - 1);
      FetchIsChecked(site, e.chunks(n - 1), hashes[n - 1]);
      assert ChunkGoes(site, e, hashes, n - 1) <==>
        !e.chunks(n - 1).superseded && e.chunks(n - 1).writeOk && Fetched(site, e.chunks(n - 1), hashes[n - 1]).Some?;
    }
  }

  // A file syncs exactly when it can be created and renamed and every chunk is offered by
  // some source, however many wrong or missing answers come before it.
  lemma FileSyncsExactlyWhen(site: Site, e: FileEnv, disk: Disk, f: FileEntry)
    ensures FileSynced(site, e, disk, f).1 <==>
      e.createOk && e.renameOk && forall k: nat :: k < |f.chunkHashes| ==> ChunkGoes(site, e, f.chunkHashes, k)
  {
    AssembledExactlyWhen(site, e, f.chunkHashes, |f.chunkHashes|);
  }

  ghost predicate FileGoes(site: Site, e: SyncEnv, prev: map<string, FileEntry>, files: seq<FileEntry>, i: nat)
    requires i < |files|
  {
    var fe := e.files(i);
    && !fe.superseded
    && (Skips(prev, files[i]) ||
        (fe.createOk && fe.renameOk
         && forall k: nat :: k < |files[i].chunkHashes| ==> ChunkGoes(site, fe, files[i].chunkHashes, k)))
  }

  lemma {:induction false} FilesSyncExactlyWhen(
    site: Site, e: SyncEnv, prev: map<string, FileEntry>, disk: Disk, files: seq<FileEntry>, n: nat)
    requires n <= |files|
    ensures var p := FilesSynced(site, e, prev, disk, files, n);
      p.ok && !p.aborted <==> forall i: nat :: i < n ==> FileGoes(site, e, prev, files, i)
  {
    if n > 0 {
      FilesSyncExactlyWhen(site, e, prev, disk, files, n - 1);
      var before := FilesSynced(site, e, prev, disk, files, n - 1);
      FileSyncsExactlyWhen(site, e.files(n - 1), before.disk, files[n - 1]);
      var p := FilesSynced(site, e, prev, disk, files, n);
      assert p.ok && !p.aborted <==> before.ok && !before.aborted && FileGoes(site, e, prev, files, n - 1);
    }
  }

  // A sync reports complete exactly when it is never superseded and every file it does not
  // skip can be fetched and written.
  lemma CompletesExactlyWhen(site: Site, e: SyncEnv, disk: Disk, raw: Bytes, m: Manifest)
    ensures Synced(site, e, disk, raw, m).complete <==>
      !e.superseded && forall i: nat :: i < |m.files| ==> FileGoes(site, e, PrevFiles(site, disk), m.files, i)
  {
    var prev := PrevFiles(site, disk);
    var start := disk - Doomed(site, e, prev.Keys, FileMap(m.files, |m.files|).Keys);
    FilesSyncExactlyWhen(site, e, prev, start, m.files, |m.files|);
  }
}
