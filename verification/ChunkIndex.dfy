// mirror.go: the chunk index built after a full sync, and serving chunks from it.
module ChunkIndex {
  import opened Common
  import opened Manifests
  import opened FileSystem
  import opened Mirror

  datatype Loc = Loc(path: string, offset: int, size: int)

  type Index = map<string, Loc>

  // ServeChunk's outcomes; a negative size would panic while allocating the buffer.
  datatype Answer = Chunk(data: Bytes) | NoChunk | Panic

  function OffsetAt(f: FileEntry, k: nat): (o: int)
    decreases k, 0
  {
    if k == 0 then 0 else OffsetAt(f, k - 1) + SizeAt(f, k - 1)
  }

  function SizeAt(f: FileEntry, k: nat): (s: int)
    decreases k, 1
  {
    Min(f.size - OffsetAt(f, k), f.chunkSize)
  }

  function FileIndexed(site: Site, idx: Index, f: FileEntry, k: nat): (r: Index)
    requires k <= |f.chunkHashes|
  {
    if k == 0 then idx
    else
      var loc := Loc(site.abs(f.path), OffsetAt(f, k - 1), SizeAt(f, k - 1));
      FileIndexed(site, idx, f, k - 1)[f.chunkHashes[k - 1] := loc]
  }

  function Indexed(site: Site, files: seq<FileEntry>, k: nat): (r: Index)
    requires k <= |files|
  {
    if k == 0 then map[] else FileIndexed(site, Indexed(site, files, k - 1), files[k - 1], |files[k - 1].chunkHashes|)
  }

  function Served(disk: Disk, idx: Index, hash: string): (r: Answer) {
    if hash !in idx then NoChunk
    else
      var loc := idx[hash];
      if loc.path !in disk || loc.offset < 0 then NoChunk
      else if loc.size < 0 then Panic
      else if loc.offset + loc.size > |disk[loc.path]| then NoChunk
      else Chunk(disk[loc.path][loc.offset..loc.offset + loc.size])
  }

  method BuildChunkIndex(site: Site, files: seq<FileEntry>) returns (idx: Index)
    ensures idx == Indexed(site, files, |files|)
  {
    idx := map[];
    for i := 0 to |files|
      invariant idx == Indexed(site, files, i)
    {
      var f := files[i];
      var abs := site.abs(f.path);
      var offset := 0;
      for k := 0 to |f.chunkHashes|
        invariant offset == OffsetAt(f, k)
        invariant idx == FileIndexed(site, Indexed(site, files, i), f, k)
      {
        var size := f.chunkSize;
        var remaining := f.size - offset;
        if remaining < size {
          size := remaining;
        }
        idx := idx[f.chunkHashes[k] := Loc(abs, offset, size)];
        offset := offset + size;
      }
    }
  }

  method ServeChunk(disk: Disk, idx: Index, hash: string) returns (r: Answer)
    ensures r == Served(disk, idx, hash)
  {
    if hash !in idx {
      return NoChunk;
    }
    var loc := idx[hash];
    if loc.path !in disk || loc.offset < 0 {
      return NoChunk;
    }
    if loc.size < 0 {
      return Panic;
    }
    var file := disk[loc.path];
    if loc.offset + loc.size > |file| {
      return NoChunk;
    }
    r := Chunk(file[loc.offset..loc.offset + loc.size]);
  }

  // The publisher cut a file into full-size pieces (the last may be shorter) and listed their
  // hashes and the total size.
  ghost predicate Cut(site: Site, f: FileEntry, pieces: seq<Bytes>) {
    && Chunked(site, pieces, f.chunkHashes)
    && (forall i :: 0 <= i < |pieces| ==> |pieces[i]| <= f.chunkSize)
    && (forall i :: 0 <= i < |pieces| - 1 ==> |pieces[i]| == f.chunkSize)
    && |Flatten(pieces)| == f.size
  }

  ghost predicate WellCut(site: Site, f: FileEntry) {
    exists pieces :: Cut(site, f, pieces)
  }

  ghost predicate CollisionFree(site: Site) {
    forall x, y :: site.sum(x) == site.sum(y) ==> x == y
  }

  ghost predicate Lists(files: seq<FileEntry>, hash: string) {
    exists i :: 0 <= i < |files| && hash in files[i].chunkHashes
  }

  lemma FlattenSplit(pieces: seq<Bytes>, k: nat)
    requires k < |pieces|
    ensures Flatten(pieces) == Flatten(pieces[..k]) + pieces[k] + Flatten(pieces[k + 1..])
    ensures Flatten(pieces[..k + 1]) == Flatten(pieces[..k]) + pieces[k]
  {
    var a, b := pieces[..k], pieces[k..];
    assert pieces == a + b;
    FlattenAppend(a, b);
    assert Flatten(b) == pieces[k] + Flatten(pieces[k + 1..]) by {
      assert b[0] == pieces[k] && b[1..] == pieces[k + 1..];
    }
    Regroup(Flatten(a), pieces[k], Flatten(pieces[k + 1..]));
    assert pieces[..k + 1] == a + [pieces[k]];
    FlattenSnoc(a, pieces[k]);
  }

  // The running offset and size of the index are where the publisher's k-th piece lies.
  lemma {:induction false} OffsetsFollowPieces(site: Site, f: FileEntry, pieces: seq<Bytes>, k: nat)
    requires Cut(site, f, pieces) && k <= |pieces|
    ensures OffsetAt(f, k) == |Flatten(pieces[..k])|
    ensures k < |pieces| ==> SizeAt(f, k) == |pieces[k]|
  {
    if k > 0 {
      OffsetsFollowPieces(site, f, pieces, k - 1);
      FlattenSplit(pieces, k - 1);
    }
    if k < |pieces| {
      FlattenSplit(pieces, k);
      if k == |pieces| - 1 {
        assert pieces[k + 1..] == [];
      }
    }
  }

  lemma PiecesAreUnique(site: Site, a: seq<Bytes>, b: seq<Bytes>, hashes: seq<string>)
    requires CollisionFree(site) && Chunked(site, a, hashes) && Chunked(site, b, hashes)
    ensures a == b
  {
    forall i | 0 <= i < |a|
      ensures a[i] == b[i]
    {
      assert site.sum(a[i]) == site.sum(b[i]);
    }
  }

  // Every entry of the index points at a position of some listed file.
  ghost predicate PointsInto(site: Site, files: seq<FileEntry>, hash: string, loc: Loc) {
    exists i :: 0 <= i < |files| && PointsIntoFile(site, files[i], hash, loc)
  }

  ghost predicate PointsIntoFile(site: Site, f: FileEntry, hash: string, loc: Loc) {
    exists k :: PointsAt(site, f, hash, loc, k)
  }

  ghost predicate PointsAt(site: Site, f: FileEntry, hash: string, loc: Loc, k: int) {
    0 <= k < |f.chunkHashes| && f.chunkHashes[k] == hash && loc == Loc(site.abs(f.path), OffsetAt(f, k), SizeAt(f, k))
  }

  lemma {:induction false} FileIndexedPoints(site: Site, idx: Index, f: FileEntry, k: nat)
    requires k <= |f.chunkHashes|
    ensures var r := FileIndexed(site, idx, f, k);
      && (forall h :: h in r <==> h in idx || h in f.chunkHashes[..k])
      && (forall h :: h in r ==> (h in idx && r[h] == idx[h]) || PointsIntoFile(site, f, h, r[h]))
  {
    if k > 0 {
      FileIndexedPoints(site, idx, f, k - 1);
      assert f.chunkHashes[..k] == f.chunkHashes[..k - 1] + [f.chunkHashes[k - 1]];
      var r := FileIndexed(site, idx, f, k);
      assert PointsAt(site, f, f.chunkHashes[k - 1], r[f.chunkHashes[k - 1]], k - 1);
    }
  }

  lemma {:induction false} IndexPoints(site: Site, files: seq<FileEntry>, k: nat, hash: string)
    requires k <= |files|
    ensures hash in Indexed(site, files, k) <==> Lists(files[..k], hash)
    ensures hash in Indexed(site, files, k) ==> PointsInto(site, files, hash, Indexed(site, files, k)[hash])
  {
    if k > 0 {
      IndexPoints(site, files, k - 1, hash);
      var f := files[k - 1];
      FileIndexedPoints(site, Indexed(site, files, k - 1), f, |f.chunkHashes|);
      assert f.chunkHashes[..|f.chunkHashes|] == f.chunkHashes;
      assert files[..k] == files[..k - 1] + [f];
      if Lists(files[..k], hash) && hash !in f.chunkHashes {
        var i :| 0 <= i < k && hash in files[..k][i].chunkHashes;
        assert files[..k - 1][i] == files[i];
      }
      if Lists(files[..k - 1], hash) {
        var i :| 0 <= i < k - 1 && hash in files[..k - 1][i].chunkHashes;
        assert files[..k][i] == files[i];
      }
      if hash in f.chunkHashes {
        assert files[..k][k - 1] == f;
      }
    }
  }

  // Chunk k of file i has that hash.
  ghost predicate HashAt(files: seq<FileEntry>, i: nat, k: nat, hash: string) {
    i < |files| && k < |files[i].chunkHashes| && files[i].chunkHashes[k] == hash
  }

  // ... and no later chunk of the same or a later file up to n has it.
  ghost predicate LastHashAt(files: seq<FileEntry>, n: nat, i: nat, k: nat, hash: string) {
    && i < n && HashAt(files, i, k, hash)
    && (forall l: nat :: k < l ==> !HashAt(files, i, l, hash))
    && (forall j: nat, l: nat :: i < j < n ==> !HashAt(files, j, l, hash))
  }

  lemma {:induction false} FileIndexedLast(site: Site, idx: Index, f: FileEntry, n: nat, hash: string)
    returns (k: nat)
    requires n <= |f.chunkHashes|
    ensures var r := FileIndexed(site, idx, f, n);
      if k < n
      then f.chunkHashes[k] == hash && hash !in f.chunkHashes[k + 1..n] && hash in r
        && r[hash] == Loc(site.abs(f.path), OffsetAt(f, k), SizeAt(f, k))
      else k == n && hash !in f.chunkHashes[..n] && (hash in r <==> hash in idx) && (hash in r ==> r[hash] == idx[hash])
  {
    k := 0;
    if n > 0 {
      var last := f.chunkHashes[n - 1];
      assert f.chunkHashes[..n] == f.chunkHashes[..n - 1] + [last];
      k := FileIndexedLast(site, idx, f, n - 1, hash);
      if last == hash {
        k := n - 1;
      } else if k == n - 1 {
        k := n;
      } else {
        assert f.chunkHashes[k + 1..n] == f.chunkHashes[k + 1..n - 1] + [last];
      }
    }
  }

  // The index maps exactly the listed hashes, each to the last chunk that has it.
  lemma {:induction false} IndexedIsLast(site: Site, files: seq<FileEntry>, n: nat, hash: string)
    returns (i: nat, k: nat)
    requires n <= |files|
    ensures var idx := Indexed(site, files, n);
      if hash in idx
      then LastHashAt(files, n, i, k, hash)
        && idx[hash] == Loc(site.abs(files[i].path), OffsetAt(files[i], k), SizeAt(files[i], k))
      else forall j: nat, l: nat :: j < n ==> !HashAt(files, j, l, hash)
  {
    i, k := 0, 0;
    if n > 0 {
      var f := files[n - 1];
      i, k := IndexedIsLast(site, files, n - 1, hash);
      var l := FileIndexedLast(site, Indexed(site, files, n - 1), f, |f.chunkHashes|, hash);
      if l < |f.chunkHashes| {
        i, k := n - 1, l;
        LaterAbsent(f, l, hash);
      } else {
        assert f.chunkHashes[..|f.chunkHashes|] == f.chunkHashes;
      }
    }
  }

  lemma LaterAbsent(f: FileEntry, k: nat, hash: string)
    requires k < |f.chunkHashes| && hash !in f.chunkHashes[k + 1..|f.chunkHashes|]
    ensures forall l: nat :: k < l < |f.chunkHashes| ==> f.chunkHashes[l] != hash
  {
    forall l: nat | k < l < |f.chunkHashes|
      ensures f.chunkHashes[l] != hash
    {
      assert f.chunkHashes[k + 1..|f.chunkHashes|][l - k - 1] == f.chunkHashes[l];
    }
  }

  // A verified file on disk is, byte for byte, what the publisher cut.
  lemma ServedPiece(site: Site, disk: Disk, f: FileEntry, hash: string, loc: Loc)
    requires CollisionFree(site) && OnDisk(site, disk, f) && WellCut(site, f) && PointsIntoFile(site, f, hash, loc)
    ensures Readable(site, disk, hash, loc)
  {
    var k :| PointsAt(site, f, hash, loc, k);
    var pieces :| Cut(site, f, pieces);
    var stored :| Chunked(site, stored, f.chunkHashes) && Flatten(stored) == disk[site.abs(f.path)];
    PiecesAreUnique(site, pieces, stored, f.chunkHashes);
    OffsetsFollowPieces(site, f, pieces, k);
    FlattenSplit(pieces, k);
    var data := disk[loc.path];
    assert data[loc.offset..loc.offset + loc.size] == pieces[k];
  }

  // The bytes the location speaks of exist.
  predicate InRange(disk: Disk, loc: Loc) {
    loc.path in disk && 0 <= loc.offset && 0 <= loc.size && loc.offset + loc.size <= |disk[loc.path]|
  }

  // A location from which the chunk of that hash can be read.
  ghost predicate Readable(site: Site, disk: Disk, hash: string, loc: Loc) {
    InRange(disk, loc) && HashMatches(site, disk[loc.path][loc.offset..loc.offset + loc.size], hash)
  }

  // Exactly when an answer carries the right bytes, and when it carries wrong ones, whatever the
  // index and the disk: ServeChunk itself checks nothing.
  lemma ServedExactlyWhen(site: Site, disk: Disk, idx: Index, hash: string)
    ensures var r := Served(disk, idx, hash);
      && (r.Chunk? && HashMatches(site, r.data, hash) <==> hash in idx && Readable(site, disk, hash, idx[hash]))
      && (r.Chunk? && !HashMatches(site, r.data, hash) <==>
            hash in idx && InRange(disk, idx[hash]) && !Readable(site, disk, hash, idx[hash]))
  {
  }

  ghost predicate AllWellCut(site: Site, files: seq<FileEntry>) {
    forall i :: 0 <= i < |files| ==> WellCut(site, files[i])
  }

  lemma ReadableFromSomeFile(site: Site, disk: Disk, files: seq<FileEntry>, hash: string, loc: Loc)
    requires CollisionFree(site) && AllOnDisk(site, disk, files) && AllWellCut(site, files)
    requires PointsInto(site, files, hash, loc)
    ensures Readable(site, disk, hash, loc)
  {
    var i :| 0 <= i < |files| && PointsIntoFile(site, files[i], hash, loc);
    ServedPiece(site, disk, files[i], hash, loc);
  }

  lemma IndexIsReadable(site: Site, disk: Disk, files: seq<FileEntry>, hash: string)
    requires CollisionFree(site) && AllOnDisk(site, disk, files) && AllWellCut(site, files)
    ensures var idx := Indexed(site, files, |files|);
      && (hash in idx <==> Lists(files, hash))
      && (hash in idx ==> Readable(site, disk, hash, idx[hash]))
  {
    IndexPoints(site, files, |files|, hash);
    assert files[..|files|] == files;
    if hash in Indexed(site, files, |files|) {
      ReadableFromSomeFile(site, disk, files, hash, Indexed(site, files, |files|)[hash]);
    }
  }

  // With the manifest on disk, ServeChunk answers exactly the manifest's hashes, each with
  // bytes of that hash, wherever and however often the hash occurs.
  lemma ServesExactlyTheManifest(site: Site, disk: Disk, files: seq<FileEntry>, hash: string)
    requires CollisionFree(site) && AllOnDisk(site, disk, files) && AllWellCut(site, files)
    ensures var r := Served(disk, Indexed(site, files, |files|), hash);
      if Lists(files, hash) then r.Chunk? && HashMatches(site, r.data, hash) else r.NoChunk?
  {
    IndexIsReadable(site, disk, files, hash);
    ServedExactlyWhen(site, disk, Indexed(site, files, |files|), hash);
  }

  ghost predicate ServesManifest(site: Site, disk: Disk, idx: Index, files: seq<FileEntry>) {
    forall hash :: Answers(site, disk, idx, files, hash)
  }

  // A listed hash is answered with bytes of that hash, any other not at all.
  ghost predicate Answers(site: Site, disk: Disk, idx: Index, files: seq<FileEntry>, hash: string) {
    var r := Served(disk, idx, hash);
    if Lists(files, hash) then r.Chunk? && HashMatches(site, r.data, hash) else r.NoChunk?
  }

  // End to end: after any run of clean syncs, a node serves exactly the last manifest.
  lemma CleanRunServes(site: Site, jobs: seq<Job>)
    requires CollisionFree(site) && CleanRun(site, map[], jobs) && jobs != []
    requires AllWellCut(site, jobs[|jobs| - 1].m.files)
    ensures var files := jobs[|jobs| - 1].m.files;
      ServesManifest(site, DiskAfter(site, map[], jobs), Indexed(site, files, |files|), files)
  {
    CleanRunMirrors(site, jobs);
    var files := jobs[|jobs| - 1].m.files;
    forall hash
      ensures Answers(site, DiskAfter(site, map[], jobs), Indexed(site, files, |files|), files, hash)
    {
      ServesExactlyTheManifest(site, DiskAfter(site, map[], jobs), files, hash);
    }
  }
}
