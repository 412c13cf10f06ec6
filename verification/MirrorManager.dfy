// mirror.go: the MirrorManager object, with the code's own fields and loops.
module MirrorManager {
  import opened Common
  import opened Manifests
  import opened FileSystem
  import opened Mirror
  import opened ChunkIndex

  lemma DropMore(disk: Disk, gone: set<string>, p: string)
    ensures disk - gone - {p} == disk - (gone + {p})
  {
  }

  class Manager {
    const site: Site
    const verifier: Verifier
    var ts: int
    var gen: int
    var chunkIdx: Index
    var disk: Disk

    constructor (site: Site, verifier: Verifier, disk: Disk)
      ensures this.site == site && this.verifier == verifier && this.disk == disk
      ensures ts == 0 && gen == 0 && chunkIdx == map[]
    {
      this.site, this.verifier, this.disk := site, verifier, disk;
      ts, gen, chunkIdx := 0, 0, map[];
    }

    // LoadCached
    method LoadCached()
      modifies `ts
      ensures ts == if Persisted(site, disk).Some? then Persisted(site, disk).value.ts else old(ts)
    {
      if site.statePath !in disk {
        return;
      }
      var m := site.parse(disk[site.statePath]);
      if m.Some? {
        ts := m.value.ts;
      }
    }

    // OnContentManifest up to the start of the background sync: a manifest is accepted exactly
    // when it verifies and is newer, and every acceptance starts a new generation, which
    // supersedes all syncs of earlier ones.
    method OnContentManifest(raw: Bytes) returns (accepted: Option<(Manifest, int)>)
      modifies `ts, `gen
      ensures var m := Verify(verifier, raw);
        if m.Some? && m.value.ts > old(ts)
        then accepted == Some((m.value, gen)) && ts == m.value.ts && gen == old(gen) + 1
        else accepted == None && ts == old(ts) && gen == old(gen)
    {
      var m := Verify(verifier, raw);
      if m.None? {
        return None;
      }
      if m.value.ts <= ts {
        return None;
      }
      ts := m.value.ts;
      gen := gen + 1;
      accepted := Some((m.value, gen));
    }

    method FetchChunk(e: ChunkEnv, hash: string) returns (r: Option<Bytes>)
      ensures r == Fetched(site, e, hash)
    {
      for i := 0 to |e.peers|
        invariant FirstGood(site, e.peers, hash) == FirstGood(site, e.peers[i..], hash)
      {
        match e.peers[i]
        case Unreachable =>
        case Miss =>
        case Sent(data) =>
          if HashMatches(site, data, hash) {
            return Some(data);
          }
      }
      if e.relay.None? || !e.relay.value.Sent? {
        return None;
      }
      var data := e.relay.value.data;
      if !HashMatches(site, data, hash) {
        return None;
      }
      r := Some(data);
    }

    method SyncFile(e: FileEnv, f: FileEntry) returns (ok: bool)
      modifies `disk
      ensures (disk, ok) == FileSynced(site, e, old(disk), f)
    {
      var abs := site.abs(f.path);
      var tmp := abs + ".part";
      if !e.createOk {
        return false;
      }
      disk := disk[tmp := []];
      for i := 0 to |f.chunkHashes|
        invariant tmp in disk && Assembled(site, e, f.chunkHashes, i) == Some(disk[tmp])
        invariant disk - {tmp} == old(disk) - {tmp}
      {
        var ce := e.chunks(i);
        var data: Option<Bytes> := None;
        if !ce.superseded {
          data := FetchChunk(ce, f.chunkHashes[i]);
        }
        if data.None? || !ce.writeOk {
          FailureSticks(site, e, f.chunkHashes, i + 1, |f.chunkHashes|);
          disk := disk - {tmp};
          return false;
        }
        disk := disk[tmp := disk[tmp] + data.value];
      }
      if !e.renameOk {
        disk := disk - {tmp};
        return false;
      }
      disk := (disk - {tmp})[abs := disk[tmp]];
      ok := true;
    }

    // Removes the files the new manifest no longer lists, in any order.
    method DeleteStale(e: SyncEnv, prev: set<string>, wanted: set<string>)
      modifies `disk
      ensures disk == old(disk) - Doomed(site, e, prev, wanted)
    {
      var rest := prev;
      while rest != {}
        invariant rest <= prev
        invariant disk == old(disk) - Doomed(site, e, prev - rest, wanted)
        decreases |rest|
      {
        var p :| p in rest;
        ghost var done := prev - rest;
        rest := rest - {p};
        assert prev - rest == done + {p};
        DoomedMore(site, e, done, p, wanted);
        if p !in wanted && e.deleteOk(p) {
          DropMore(old(disk), Doomed(site, e, done, wanted), site.abs(p));
          disk := disk - {site.abs(p)};
        }
      }
      assert prev - {} == prev;
    }

    method ListFiles(files: seq<FileEntry>) returns (r: map<string, FileEntry>)
      ensures r == FileMap(files, |files|)
    {
      r := map[];
      for i := 0 to |files|
        invariant r == FileMap(files, i)
      {
        r := r[files[i].path := files[i]];
      }
    }

    // The loop over the files of the manifest.
    method SyncFiles(e: SyncEnv, prev: map<string, FileEntry>, files: seq<FileEntry>) returns (ok: bool, aborted: bool)
      modifies `disk
      ensures FilesSynced(site, e, prev, old(disk), files, |files|) == Progress(disk, ok, aborted)
    {
      ok, aborted := true, false;
      for i := 0 to |files|
        invariant !aborted && FilesSynced(site, e, prev, old(disk), files, i) == Progress(disk, ok, false)
      {
        if e.files(i).superseded {
          AbortSticks(site, e, prev, old(disk), files, i + 1, |files|);
          return ok, true;
        }
        var f := files[i];
        if f.path in prev && prev[f.path].chunkHashes == f.chunkHashes {
          continue;
        }
        var fileOk := SyncFile(e.files(i), f);
        if !fileOk {
          ok := false;
        }
      }
    }

    // os.WriteFile on the state file.
    method WriteState(persist: Persist, raw: Bytes)
      modifies `disk
      ensures disk == Recorded(site, persist, old(disk), raw)
    {
      match persist
      case Unopened =>
      case Partial(n) => disk := disk[site.statePath := raw[..Min(n, |raw|)]];
      case Full => disk := disk[site.statePath := raw];
    }

    // sync: the disk ends as Synced says, and the index is rebuilt exactly on completion.
    method Sync(raw: Bytes, m: Manifest, e: SyncEnv) returns (complete: bool)
      modifies `disk, `chunkIdx
      ensures disk == Synced(site, e, old(disk), raw, m).disk
      ensures complete == Synced(site, e, old(disk), raw, m).complete
      ensures chunkIdx == if complete then Indexed(site, m.files, |m.files|) else old(chunkIdx)
    {
      var prev: map<string, FileEntry> := map[];
      var state := Persisted(site, disk);
      if state.Some? {
        prev := ListFiles(state.value.files);
      }
      var wanted := ListFiles(m.files);
      DeleteStale(e, prev.Keys, wanted.Keys);
      var ok, aborted := SyncFiles(e, prev, m.files);
      if aborted || e.superseded {
        return false;
      }
      WriteState(e.persist, raw);
      if ok {
        chunkIdx := BuildChunkIndex(site, m.files);
      }
      complete := ok;
    }
  }
}
