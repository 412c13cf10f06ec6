// The file system as the mirror sees it: a directory of names and the files they name.  A file
// that is open stays writable through its descriptor after it has been renamed or removed.
module FileSystem {
  import opened Common

  type Disk = map<string, Bytes>

  // names: the directory; data: the bytes of every file ever created.
  datatype Fs = Fs(names: map<string, nat>, data: seq<Bytes>)

  // Every name leads to a file, and no two names to the same one.
  ghost predicate FsOk(fs: Fs) {
    && (forall p :: p in fs.names ==> fs.names[p] < |fs.data|)
    && (forall p, q :: p in fs.names && q in fs.names && p != q ==> fs.names[p] != fs.names[q])
  }

  // What a reader of the directory finds.
  ghost function View(fs: Fs): (d: Disk)
    requires FsOk(fs)
    ensures d.Keys == fs.names.Keys
  {
    map p | p in fs.names :: fs.data[fs.names[p]]
  }

  // os.OpenFile with O_CREATE, O_WRONLY and O_TRUNC.
  ghost function Create(fs: Fs, p: string): (r: (Fs, nat))
    requires FsOk(fs)
    ensures FsOk(r.0) && p in r.0.names && r.0.names[p] == r.1 && r.0.data[r.1] == []
    ensures View(r.0) == View(fs)[p := []]
  {
    if p in fs.names then (Truncated(fs, p), fs.names[p]) else (Added(fs, p), |fs.data|)
  }

  ghost function Truncated(fs: Fs, p: string): (r: Fs)
    requires FsOk(fs) && p in fs.names
    ensures FsOk(r) && r.names == fs.names && r.data[fs.names[p]] == [] && View(r) == View(fs)[p := []]
  {
    fs.(data := fs.data[fs.names[p] := []])
  }

  ghost function Added(fs: Fs, p: string): (r: Fs)
    requires FsOk(fs) && p !in fs.names
    ensures FsOk(r) && r.names == fs.names[p := |fs.data|] && r.data == fs.data + [[]]
    ensures View(r) == View(fs)[p := []]
  {
    Fs(fs.names[p := |fs.data|], fs.data + [[]])
  }

  // Writing bytes at an offset of a file; a gap reads as zeros.
  function Splice(was: Bytes, off: nat, bytes: Bytes): (r: Bytes)
    ensures off == |was| ==> r == was + bytes
  {
    if off > |was| then was + seq(off - |was|, _ => 0) + bytes
    else was[..off] + bytes + (if off + |bytes| <= |was| then was[off + |bytes|..] else [])
  }

  ghost function WriteAt(fs: Fs, fd: nat, off: nat, bytes: Bytes): (r: Fs)
    requires FsOk(fs) && fd < |fs.data|
    ensures FsOk(r) && r.names == fs.names
  {
    fs.(data := fs.data[fd := Splice(fs.data[fd], off, bytes)])
  }

  ghost function Remove(fs: Fs, p: string): (r: Fs)
    requires FsOk(fs)
    ensures FsOk(r) && View(r) == View(fs) - {p}
  {
    fs.(names := fs.names - {p})
  }

  ghost function Rename(fs: Fs, p: string, q: string): (r: Fs)
    requires FsOk(fs) && p in fs.names
    ensures FsOk(r) && View(r) == (View(fs) - {p})[q := View(fs)[p]]
  {
    fs.(names := (fs.names - {p})[q := fs.names[p]])
  }

  // Writing to a file changes what its name shows, wherever it was written.
  lemma WriteShows(fs: Fs, p: string, off: nat, bytes: Bytes)
    requires FsOk(fs) && p in fs.names
    ensures View(WriteAt(fs, fs.names[p], off, bytes)) == View(fs)[p := Splice(View(fs)[p], off, bytes)]
  {
  }

  // The two disks agree on the places in f.
  ghost predicate Same(f: iset<string>, a: Disk, b: Disk) {
    forall p :: p in f ==> (p in a <==> p in b) && (p in a ==> a[p] == b[p])
  }

  // The places in f lead to the same files with the same bytes.
  ghost predicate Untouched(f: iset<string>, a: Fs, b: Fs)
    requires FsOk(a) && FsOk(b)
  {
    forall p :: p in f ==>
      (p in a.names <==> p in b.names) && (p in a.names ==> a.names[p] == b.names[p] && View(a)[p] == View(b)[p])
  }

  // ---- Agreement through one change ----

  lemma SameRemoved(f: iset<string>, fs: Fs, p: string, d: Disk)
    requires FsOk(fs) && p !in d && Same(f - iset{p}, View(fs), d)
    ensures Same(f, View(Remove(fs, p)), d)
  {
  }

  lemma SameRenamed(f: iset<string>, fs: Fs, p: string, q: string, d: Disk, w: Bytes)
    requires FsOk(fs) && p in fs.names && View(fs)[p] == w && Same(f - iset{p}, View(fs), d)
    ensures Same(f - iset{p}, View(Rename(fs, p, q)), (d - {p})[q := w])
  {
  }

  lemma SameCreated(f: iset<string>, fs: Fs, p: string, d: Disk)
    requires FsOk(fs) && Same(f - iset{p}, View(fs), d)
    ensures Same(f - iset{p}, View(Create(fs, p).0), d)
  {
  }

  // Writing to a file that p leads to changes no other place.
  lemma SameWritten(f: iset<string>, fs: Fs, p: string, off: nat, bytes: Bytes, d: Disk)
    requires FsOk(fs) && p in fs.names && Same(f - iset{p}, View(fs), d)
    ensures Same(f - iset{p}, View(WriteAt(fs, fs.names[p], off, bytes)), d)
  {
    WriteShows(fs, p, off, bytes);
  }

  // Writing to a file that no place of f but p leads to.
  lemma SameOverwritten(f: iset<string>, fs: Fs, p: string, fd: nat, bytes: Bytes, d: Disk)
    requires FsOk(fs) && fd < |fs.data| && Same(f - iset{p}, View(fs), d)
    requires forall q :: q in f && q in fs.names && q != p ==> fs.names[q] != fd
    requires p in f ==> p in fs.names && fs.names[p] == fd && View(fs)[p] == []
    ensures Same(f, View(WriteAt(fs, fd, 0, bytes)), d[p := bytes])
  {
    assert [] + bytes == bytes;
  }

  // Agreement on part of f survives a step that leaves f alone.
  lemma SameThrough(f: iset<string>, fs: Fs, after: Fs, g: iset<string>, d: Disk)
    requires FsOk(fs) && FsOk(after) && Untouched(f, fs, after) && g <= f && Same(g, View(fs), d)
    ensures Same(g, View(after), d)
  {
  }

  lemma SameMinus(f: iset<string>, a: Disk, b: Disk, gone: set<string>, p: string)
    requires Same(f, a, b - gone)
    ensures Same(f, a - {p}, b - (gone + {p}))
  {
  }
}
