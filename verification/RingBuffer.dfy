// log_upload.go: the circular buffer of recent log output.
module RingBuffer {
  import opened Common
  import opened Numbers

  datatype Ring = Ring(buf: Bytes, pos: nat, full: bool)

  function Empty(cap: nat): (r: Ring) {
    Ring(seq(cap, _ => 0), 0, false)
  }

  ghost predicate Valid(r: Ring) {
    r.pos < |r.buf| || (r.pos == 0 && |r.buf| == 0)
  }

  // src written over dst from offset o on.
  function Overlay(dst: Bytes, o: nat, src: Bytes): (r: Bytes)
    requires o + |src| <= |dst|
    ensures |r| == |dst|
  {
    dst[..o] + src + dst[o + |src|..]
  }

  function Written(r: Ring, p: Bytes): (s: Ring)
    requires Valid(r)
    ensures Valid(s) && |s.buf| == |r.buf|
  {
    var n, cap := |p|, |r.buf|;
    if n >= cap then Ring(p[n - cap..], 0, true)
    else
      var end := r.pos + n;
      if end <= cap then Ring(Overlay(r.buf, r.pos, p), end % cap, r.full)
      else
        var first := cap - r.pos;
        Ring(Overlay(Overlay(r.buf, r.pos, p[..first]), 0, p[first..]), end % cap, true)
  }

  function Snapshot(r: Ring): (b: Bytes)
    requires Valid(r)
  {
    if r.full then r.buf[r.pos..] + r.buf[..r.pos] else r.buf[..r.pos]
  }

  class Buffer {
    var buf: array<byte>
    var pos: nat
    var full: bool

    ghost function Value(): (r: Ring)
      reads this, buf
    {
      Ring(buf[..], pos, full)
    }

    constructor (size: nat)
      ensures Value() == Empty(size) && fresh(buf)
    {
      buf := new byte[size](_ => 0);
      pos, full := 0, false;
    }

    // copy(rb.buf[o:], p)
    method CopyAt(o: nat, p: Bytes)
      requires o + |p| <= buf.Length
      modifies buf
      ensures buf[..] == Overlay(old(buf[..]), o, p)
    {
      forall i | 0 <= i < |p| {
        buf[o + i] := p[i];
      }
    }

    method Write(p: Bytes) returns (n: nat)
      requires Valid(Value())
      modifies this, buf
      ensures n == |p| && buf == old(buf) && Value() == Written(old(Value()), p)
    {
      n := |p|;
      var cap := buf.Length;
      if n >= cap {
        CopyAt(0, p[n - cap..]);
        pos := 0;
        full := true;
        return;
      }
      var end := pos + n;
      if end <= cap {
        CopyAt(pos, p);
      } else {
        var first := cap - pos;
        CopyAt(pos, p[..first]);
        CopyAt(0, p[first..]);
        full := true;
      }
      pos := end % cap;
    }

    method TakeSnapshot() returns (out: Bytes)
      requires Valid(Value())
      ensures out == Snapshot(Value())
    {
      if !full {
        out := buf[..pos];
      } else {
        out := buf[pos..] + buf[..pos];
      }
    }
  }

  // ---- All writes so far ----

  function After(cap: nat, ws: seq<Bytes>): (r: Ring)
    ensures Valid(r) && |r.buf| == cap
  {
    if ws == [] then Empty(cap) else Written(After(cap, ws[..|ws| - 1]), ws[|ws| - 1])
  }

  function Log(ws: seq<Bytes>): (b: Bytes) {
    if ws == [] then [] else Log(ws[..|ws| - 1]) + ws[|ws| - 1]
  }

  ghost predicate IsSuffix(b: Bytes, log: Bytes) {
    |b| <= |log| && log[|log| - |b|..] == b
  }

  lemma SuffixGrows(b: Bytes, log: Bytes, p: Bytes)
    requires IsSuffix(b, log)
    ensures IsSuffix(b + p, log + p)
  {
    assert (log + p)[|log| - |b|..] == log[|log| - |b|..] + p;
  }

  lemma SuffixOfSuffix(b: Bytes, k: nat, log: Bytes)
    requires IsSuffix(b, log) && k <= |b|
    ensures IsSuffix(b[k..], log)
  {
    assert log[|log| - |b| + k..] == log[|log| - |b|..][k..];
  }

  // Slices of the buffer after a write that crosses its end.
  lemma CrossShape(buf: Bytes, pos: nat, p: Bytes)
    requires pos < |buf| && |p| < |buf| && pos + |p| > |buf|
    ensures var first, m := |buf| - pos, pos + |p| - |buf|;
      var after := Overlay(Overlay(buf, pos, p[..first]), 0, p[first..]);
      m < pos && after[m..] + after[..m] == buf[m..pos] + p
  {
    var first, m := |buf| - pos, pos + |p| - |buf|;
    var a, b := p[..first], p[first..];
    assert p == a + b;
    var once := Overlay(buf, pos, a);
    assert once == buf[..pos] + a;
    var after := Overlay(once, 0, b);
    assert after == b + once[m..];
    Rotations(b, once[m..]);
    assert once[m..] == buf[m..pos] + a;
    Regroup(buf[m..pos], a, b);
  }

  lemma RotatedTail(buf: Bytes, pos: nat, n: nat)
    requires pos <= |buf| && |buf| - pos <= n <= |buf|
    ensures (buf[pos..] + buf[..pos])[n..] == buf[n - (|buf| - pos)..pos]
  {
  }

  lemma CrossingWrite(r: Ring, p: Bytes) returns (k: nat)
    requires Valid(r) && |p| < |r.buf| && r.pos + |p| > |r.buf|
    ensures var s, both := Written(r, p), Snapshot(r) + p;
      k <= |both| && Snapshot(s) == both[k..] && |Snapshot(s)| == |r.buf|
  {
    var was, m := Snapshot(r), r.pos + |p| - |r.buf|;
    CrossShape(r.buf, r.pos, p);
    ModUnique(r.pos + |p|, |r.buf|, 1, m);
    var s := Written(r, p);
    assert Snapshot(s) == r.buf[m..r.pos] + p;
    if r.full {
      k := |p|;
      RotatedTail(r.buf, r.pos, k);
    } else {
      k := m;
    }
    assert was[k..] == r.buf[m..r.pos];
    DropThenAppend(was, p, k);
  }

  lemma DropThenAppend(a: Bytes, p: Bytes, k: nat)
    requires k <= |a|
    ensures (a + p)[k..] == a[k..] + p
  {
  }

  // Slices of a full buffer after a write that stays within it.
  lemma RotatedWrite(buf: Bytes, pos: nat, p: Bytes)
    requires pos + |p| <= |buf|
    ensures (buf[pos..] + buf[..pos] + p)[|p|..] == buf[pos + |p|..] + (buf[..pos] + p)
  {
    var head, end := buf[..pos] + p, pos + |p|;
    assert buf[pos..] + buf[..pos] + p == buf[pos..end] + (buf[end..] + head);
  }

  lemma WithinShape(r: Ring, p: Bytes)
    requires Valid(r) && |p| < |r.buf| && r.pos + |p| <= |r.buf|
    ensures var s, end := Written(r, p), r.pos + |p|;
      s == Ring(r.buf[..r.pos] + p + r.buf[end..], if end == |r.buf| then 0 else end, r.full)
  {
    var end := r.pos + |p|;
    if end == |r.buf| {
      ModUnique(end, |r.buf|, 1, 0);
    } else {
      ModUnique(end, |r.buf|, 0, end);
    }
  }

  lemma Rotations(head: Bytes, tail: Bytes)
    ensures (head + tail)[|head|..] + (head + tail)[..|head|] == tail + head
    ensures tail == [] ==> (head + tail)[0..] + (head + tail)[..0] == tail + head
  {
  }

  lemma WithinFull(r: Ring, p: Bytes)
    requires Valid(r) && r.full && |p| < |r.buf| && r.pos + |p| <= |r.buf|
    ensures var s := Written(r, p); Snapshot(s) == (Snapshot(r) + p)[|p|..] && |Snapshot(s)| == |r.buf|
  {
    WithinShape(r, p);
    RotatedWrite(r.buf, r.pos, p);
    Rotations(r.buf[..r.pos] + p, r.buf[r.pos + |p|..]);
  }

  lemma WithinFresh(r: Ring, p: Bytes) returns (k: nat)
    requires Valid(r) && !r.full && |p| < |r.buf| && r.pos + |p| <= |r.buf|
    ensures var s, both := Written(r, p), Snapshot(r) + p; k <= |both| && Snapshot(s) == both[k..]
  {
    WithinShape(r, p);
    var s, end := Written(r, p), r.pos + |p|;
    if end == |r.buf| {
      k := end;
    } else {
      assert s.buf[..end] == r.buf[..r.pos] + p;
      k := 0;
    }
  }

  // What one write does to the snapshot: it drops a front part of the old snapshot followed
  // by the new bytes; a full buffer keeps exactly its capacity.
  lemma WriteDropsFront(r: Ring, p: Bytes) returns (k: nat)
    requires Valid(r)
    ensures var s, both := Written(r, p), Snapshot(r) + p;
      && k <= |both| && Snapshot(s) == both[k..]
      && (s.full ==> |Snapshot(s)| == |r.buf|)
  {
    if |p| >= |r.buf| {
      k := |Snapshot(r)| + |p| - |r.buf|;
      assert (Snapshot(r) + p)[k..] == p[|p| - |r.buf|..];
    } else if r.pos + |p| > |r.buf| {
      k := CrossingWrite(r, p);
    } else if r.full {
      WithinFull(r, p);
      k := |p|;
    } else {
      k := WithinFresh(r, p);
    }
  }

  // After any writes the snapshot is a suffix of everything written, and once the buffer
  // counts as full it is exactly the last cap bytes.
  lemma {:induction false} SnapshotIsSuffix(cap: nat, ws: seq<Bytes>)
    ensures IsSuffix(Snapshot(After(cap, ws)), Log(ws))
    ensures After(cap, ws).full ==> |Snapshot(After(cap, ws))| == cap
  {
    if ws != [] {
      var front, p := ws[..|ws| - 1], ws[|ws| - 1];
      SnapshotIsSuffix(cap, front);
      var r := After(cap, front);
      var k := WriteDropsFront(r, p);
      SuffixGrows(Snapshot(r), Log(front), p);
      SuffixOfSuffix(Snapshot(r) + p, k, Log(front) + p);
    }
  }

  // Write i is at least as long as the buffer, or crosses its end.
  ghost predicate Overruns(cap: nat, ws: seq<Bytes>, i: nat)
    requires i < |ws|
  {
    |ws[i]| >= cap || |Log(ws[..i])| % cap + |ws[i]| > cap
  }

  ghost predicate EverOverruns(cap: nat, ws: seq<Bytes>) {
    exists i: nat :: i < |ws| && Overruns(cap, ws, i)
  }

  lemma NextPosition(a: nat, n: nat, cap: nat)
    requires cap > 0 && a % cap + n <= cap
    ensures (a + n) % cap == (a % cap + n) % cap
  {
    var q, x := a / cap, a % cap;
    assert a == q * cap + x;
    if x + n < cap {
      ModUnique(a + n, cap, q, x + n);
      ModUnique(x + n, cap, 0, x + n);
    } else {
      NextLap(q, cap);
      ModUnique(a + n, cap, q + 1, 0);
      ModUnique(x + n, cap, 1, 0);
    }
  }

  lemma NextLap(q: nat, cap: nat)
    ensures (q + 1) * cap == q * cap + cap
  {
  }

  lemma EverOverrunsFront(cap: nat, ws: seq<Bytes>)
    requires ws != []
    ensures EverOverruns(cap, ws) <==> EverOverruns(cap, ws[..|ws| - 1]) || Overruns(cap, ws, |ws| - 1)
  {
    var front := ws[..|ws| - 1];
    forall i: nat | i < |front|
      ensures Overruns(cap, ws, i) <==> Overruns(cap, front, i)
    {
      assert front[..i] == ws[..i];
    }
    if EverOverruns(cap, front) {
      var i: nat :| i < |front| && Overruns(cap, front, i);
      assert Overruns(cap, ws, i);
    }
    if EverOverruns(cap, ws) && !Overruns(cap, ws, |ws| - 1) {
      var i: nat :| i < |ws| && Overruns(cap, ws, i);
      assert Overruns(cap, front, i);
    }
  }

  // The buffer counts as full exactly from the first write that crosses its end or is at
  // least its size; until then the position is the total modulo the capacity.
  lemma {:induction false} FullExactlyWhenOverrun(cap: nat, ws: seq<Bytes>)
    ensures After(cap, ws).full <==> EverOverruns(cap, ws)
    ensures !After(cap, ws).full && cap > 0 ==> After(cap, ws).pos == |Log(ws)| % cap
  {
    if ws != [] {
      var front, p := ws[..|ws| - 1], ws[|ws| - 1];
      FullExactlyWhenOverrun(cap, front);
      EverOverrunsFront(cap, ws);
      if !After(cap, front).full && |p| < cap && |Log(front)| % cap + |p| <= cap {
        NextPosition(|Log(front)|, |p|, cap);
      }
    }
  }

  // "The most recent bytes, up to the capacity" is what a reader expects; it holds exactly
  // when the buffer counts as full or less than its capacity was written.  A write that ends
  // exactly at the end leaves full unset, and the snapshot then forgets what is still there.
  lemma MostRecentExactlyWhen(cap: nat, ws: seq<Bytes>)
    requires cap > 0
    ensures var n := Min(|Log(ws)|, cap);
      Snapshot(After(cap, ws)) == Log(ws)[|Log(ws)| - n..] <==> EverOverruns(cap, ws) || |Log(ws)| < cap
  {
    SnapshotIsSuffix(cap, ws);
    FullExactlyWhenOverrun(cap, ws);
    if |Log(ws)| < cap {
      ModUnique(|Log(ws)|, cap, 0, |Log(ws)|);
    }
  }

  // Writes that together fill the buffer a whole number of times, none overrunning it, leave
  // an empty snapshot.
  lemma ExactFillIsForgotten(cap: nat, ws: seq<Bytes>)
    requires cap > 0 && !EverOverruns(cap, ws) && |Log(ws)| % cap == 0
    ensures Snapshot(After(cap, ws)) == []
  {
    FullExactlyWhenOverrun(cap, ws);
  }
}
