// tunnel.go and session.go: the download side of a tunnel connection.  Bytes pass from the
// response body through the decrypting reader, the producer's chunk, the bounded channel and
// the read buffer to the caller.
module TunnelRead {
  import opened Common
  import opened Wire

  const FRAME_CAP := 0x10_0000 // 1 MB sanity cap on a frame
  const CHUNK := 65536         // size of the producer's read buffer

  // openFrame with the session key; None is a decryption error.
  type Opener = Bytes -> Option<Bytes>

  // ---- framedDecryptReader ----

  datatype Reader = Reader(src: Bytes, buf: Bytes)

  datatype Frame = Frame(plain: Bytes, rest: Bytes) | Broken(rest: Bytes)

  // The next frame of the wire; a short read, an oversized frame or a bad tag breaks it off.
  function NextFrame(open: Opener, wire: Bytes): (f: Frame)
    ensures f.Frame? ==> |f.rest| < |wire|
  {
    if |wire| < 4 then Broken([])
    else
      var n := Get32(wire);
      if n > FRAME_CAP then Broken(wire[4..])
      else if |wire| - 4 < n then Broken([])
      else match open(wire[4..4 + n])
        case None => Broken(wire[4 + n..])
        case Some(plain) => Frame(plain, wire[4 + n..])
  }

  datatype Got = Got(reader: Reader, data: Bytes, err: bool)

  function Drain(r: Reader, cap: nat): (g: Got) {
    var n := Min(cap, |r.buf|);
    Got(Reader(r.src, r.buf[n..]), r.buf[..n], false)
  }

  function ReadSome(open: Opener, r: Reader, cap: nat): (g: Got) {
    if r.buf != [] then Drain(r, cap)
    else match NextFrame(open, r.src)
      case Broken(rest) => Got(Reader(rest, []), [], true)
      case Frame(plain, rest) => Drain(Reader(rest, plain), cap)
  }

  // All plaintext the wire still holds, up to the first broken frame.
  function Plain(open: Opener, wire: Bytes): (p: Bytes)
    decreases |wire|
  {
    match NextFrame(open, wire)
    case Broken(_) => []
    case Frame(plain, rest) => plain + Plain(open, rest)
  }

  class FramedReader {
    const open: Opener
    var src: Bytes
    var buf: Bytes

    function Value(): (r: Reader)
      reads this
    {
      Reader(src, buf)
    }

    constructor (open: Opener, src: Bytes)
      ensures this.open == open && Value() == Reader(src, [])
    {
      this.open, this.src, buf := open, src, [];
    }

    method Read(p: array<byte>) returns (n: nat, err: bool)
      modifies this, p
      ensures var g := ReadSome(open, old(Value()), p.Length);
        n == |g.data| <= p.Length && err == g.err && Value() == g.reader && p[..n] == g.data
      ensures p[n..] == old(p[..])[n..]
    {
      if |buf| == 0 {
        if |src| < 4 {
          src := [];
          return 0, true;
        }
        var frameLen := Get32(src);
        if frameLen > FRAME_CAP {
          src := src[4..];
          return 0, true;
        }
        if |src| - 4 < frameLen {
          src := [];
          return 0, true;
        }
        var frame := src[4..4 + frameLen];
        src := src[4 + frameLen..];
        var plain := open(frame);
        if plain.None? {
          return 0, true;
        }
        buf := plain.value;
      }
      n := Min(p.Length, |buf|);
      forall i | 0 <= i < n {
        p[i] := buf[i];
      }
      assert p[..n] == buf[..n];
      buf := buf[n..];
      err := false;
    }
  }

  // One Read neither loses nor invents bytes; it fails only when nothing is left.
  lemma ReadConserves(open: Opener, r: Reader, cap: nat)
    ensures var g := ReadSome(open, r, cap);
      if g.err then g.data == [] && r.buf + Plain(open, r.src) == []
      else g.data + g.reader.buf + Plain(open, g.reader.src) == r.buf + Plain(open, r.src)
  {
    var g := ReadSome(open, r, cap);
    if r.buf != [] {
      assert r.buf == r.buf[..|g.data|] + r.buf[|g.data|..];
    } else {
      match NextFrame(open, r.src)
      case Broken(_) =>
      case Frame(plain, rest) =>
        assert plain == plain[..|g.data|] + plain[|g.data|..];
        assert g.data + g.reader.buf + Plain(open, rest) == plain + Plain(open, rest);
    }
  }

  // A Read fails exactly when nothing is buffered and the next frame is cut short, announces more
  // than a megabyte or does not decrypt; otherwise it returns as much as fits of the buffer or of
  // that frame.
  lemma ReadFailsExactlyWhen(open: Opener, r: Reader, cap: nat)
    ensures var g := ReadSome(open, r, cap);
      var n := if |r.src| >= 4 then Get32(r.src) else 0;
      var broken := |r.src| < 4 || n > 0x10_0000 || |r.src| < 4 + n || open(r.src[4..4 + n]).None?;
      && (g.err <==> r.buf == [] && broken)
      && (!g.err ==>
            var at := if r.buf != [] then r.buf else open(r.src[4..4 + n]).value;
            g.data + g.reader.buf == at && |g.data| == Min(cap, |at|))
  {
  }

  // The server's side of the stream: each plaintext sealed and length-prefixed.
  function OnWire(sealer: Bytes -> Bytes, plains: seq<Bytes>): (w: Bytes) {
    if plains == [] then [] else Put32(|sealer(plains[0])|) + sealer(plains[0]) + OnWire(sealer, plains[1..])
  }

  // Framing and deframing are inverse for every list of plaintexts that seal to at most 1 MB.
  lemma {:induction false} DeframeInvertsFrame(open: Opener, sealer: Bytes -> Bytes, plains: seq<Bytes>)
    requires forall p :: p in plains ==> open(sealer(p)) == Some(p) && |sealer(p)| <= 0x10_0000
    ensures Plain(open, OnWire(sealer, plains)) == Flatten(plains)
  {
    if plains != [] {
      assert plains[0] in plains;
      OneFrame(open, sealer(plains[0]), plains[0], OnWire(sealer, plains[1..]));
      DeframeInvertsFrame(open, sealer, plains[1..]);
    }
  }

  lemma OneFrame(open: Opener, c: Bytes, plain: Bytes, rest: Bytes)
    requires open(c) == Some(plain) && |c| <= FRAME_CAP
    ensures NextFrame(open, Put32(|c|) + c + rest) == Frame(plain, rest)
  {
    var wire := Put32(|c|) + c + rest;
    GetPut32(|c|);
    GetsPrefix(Put32(|c|), c + rest);
    assert wire == Put32(|c|) + (c + rest);
    assert wire[4..4 + |c|] == c && wire[4 + |c|..] == rest;
  }

  // ---- TunnelConn.Read ----

  class TunnelConn {
    var readBuf: Bytes
    var dataChan: seq<Bytes>
    var closed: bool // Close was called
    var ended: bool  // the producer has closed the channel

    constructor (initial: Bytes)
      ensures readBuf == initial && dataChan == [] && !closed && !ended
    {
      readBuf, dataChan, closed, ended := initial, [], false, false;
    }

    // Streaming mode, when something is ready; otherwise the code waits.  pick is the choice of
    // the select statement when both the close and a chunk are ready.
    method Read(p: array<byte>, pick: bool) returns (n: nat, err: bool)
      requires readBuf != [] || dataChan != [] || closed || ended
      modifies `readBuf, `dataChan, p
      ensures n <= p.Length && p[n..] == old(p[..])[n..]
      ensures err <==> old(readBuf) == [] && (if old(dataChan) == [] then closed || ended else closed && pick)
      ensures if err then n == 0 && readBuf == old(readBuf) && dataChan == old(dataChan)
        else (p[..n], readBuf, dataChan) == Take(old(readBuf), old(dataChan), p.Length)
    {
      err := false;
      if |readBuf| > 0 {
        n := Min(p.Length, |readBuf|);
        forall i | 0 <= i < n {
          p[i] := readBuf[i];
        }
        assert p[..n] == readBuf[..n];
        readBuf := readBuf[n..];
        return;
      }
      if (closed && pick) || |dataChan| == 0 {
        return 0, true;
      }
      var chunk := dataChan[0];
      dataChan := dataChan[1..];
      n := Min(p.Length, |chunk|);
      forall i | 0 <= i < n {
        p[i] := chunk[i];
      }
      assert p[..n] == chunk[..n];
      if n < |chunk| {
        readBuf := readBuf + chunk[n..];
        assert readBuf == chunk[n..];
      }
    }
  }

  // What the caller gets, the read buffer left, the channel left.
  function Take(readBuf: Bytes, queue: seq<Bytes>, cap: nat): (r: (Bytes, Bytes, seq<Bytes>))
    requires readBuf != [] || queue != []
  {
    if readBuf != [] then
      var n := Min(cap, |readBuf|);
      (readBuf[..n], readBuf[n..], queue)
    else
      var n := Min(cap, |queue[0]|);
      (queue[0][..n], queue[0][n..], queue[1..])
  }

  lemma TakeConserves(readBuf: Bytes, queue: seq<Bytes>, cap: nat)
    requires readBuf != [] || queue != []
    ensures var (got, buf, rest) := Take(readBuf, queue, cap);
      got + buf + Flatten(rest) == readBuf + Flatten(queue)
  {
    var (got, buf, rest) := Take(readBuf, queue, cap);
    if readBuf != [] {
      assert readBuf == got + buf;
    } else {
      assert queue[0] == got + buf;
    }
  }

  // A Read with room returns as much as fits of what is at hand, at least one byte.
  lemma TakeMakesProgress(readBuf: Bytes, queue: seq<Bytes>, cap: nat)
    requires cap > 0 && (readBuf != [] || (queue != [] && queue[0] != []))
    ensures var (got, buf, rest) := Take(readBuf, queue, cap);
      var at := if readBuf != [] then readBuf else queue[0];
      0 < |got| == Min(cap, |at|) && got + buf == at
  {
  }

  // ---- Producer and consumer ----

  // streams: the wires of the streams opened so far; held: the chunk between body.Read and the
  // channel; lost: what a Close made the producer drop.
  datatype Conn =
    Conn(initial: Bytes, streams: seq<Bytes>, reader: Option<Reader>, held: Option<Bytes>, queue: seq<Bytes>,
         readBuf: Bytes, delivered: Bytes, closed: bool, done: bool, lost: Bytes)

  datatype Event =
    | Open(wire: Bytes)   // streamFn succeeded; wire is all the body will ever yield
    | Pull                // body.Read into the 64 KB buffer
    | Push                // the chunk enters the channel
    | Drop                // the connection was closed while the chunk waited
    | Finish              // the loop ends between streams
    | Consume(cap: nat)   // the caller's Read
    | Shut                // Close

  predicate Can(c: Conn, depth: nat, e: Event) {
    match e
    case Open(_) => c.reader.None? && c.held.None? && !c.done
    case Pull => c.reader.Some? && c.held.None?
    case Push => c.held.Some? && |c.queue| < depth
    case Drop => c.held.Some? && c.closed
    case Finish => c.reader.None? && c.held.None? && !c.done
    case Consume(_) => c.readBuf != [] || c.queue != []
    case Shut => !c.closed
  }

  function InReader(open: Opener, c: Conn): (b: Bytes) {
    if c.reader.None? then [] else c.reader.value.buf + Plain(open, c.reader.value.src)
  }

  function Held(c: Conn): (b: Bytes) {
    if c.held.None? then [] else c.held.value
  }

  function Do(open: Opener, depth: nat, c: Conn, e: Event): (r: Conn)
    requires Can(c, depth, e)
  {
    match e
    case Open(wire) => c.(streams := c.streams + [wire], reader := Some(Reader(wire, [])))
    case Pull =>
      var g := ReadSome(open, c.reader.value, CHUNK);
      if g.err then c.(reader := None)
      else c.(reader := Some(g.reader), held := if g.data != [] then Some(g.data) else None)
    case Push => c.(queue := c.queue + [c.held.value], held := None)
    case Drop => c.(lost := c.lost + Held(c) + InReader(open, c), reader := None, held := None, done := true)
    case Finish => c.(done := true)
    case Consume(cap) =>
      var (got, buf, rest) := Take(c.readBuf, c.queue, cap);
      c.(delivered := c.delivered + got, readBuf := buf, queue := rest)
    case Shut => c.(closed := true)
  }

  function Plains(open: Opener, wires: seq<Bytes>): (p: Bytes) {
    if wires == [] then [] else Plains(open, wires[..|wires| - 1]) + Plain(open, wires[|wires| - 1])
  }

  // Everything the caller is owed: the inline response to the dial, then every stream's
  // plaintext in order.
  function Owed(open: Opener, c: Conn): (b: Bytes) {
    c.initial + Plains(open, c.streams)
  }

  // Everything, wherever it is now.
  function Accounted(open: Opener, c: Conn): (b: Bytes) {
    c.delivered + (c.readBuf + (Flatten(c.queue) + Upstream(open, c)))
  }

  function Upstream(open: Opener, c: Conn): (b: Bytes) {
    Held(c) + (InReader(open, c) + c.lost)
  }

  ghost predicate Conserved(open: Opener, depth: nat, c: Conn) {
    Accounted(open, c) == Owed(open, c) && InBounds(depth, c)
  }

  ghost predicate InBounds(depth: nat, c: Conn) {
    && (c.lost != [] ==> c.done && c.closed)
    && (c.done ==> c.reader.None? && c.held.None?)
    && |c.queue| <= depth
    && (forall i :: 0 <= i < |c.queue| ==> 0 < |c.queue[i]| <= 65536)
    && (c.held.Some? ==> 0 < |c.held.value| <= 65536)
  }

  lemma OpenAccounted(open: Opener, depth: nat, c: Conn, wire: Bytes)
    requires Can(c, depth, Open(wire)) && Conserved(open, depth, c)
    ensures var d := Do(open, depth, c, Open(wire)); Accounted(open, d) == Owed(open, d)
  {
    var d := Do(open, depth, c, Open(wire));
    var p, f := Plain(open, wire), Flatten(c.queue);
    assert d.streams[..|c.streams|] == c.streams;
    assert Upstream(open, c) == [] && Upstream(open, d) == p;
    assert f + [] == f;
    Regroup(c.readBuf, f, p);
    Regroup(c.delivered, c.readBuf + f, p);
    Regroup(c.initial, Plains(open, c.streams), p);
  }

  lemma PullAccounted(open: Opener, depth: nat, c: Conn)
    requires Can(c, depth, Pull)
    ensures Accounted(open, Do(open, depth, c, Pull)) == Accounted(open, c)
  {
    var d := Do(open, depth, c, Pull);
    ReadConserves(open, c.reader.value, CHUNK);
    var g := ReadSome(open, c.reader.value, CHUNK);
    if !g.err {
      Regroup(g.data, g.reader.buf, Plain(open, g.reader.src));
    }
    assert Held(d) + InReader(open, d) == InReader(open, c);
    Regroup(Held(d), InReader(open, d), c.lost);
    Regroup(Held(c), InReader(open, c), c.lost);
    assert Upstream(open, d) == Upstream(open, c);
  }

  lemma PushAccounted(open: Opener, depth: nat, c: Conn)
    requires Can(c, depth, Push)
    ensures Accounted(open, Do(open, depth, c, Push)) == Accounted(open, c)
  {
    var d := Do(open, depth, c, Push);
    FlattenSnoc(c.queue, c.held.value);
    Regroup(Flatten(c.queue), c.held.value, InReader(open, c) + c.lost);
    assert Upstream(open, d) == InReader(open, c) + c.lost;
  }

  lemma DropAccounted(open: Opener, depth: nat, c: Conn)
    requires Can(c, depth, Drop) && c.lost == []
    ensures Accounted(open, Do(open, depth, c, Drop)) == Accounted(open, c)
  {
    var d := Do(open, depth, c, Drop);
    assert d.lost == Held(c) + InReader(open, c);
    assert InReader(open, c) + [] == InReader(open, c);
    assert Upstream(open, d) == Upstream(open, c);
  }

  lemma Rebracket(a: Bytes, got: Bytes, buf: Bytes, f: Bytes, readBuf: Bytes, queued: Bytes, u: Bytes)
    requires got + buf + f == readBuf + queued
    ensures (a + got) + (buf + (f + u)) == a + (readBuf + (queued + u))
  {
    assert (a + got) + (buf + (f + u)) == a + ((got + buf + f) + u);
    assert a + ((readBuf + queued) + u) == a + (readBuf + (queued + u));
  }

  lemma ConsumeAccounted(open: Opener, depth: nat, c: Conn, cap: nat)
    requires Can(c, depth, Consume(cap))
    ensures Accounted(open, Do(open, depth, c, Consume(cap))) == Accounted(open, c)
  {
    TakeConserves(c.readBuf, c.queue, cap);
    var (got, buf, rest) := Take(c.readBuf, c.queue, cap);
    Rebracket(c.delivered, got, buf, Flatten(rest), c.readBuf, Flatten(c.queue), Upstream(open, c));
  }

  lemma StepInBounds(open: Opener, depth: nat, c: Conn, e: Event)
    requires Can(c, depth, e) && InBounds(depth, c)
    ensures InBounds(depth, Do(open, depth, c, e))
  {
  }

  lemma StepConserves(open: Opener, depth: nat, c: Conn, e: Event)
    requires Can(c, depth, e) && Conserved(open, depth, c)
    ensures Conserved(open, depth, Do(open, depth, c, e))
  {
    StepInBounds(open, depth, c, e);
    match e
    case Open(wire) => OpenAccounted(open, depth, c, wire);
    case Pull => PullAccounted(open, depth, c);
    case Push => PushAccounted(open, depth, c);
    case Drop => DropAccounted(open, depth, c);
    case Finish =>
    case Consume(cap) => ConsumeAccounted(open, depth, c, cap);
    case Shut =>
  }

  // A stream is over exactly when a Read of it fails: nothing is buffered and no whole frame that
  // decrypts is left.  Otherwise what was read, at most 64 KB, is held for the channel.
  lemma PullEndsExactlyWhen(open: Opener, depth: nat, c: Conn)
    requires Can(c, depth, Pull)
    ensures var r, d := c.reader.value, Do(open, depth, c, Pull);
      var n := if |r.src| >= 4 then Get32(r.src) else 0;
      var broken := |r.src| < 4 || n > 0x10_0000 || |r.src| < 4 + n || open(r.src[4..4 + n]).None?;
      && (d.reader.None? <==> r.buf == [] && broken)
      && (d.reader.Some? ==>
            var at := if r.buf != [] then r.buf else open(r.src[4..4 + n]).value;
            Held(d) == at[..Min(65536, |at|)] && d.reader.value.buf == at[Min(65536, |at|)..])
      && d.queue == c.queue && d.readBuf == c.readBuf && d.delivered == c.delivered && d.done == c.done
  {
    ReadFailsExactlyWhen(open, c.reader.value, CHUNK);
  }

  ghost predicate Session(open: Opener, depth: nat, cs: seq<Conn>, es: seq<Event>) {
    && |cs| == |es| + 1
    && cs[0] == Conn(cs[0].initial, [], None, None, [], cs[0].initial, [], false, false, [])
    && (forall i :: 0 <= i < |es| ==> Can(cs[i], depth, es[i]) && cs[i + 1] == Do(open, depth, cs[i], es[i]))
  }

  // Byte conservation at every step of every interleaving: the bytes delivered, buffered,
  // queued, held and still encrypted are, in this order, exactly the bytes owed (plus, after a
  // Close that caught a chunk in flight, the tail that was dropped).
  lemma {:induction false} BytesConserved(open: Opener, depth: nat, cs: seq<Conn>, es: seq<Event>, i: nat)
    requires Session(open, depth, cs, es) && i < |cs|
    ensures Conserved(open, depth, cs[i])
  {
    if i > 0 {
      BytesConserved(open, depth, cs, es, i - 1);
      StepConserves(open, depth, cs[i - 1], es[i - 1]);
    }
  }

  // What the caller has read is always a prefix of what it is owed, and all of it once the
  // buffers are empty, unless the caller itself closed the connection.
  lemma CallerReadsInOrder(open: Opener, depth: nat, cs: seq<Conn>, es: seq<Event>, i: nat)
    requires Session(open, depth, cs, es) && i < |cs|
    ensures var c := cs[i];
      && c.delivered <= Owed(open, c)
      && (!c.closed && c.readBuf == [] && c.queue == [] && c.held.None? && c.reader.None? ==>
            c.delivered == Owed(open, c))
  {
    BytesConserved(open, depth, cs, es, i);
    var c := cs[i];
  }
}
