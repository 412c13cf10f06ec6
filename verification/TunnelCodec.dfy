// tunnel.go and udp_assoc.go: upload frames, padded responses, datagram batches and the SOCKS5
// UDP header (section 7 of RFC 1928).
module TunnelCodec {
  import opened Common
  import opened Wire

  // ---- encoding/hex ----

  function Digit(n: nat): (c: char)
    requires n < 16
  {
    "0123456789abcdef"[n]
  }

  function Nibble(c: char): (r: Option<nat>) {
    if '0' <= c <= '9' then Some((c - '0') as int)
    else if 'a' <= c <= 'f' then Some((c - 'a') as int + 10)
    else if 'A' <= c <= 'F' then Some((c - 'A') as int + 10)
    else None
  }

  function HexEncode(b: Bytes): (s: string)
    ensures |s| == 2 * |b|
  {
    if b == [] then "" else [Digit(b[0] / 16), Digit(b[0] % 16)] + HexEncode(b[1..])
  }

  predicate IsNibble(c: char) {
    Nibble(c).Some? && Nibble(c).value < 16
  }

  function HexDecode(s: string): (r: Option<Bytes>) {
    if s == "" then Some([])
    else if |s| < 2 || !IsNibble(s[0]) || !IsNibble(s[1]) then None
    else
      var rest := HexDecode(s[2..]);
      if rest.None? then None else Some([Nibble(s[0]).value * 16 + Nibble(s[1]).value] + rest.value)
  }

  lemma NibbleOfDigit(n: nat)
    requires n < 16
    ensures Nibble(Digit(n)) == Some(n)
  {
    if n < 10 {
      assert Digit(n) == '0' + n as char;
    } else {
      assert Digit(n) == 'a' + (n - 10) as char;
    }
  }

  lemma HexByte(x: byte, rest: string, tail: Bytes)
    requires HexDecode(rest) == Some(tail)
    ensures HexDecode([Digit(x / 16), Digit(x % 16)] + rest) == Some([x] + tail)
  {
    var s := [Digit(x / 16), Digit(x % 16)] + rest;
    NibbleOfDigit(x / 16);
    NibbleOfDigit(x % 16);
    assert s[2..] == rest;
  }

  lemma {:induction false} HexRoundTrip(b: Bytes)
    ensures HexDecode(HexEncode(b)) == Some(b)
  {
    if b != [] {
      HexRoundTrip(b[1..]);
      HexByte(b[0], HexEncode(b[1..]), b[1..]);
      assert b == [b[0]] + b[1..];
    }
  }

  // ---- Upload frames ----

  const UPLOAD: byte := 0x00

  datatype Upload = Upload(connID: string, seqNo: nat, target: Bytes, payload: Bytes)

  // The 16-byte id field: an id that is not hex leaves it zero, a longer one is overwritten.
  function ConnField(connID: string): (b: Bytes)
    ensures |b| == 16
  {
    var raw := HexDecode(connID);
    var b := if raw.None? then [] else raw.value;
    if |b| >= 16 then b[..16] else b + seq(16 - |b|, _ => 0)
  }

  function UploadFields(u: Upload): (b: Bytes) {
    Put32(u.seqNo) + (Put16(|u.target|) + (u.target + u.payload))
  }

  function UploadFrame(u: Upload): (b: Bytes) {
    [UPLOAD] + ConnField(u.connID) + UploadFields(u)
  }

  method FillUpload(conn: Bytes, seqNo: nat, target: Bytes, payload: Bytes) returns (frame: Bytes)
    requires |conn| == 16
    ensures frame == [UPLOAD] + conn + (Put32(seqNo) + (Put16(|target|) + (target + payload)))
  {
    var seqField, lenField := Put32(seqNo), Put16(|target|);
    var buf := new byte[1 + 16 + 4 + 2 + |target| + |payload|];
    var i := CopyInto(buf, 0, [UPLOAD]);
    i := CopyInto(buf, i, conn);
    ghost var h := buf[..i];
    assert h == [UPLOAD] + conn;
    i := CopyInto(buf, i, seqField);
    i := CopyInto(buf, i, lenField);
    i := CopyInto(buf, i, target);
    i := CopyInto(buf, i, payload);
    frame := buf[..];
    assert frame == buf[..i];
    Regroup(h + seqField + lenField, target, payload);
    Regroup(h + seqField, lenField, target + payload);
    Regroup(h, seqField, lenField + (target + payload));
  }

  method BuildUploadPlain(u: Upload) returns (frame: Bytes)
    ensures frame == UploadFrame(u)
  {
    frame := FillUpload(ConnField(u.connID), u.seqNo, u.target, u.payload);
  }

  function ParseUploadFrame(plain: Bytes): (r: Option<Upload>) {
    if |plain| < 23 || plain[0] != UPLOAD then None
    else
      var n := Get16(plain[21..]);
      if n > |plain| - 23 then None
      else Some(Upload(HexEncode(plain[1..17]), Get32(plain[17..]), plain[23..23 + n], plain[23 + n..]))
  }

  // Round trip, exactly: an upload with a 16-byte id and a 32-bit sequence number survives if
  // and only if the target's length fits its 16-bit field.
  lemma UploadRoundTrip(id: Bytes, seqNo: nat, target: Bytes, payload: Bytes)
    requires |id| == 16 && seqNo < U32
    ensures var u := Upload(HexEncode(id), seqNo, target, payload);
      ParseUploadFrame(UploadFrame(u)) == Some(u) <==> |target| < U16
  {
    var u := Upload(HexEncode(id), seqNo, target, payload);
    HexRoundTrip(id);
    assert ConnField(u.connID) == id;
    var f := [UPLOAD] + id + UploadFields(u);
    assert f[1..17] == id;
    assert Lies(f, 17, UploadFields(u));
    UploadFieldsLie(f, u);
    Lies32(f, 17, seqNo);
    if |target| < U16 {
      Lies16(f, 21, |target|);
    }
  }

  lemma UploadFieldsLie(f: Bytes, u: Upload)
    requires |f| == 17 + |UploadFields(u)| && Lies(f, 17, UploadFields(u))
    ensures Lies(f, 17, Put32(u.seqNo)) && Lies(f, 21, Put16(|u.target|)) && Lies(f, 23, u.target)
    ensures f[23 + |u.target|..] == u.payload
  {
    LiesSplit(f, 17, Put32(u.seqNo), Put16(|u.target|) + (u.target + u.payload));
    LiesSplit(f, 21, Put16(|u.target|), u.target + u.payload);
    LiesSplit(f, 23, u.target, u.payload);
  }

  // ---- Padded responses ----

  const MIN_PADDING := 512

  // The plaintext of an upload response; padding is whatever the random source gave.
  function ResponsePlain(data: Bytes, padding: Bytes): (p: Bytes) {
    Put32(|data|) + (data + padding)
  }

  // buildUploadResponse before sealing: short data is padded with random bytes to 512.
  function BuiltResponse(data: Bytes, noise: nat -> byte): (p: Bytes)
    ensures |p| == 4 + (if |data| > MIN_PADDING then |data| else MIN_PADDING)
  {
    ResponsePlain(data, if |data| < MIN_PADDING then seq<byte>(MIN_PADDING - |data|, noise) else [])
  }

  datatype Parsed = Parsed(data: Bytes) | Bad

  function ParsePlain(plain: Bytes): (r: Parsed) {
    if |plain| < 4 then Bad
    else
      var n := Get32(plain);
      if n == 0 then Parsed([])
      else if n > |plain| - 4 then Bad
      else Parsed(plain[4..4 + n])
  }

  function ParseResponse(open: Bytes -> Option<Bytes>, body: Bytes): (r: Parsed) {
    if body == [] then Parsed([])
    else match open(body)
      case None => Bad
      case Some(plain) => ParsePlain(plain)
  }

  // Padding is transparent: whatever it is, exactly the data comes back, if and only if its
  // length fits the 32-bit field.
  lemma ResponseRoundTrip(open: Bytes -> Option<Bytes>, sealed: Bytes, data: Bytes, noise: nat -> byte)
    requires sealed != [] && open(sealed) == Some(BuiltResponse(data, noise))
    ensures ParseResponse(open, sealed) == Parsed(data) <==> |data| < U32
  {
    var padding := if |data| < MIN_PADDING then seq<byte>(MIN_PADDING - |data|, noise) else [];
    var plain := ResponsePlain(data, padding);
    LiesSplit(plain, 0, Put32(|data|), data + padding);
    LiesSplit(plain, 4, data, padding);
    assert plain[0..] == plain && plain[0..|plain|] == plain;
    if |data| < U32 {
      Lies32(plain, 0, |data|);
    }
  }

  // ---- Datagram batches ----

  function Batch(frames: seq<Bytes>): (b: Bytes) {
    if frames == [] then [] else Put32(|frames[0]|) + (frames[0] + Batch(frames[1..]))
  }

  // n frames read from offset o on.
  function Unbatch(data: Bytes, o: nat, n: nat): (r: Option<seq<Bytes>>)
    requires o <= |data|
    decreases n
  {
    if n == 0 then Some([])
    else if o + 4 > |data| then None
    else
      var len := Get32(data[o..]);
      if o + 4 + len > |data| then None
      else
        var rest := Unbatch(data, o + 4 + len, n - 1);
        if rest.None? then None else Some([data[o + 4..o + 4 + len]] + rest.value)
  }

  function Decoded(data: Bytes): (r: Option<seq<Bytes>>) {
    if data == [] then Some([]) else if |data| < 4 then None else Unbatch(data, 4, Get32(data))
  }

  function Prepend(frames: seq<Bytes>, r: Option<seq<Bytes>>): (s: Option<seq<Bytes>>) {
    if r.None? then None else Some(frames + r.value)
  }

  lemma PrependNone(r: Option<seq<Bytes>>)
    ensures Prepend([], r) == r
  {
    assert r.Some? ==> [] + r.value == r.value;
  }

  lemma PrependMore(frames: seq<Bytes>, f: Bytes, r: Option<seq<Bytes>>)
    ensures Prepend(frames, Prepend([f], r)) == Prepend(frames + [f], r)
  {
    if r.Some? {
      Regroup(frames, [f], r.value);
    }
  }

  // One turn of the decoder's loop.
  lemma UnbatchStep(data: Bytes, o: nat, n: nat)
    requires o <= |data| && n > 0
    ensures Unbatch(data, o, n) ==
      if o + 4 > |data| then None
      else
        var len := Get32(data[o..]);
        if o + 4 + len > |data| then None
        else Prepend([data[o + 4..o + 4 + len]], Unbatch(data, o + 4 + len, n - 1))
  {
  }

  // The decoder's loop: frames read so far, and what is still to be read.
  function UnbatchOnto(data: Bytes, o: nat, n: nat, frames: seq<Bytes>): (r: Option<seq<Bytes>>)
    requires o <= |data|
    decreases n
  {
    if n == 0 then Some(frames)
    else if o + 4 > |data| then None
    else
      var len := Get32(data[o..]);
      if o + 4 + len > |data| then None
      else UnbatchOnto(data, o + 4 + len, n - 1, frames + [data[o + 4..o + 4 + len]])
  }

  lemma {:induction false} OntoIsPrepend(data: Bytes, o: nat, n: nat, frames: seq<Bytes>)
    requires o <= |data|
    ensures UnbatchOnto(data, o, n, frames) == Prepend(frames, Unbatch(data, o, n))
    decreases n
  {
    if n == 0 {
      assert frames + [] == frames;
    } else {
      UnbatchStep(data, o, n);
      if o + 4 <= |data| {
        var len := Get32(data[o..]);
        if o + 4 + len <= |data| {
          var f := data[o + 4..o + 4 + len];
          OntoIsPrepend(data, o + 4 + len, n - 1, frames + [f]);
          PrependMore(frames, f, Unbatch(data, o + 4 + len, n - 1));
        }
      }
    }
  }

  method DecodeFrames(data: Bytes, n: nat) returns (r: Option<seq<Bytes>>)
    requires |data| >= 4
    ensures r == Unbatch(data, 4, n)
  {
    var o := 4;
    var frames: seq<Bytes> := [];
    ghost var goal := UnbatchOnto(data, o, n, frames);
    OntoIsPrepend(data, o, n, frames);
    PrependNone(Unbatch(data, o, n));
    for i := 0 to n
      invariant 4 <= o <= |data|
      invariant goal == UnbatchOnto(data, o, n - i, frames)
    {
      if o + 4 > |data| {
        return None;
      }
      var len := Get32(data[o..]);
      o := o + 4;
      if o + len > |data| {
        return None;
      }
      frames := frames + [data[o..o + len]];
      o := o + len;
    }
    r := Some(frames);
  }

  // Decoding, a malformed batch, or a reservation for the announced count that cannot be met.
  datatype Outcome = Frames(frames: seq<Bytes>) | Malformed | OutOfMemory

  // room: how many frame headers can be reserved at once.
  function DecodedWithin(room: nat, data: Bytes): (r: Outcome) {
    if |data| >= 4 && Get32(data) > room then OutOfMemory
    else
      var got := Decoded(data);
      if got.None? then Malformed else Frames(got.value)
  }

  method DecodeDatagramBatch(room: nat, data: Bytes) returns (r: Outcome)
    ensures r == DecodedWithin(room, data)
  {
    if |data| == 0 {
      return Frames([]);
    }
    if |data| < 4 {
      return Malformed;
    }
    var n := Get32(data);
    if n > room {
      return OutOfMemory;
    }
    var frames := DecodeFrames(data, n);
    r := if frames.None? then Malformed else Frames(frames.value);
  }

  lemma {:induction false} FramesTakeRoom(data: Bytes, o: nat, n: nat)
    requires o <= |data| && Unbatch(data, o, n).Some?
    ensures o + 4 * n <= |data|
    decreases n
  {
    if n > 0 {
      FramesTakeRoom(data, o + 4 + Get32(data[o..]), n - 1);
    }
  }

  // When the reservation is safe: a batch that decodes announces no more frames than a quarter
  // of its length, so it is decoded in full with that much room; only a malformed one can fail
  // for lack of it.
  lemma ReservationIsSafe(room: nat, data: Bytes)
    requires |data| <= 4 * room + 4
    ensures Decoded(data).Some? <==> DecodedWithin(room, data).Frames?
    ensures Decoded(data).Some? ==> DecodedWithin(room, data).frames == Decoded(data).value
  {
    if Decoded(data).Some? && |data| >= 4 {
      FramesTakeRoom(data, 4, Get32(data));
    }
  }

  ghost predicate BatchFits(frames: seq<Bytes>) {
    forall i :: 0 <= i < |frames| ==> |frames[i]| < U32
  }

  lemma BatchFitsHead(f: Bytes, rest: seq<Bytes>)
    ensures BatchFits([f] + rest) <==> |f| < U32 && BatchFits(rest)
  {
    if BatchFits([f] + rest) {
      assert |([f] + rest)[0]| < U32;
      forall i | 0 <= i < |rest|
        ensures |rest[i]| < U32
      {
        assert ([f] + rest)[i + 1] == rest[i];
      }
    }
  }

  // One frame off the front of a batch.
  lemma UnbatchFirst(data: Bytes, o: nat, f: Bytes, rest: seq<Bytes>)
    requires o <= |data|
    ensures Unbatch(data, o, |rest| + 1) == Some([f] + rest) <==>
      |f| < U32 && Lies(data, o, Put32(|f|)) && Lies(data, o + 4, f) && Unbatch(data, o + 4 + |f|, |rest|) == Some(rest)
  {
    if |f| < U32 {
      Lies32(data, o, |f|);
    }
    var got := Unbatch(data, o, |rest| + 1);
    if got.Some? {
      var len := Get32(data[o..]);
      var tail := Unbatch(data, o + 4 + len, |rest|).value;
      assert got.value == [data[o + 4..o + 4 + len]] + tail;
      assert got.value[1..] == tail && ([f] + rest)[1..] == rest;
      assert got.value[0] == data[o + 4..o + 4 + len] && ([f] + rest)[0] == f;
    }
  }

  ghost predicate LiesAs(data: Bytes, o: nat, frames: seq<Bytes>) {
    BatchFits(frames) && Lies(data, o, Batch(frames))
  }

  lemma LiesAsFirst(data: Bytes, o: nat, f: Bytes, rest: seq<Bytes>)
    ensures LiesAs(data, o, [f] + rest) <==>
      |f| < U32 && Lies(data, o, Put32(|f|)) && Lies(data, o + 4, f) && LiesAs(data, o + 4 + |f|, rest)
  {
    BatchFitsHead(f, rest);
    BatchLies(data, o, f, rest);
  }

  lemma {:induction false} UnbatchExactly(data: Bytes, o: nat, frames: seq<Bytes>)
    requires o <= |data|
    ensures Unbatch(data, o, |frames|) == Some(frames) <==> LiesAs(data, o, frames)
    decreases |frames|
  {
    if frames != [] {
      var f, rest := frames[0], frames[1..];
      assert frames == [f] + rest;
      UnbatchFirst(data, o, f, rest);
      LiesAsFirst(data, o, f, rest);
      if o + 4 + |f| <= |data| {
        UnbatchExactly(data, o + 4 + |f|, rest);
      }
    }
  }

  lemma BatchLies(data: Bytes, o: nat, f: Bytes, rest: seq<Bytes>)
    ensures Lies(data, o, Batch([f] + rest)) <==>
      Lies(data, o, Put32(|f|)) && Lies(data, o + 4, f) && Lies(data, o + 4 + |f|, Batch(rest))
  {
    assert ([f] + rest)[1..] == rest;
    LiesSplit(data, o, Put32(|f|), f + Batch(rest));
    LiesSplit(data, o + 4, f, Batch(rest));
  }

  lemma {:induction false} UnbatchCount(data: Bytes, o: nat, n: nat)
    requires o <= |data| && Unbatch(data, o, n).Some?
    ensures |Unbatch(data, o, n).value| == n
    decreases n
  {
    if n > 0 {
      UnbatchCount(data, o + 4 + Get32(data[o..]), n - 1);
    }
  }

  // The decoder accepts exactly the byte strings that start with the encoding of a batch, and
  // returns that batch; in particular decoding undoes encoding.
  lemma BatchDecodesExactly(data: Bytes, frames: seq<Bytes>)
    requires data != []
    ensures Decoded(data) == Some(frames) <==>
      |frames| < U32 && BatchFits(frames) && Lies(data, 0, Put32(|frames|) + Batch(frames))
  {
    LiesSplit(data, 0, Put32(|frames|), Batch(frames));
    assert data[0..] == data;
    if |frames| < U32 {
      Lies32(data, 0, |frames|);
    }
    if |data| >= 4 {
      UnbatchExactly(data, 4, frames);
      if Decoded(data) == Some(frames) {
        UnbatchCount(data, 4, Get32(data));
      }
    }
  }

  // ---- SOCKS5 UDP header ----

  const ATYP_IPV4: byte := 0x01
  const ATYP_DOMAIN: byte := 0x03
  const ATYP_IPV6: byte := 0x04

  datatype Datagram = Datagram(ip: Bytes, port: nat, payload: Bytes, frag: byte)

  // The address field of the IPv6 form: nothing is copied when To16 is nil.
  function Field16(ip: Bytes): (r: Bytes)
    ensures |r| == 16
  {
    if |ip| == 16 then ip else if |ip| == 4 then V4_IN_V6 + ip else seq(16, _ => 0)
  }

  // The address and port after the four leading bytes; net.LookupHost is the resolver.
  function AddressEnd(resolve: Bytes -> Option<Bytes>, pkt: Bytes): (r: Option<(Bytes, nat)>)
    requires |pkt| >= 4
    ensures r.Some? ==> r.value.1 <= |pkt|
  {
    if pkt[3] == ATYP_IPV4 then (if 8 > |pkt| then None else Some((pkt[4..8], 8)))
    else if pkt[3] == ATYP_IPV6 then (if 20 > |pkt| then None else Some((pkt[4..20], 20)))
    else if pkt[3] == ATYP_DOMAIN then
      if 5 > |pkt| then None
      else
        var o := 5 + pkt[4] as int;
        if o > |pkt| then None
        else
          var ip := resolve(pkt[5..o]);
          if ip.None? then None else Some((ip.value, o))
    else None
  }

  function ParseHeader(resolve: Bytes -> Option<Bytes>, pkt: Bytes): (r: Option<Datagram>) {
    if |pkt| < 4 then None
    else match AddressEnd(resolve, pkt)
      case None => None
      case Some((ip, o)) =>
        if o + 2 > |pkt| then None else Some(Datagram(ip, Get16(pkt[o..]), pkt[o + 2..], pkt[2]))
  }

  function HeaderFor(ip: Bytes, port: nat, payload: Bytes): (b: Bytes) {
    match To4(ip)
    case Some(ip4) => [0, 0, 0, ATYP_IPV4] + (ip4 + (Put16(port) + payload))
    case None => [0, 0, 0, ATYP_IPV6] + (Field16(ip) + (Put16(port) + payload))
  }

  method FillHeader(atyp: byte, addr: Bytes, port: nat) returns (hdr: array<byte>)
    ensures fresh(hdr) && hdr[..] == [0, 0, 0, atyp] + (addr + Put16(port))
  {
    hdr := new byte[4 + |addr| + 2];
    hdr[0], hdr[1], hdr[2], hdr[3] := 0, 0, 0, atyp;
    assert hdr[..4] == [0, 0, 0, atyp];
    var o := CopyInto(hdr, 4, addr);
    o := CopyInto(hdr, o, Put16(port));
    assert hdr[..] == hdr[..o];
  }

  method BuildHeader(ip: Bytes, port: nat, payload: Bytes) returns (pkt: Bytes)
    ensures pkt == HeaderFor(ip, port, payload)
  {
    var ip4 := To4(ip);
    var hdr: array<byte>;
    if ip4.Some? {
      hdr := FillHeader(ATYP_IPV4, ip4.value, port);
    } else {
      hdr := FillHeader(ATYP_IPV6, Field16(ip), port);
    }
    pkt := hdr[..] + payload;
    ghost var addr := if ip4.Some? then ip4.value else Field16(ip);
    ghost var h := [0, 0, 0, if ip4.Some? then ATYP_IPV4 else ATYP_IPV6];
    Regroup(h, addr + Put16(port), payload);
    Regroup(addr, Put16(port), payload);
  }

  // Parsing a built header gives back the payload and the port modulo 2^16, never a fragment,
  // and the address in its shortest form; so the same address exactly when it is an IPv4
  // address or an IPv6 one that does not embed an IPv4 address.
  lemma HeaderRoundTrip(resolve: Bytes -> Option<Bytes>, ip: Bytes, port: nat, payload: Bytes)
    ensures var back := if To4(ip).Some? then To4(ip).value else Field16(ip);
      ParseHeader(resolve, HeaderFor(ip, port, payload)) == Some(Datagram(back, port % U16, payload, 0))
    ensures ParseHeader(resolve, HeaderFor(ip, port, payload)) == Some(Datagram(ip, port, payload, 0)) <==>
      port < U16 && (|ip| == 4 || (|ip| == 16 && ip[..12] != V4_IN_V6))
  {
    var back := if To4(ip).Some? then To4(ip).value else Field16(ip);
    var pkt := HeaderFor(ip, port, payload);
    var n := |back|;
    var h, rest := pkt[..4], Put16(port) + payload;
    assert pkt == h + (back + rest);
    DropFront(h, back + rest);
    DropFront(back, rest);
    DropFront(Put16(port), payload);
    assert pkt[4..4 + n] == pkt[4..][..n];
    assert pkt[4 + n..] == pkt[4..][n..];
    assert pkt[4 + n + 2..] == pkt[4 + n..][2..];
    GetPut16(port);
    GetsPrefix(Put16(port), payload);
  }
}
