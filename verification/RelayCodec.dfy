// udp_relay.go: the frame codec of the UDP relay.
module RelayCodec {
  import opened Common
  import opened Wire

  const MAGIC := 0x534E4355
  const TYPE_REQUEST: byte := 0x01
  const TYPE_RESPONSE: byte := 0x02

  // path and token as the bytes of their strings.
  datatype Request = Request(path: Bytes, token: Bytes, body: Bytes)

  datatype Response = Response(status: nat, body: Bytes)

  function Header(id: nat, kind: byte): (h: Bytes)
    ensures |h| == 9
  {
    Put32(MAGIC) + Put32(id) + [kind]
  }

  function RequestFields(r: Request): (b: Bytes) {
    Put16(|r.path|) + (r.path + (Put16(|r.token|) + (r.token + (Put32(|r.body|) + r.body))))
  }

  function ResponseFields(r: Response): (b: Bytes) {
    Put16(r.status) + (Put32(|r.body|) + r.body)
  }

  function DecodeRequest(data: Bytes): (r: Option<Request>) {
    if |data| < 17 then None
    else
      var p := Get16(data[9..]);
      if 11 + p + 2 > |data| then None
      else
        var t := Get16(data[11 + p..]);
        var o := 13 + p;
        if o + t + 4 > |data| then None
        else
          var n := Get32(data[o + t..]);
          var q := o + t + 4;
          if q + n > |data| then None
          else Some(Request(data[11..11 + p], data[o..o + t], data[q..q + n]))
  }

  function DecodeResponse(data: Bytes): (r: Option<Response>) {
    if |data| < 15 then None
    else
      var n := Get32(data[11..]);
      if 15 + n > |data| then None else Some(Response(Get16(data[9..]), data[15..15 + n]))
  }

  // What readLoop reads before dispatching: None is a dropped, malformed frame.
  function Dispatch(data: Bytes): (r: Option<(nat, byte)>) {
    if |data| < 9 || Get32(data) != MAGIC then None else Some((Get32(data[4..]), data[8]))
  }

  method EncodeRequest(id: nat, r: Request) returns (frame: Bytes)
    ensures frame == Header(id, TYPE_REQUEST) + RequestFields(r)
  {
    var pathLen, tokenLen, bodyLen := Put16(|r.path|), Put16(|r.token|), Put32(|r.body|);
    var buf := new byte[9 + 2 + |r.path| + 2 + |r.token| + 4 + |r.body|];
    var o := PutHeader(buf, id, TYPE_REQUEST);
    ghost var h := buf[..o];
    o := CopyInto(buf, o, pathLen);
    o := CopyInto(buf, o, r.path);
    o := CopyInto(buf, o, tokenLen);
    o := CopyInto(buf, o, r.token);
    o := CopyInto(buf, o, bodyLen);
    o := CopyInto(buf, o, r.body);
    frame := buf[..];
    assert frame == buf[..o];
    Regroup(h + pathLen + r.path + tokenLen + r.token, bodyLen, r.body);
    Regroup(h + pathLen + r.path + tokenLen, r.token, bodyLen + r.body);
    Regroup(h + pathLen + r.path, tokenLen, r.token + (bodyLen + r.body));
    Regroup(h + pathLen, r.path, tokenLen + (r.token + (bodyLen + r.body)));
    Regroup(h, pathLen, r.path + (tokenLen + (r.token + (bodyLen + r.body))));
  }

  method PutHeader(buf: array<byte>, id: nat, kind: byte) returns (o: nat)
    requires buf.Length >= 9
    modifies buf
    ensures o == 9 && buf[..9] == Header(id, kind)
  {
    o := CopyInto(buf, 0, Put32(MAGIC));
    o := CopyInto(buf, o, Put32(id));
    o := CopyInto(buf, o, [kind]);
  }

  method EncodeResponse(id: nat, r: Response) returns (frame: Bytes)
    ensures frame == Header(id, TYPE_RESPONSE) + ResponseFields(r)
  {
    var status, bodyLen := Put16(r.status), Put32(|r.body|);
    var buf := new byte[9 + 2 + 4 + |r.body|];
    var o := PutHeader(buf, id, TYPE_RESPONSE);
    ghost var h := buf[..o];
    o := CopyInto(buf, o, status);
    o := CopyInto(buf, o, bodyLen);
    o := CopyInto(buf, o, r.body);
    frame := buf[..];
    assert frame == buf[..o];
    Regroup(h + status, bodyLen, r.body);
    Regroup(h, status, bodyLen + r.body);
  }

  ghost predicate Fits(r: Request) {
    |r.path| < U16 && |r.token| < U16 && |r.body| < U32
  }

  // The length fields and the fields as the decoder finds them.
  ghost predicate FieldsAt(data: Bytes, r: Request) {
    var p, t, n := |r.path|, |r.token|, |r.body|;
    && Lies(data, 9, Put16(p)) && Lies(data, 11, r.path)
    && Lies(data, 11 + p, Put16(t)) && Lies(data, 13 + p, r.token)
    && Lies(data, 13 + p + t, Put32(n)) && Lies(data, 17 + p + t, r.body)
  }

  lemma DecodesFields(data: Bytes, r: Request)
    requires Fits(r)
    ensures DecodeRequest(data) == Some(r) <==> FieldsAt(data, r)
  {
    Lies16(data, 9, |r.path|);
    Lies16(data, 11 + |r.path|, |r.token|);
    Lies32(data, 13 + |r.path| + |r.token|, |r.body|);
    DecodesLengths(data, r);
  }

  lemma DecodesLengths(data: Bytes, r: Request)
    ensures var p, t, n := |r.path|, |r.token|, |r.body|;
      DecodeRequest(data) == Some(r) <==>
        && 17 + p + t + n <= |data| && Get16(data[9..]) == p && Get16(data[11 + p..]) == t
        && Get32(data[13 + p + t..]) == n && data[11..11 + p] == r.path && data[13 + p..13 + p + t] == r.token
        && data[17 + p + t..17 + p + t + n] == r.body
  {
  }

  // The decoder accepts exactly the frames that carry the request's encoding after the
  // nine header bytes, trailing bytes allowed.
  lemma DecodeRequestExactly(data: Bytes, r: Request)
    ensures DecodeRequest(data) == Some(r) <==> Fits(r) && Lies(data, 9, RequestFields(r))
  {
    if Fits(r) {
      FieldsLie(data, r);
      DecodesFields(data, r);
    }
  }

  // Where each field of a request lies.
  lemma FieldsLie(data: Bytes, r: Request)
    ensures Lies(data, 9, RequestFields(r)) <==> FieldsAt(data, r)
  {
    SixLie(data, 9, Put16(|r.path|), r.path, Put16(|r.token|), r.token, Put32(|r.body|), r.body);
  }

  lemma SixLie(data: Bytes, o: nat, a: Bytes, b: Bytes, c: Bytes, d: Bytes, e: Bytes, f: Bytes)
    ensures Lies(data, o, a + (b + (c + (d + (e + f))))) <==>
      && Lies(data, o, a) && Lies(data, o + |a|, b)
      && Lies(data, o + |a| + |b|, c) && Lies(data, o + |a| + |b| + |c|, d)
      && Lies(data, o + |a| + |b| + |c| + |d|, e) && Lies(data, o + |a| + |b| + |c| + |d| + |e|, f)
  {
    ThreeLie(data, o, a, b, c + (d + (e + f)));
    var q := o + |a| + |b|;
    LiesSplit(data, q, c, d + (e + f));
    ThreeLie(data, q + |c|, d, e, f);
  }

  lemma ThreeLie(data: Bytes, o: nat, a: Bytes, b: Bytes, c: Bytes)
    ensures Lies(data, o, a + (b + c)) <==> Lies(data, o, a) && Lies(data, o + |a|, b) && Lies(data, o + |a| + |b|, c)
  {
    LiesSplit(data, o, a, b + c);
    LiesSplit(data, o + |a|, b, c);
  }

  // Round trip, exactly: a request survives encoding and decoding if and only if its fields
  // fit their length fields (longer ones are silently truncated by the conversions).
  lemma RequestRoundTrip(id: nat, r: Request)
    ensures DecodeRequest(Header(id, TYPE_REQUEST) + RequestFields(r)) == Some(r) <==> Fits(r)
  {
    var data := Header(id, TYPE_REQUEST) + RequestFields(r);
    DecodeRequestExactly(data, r);
    assert Lies(data, 9, RequestFields(r));
  }

  lemma DecodeResponseExactly(data: Bytes, r: Response)
    ensures DecodeResponse(data) == Some(r) <==> r.status < U16 && |r.body| < U32 && Lies(data, 9, ResponseFields(r))
  {
    if r.status < U16 && |r.body| < U32 {
      LiesSplit(data, 9, Put16(r.status), Put32(|r.body|) + r.body);
      LiesSplit(data, 11, Put32(|r.body|), r.body);
      Lies16(data, 9, r.status);
      Lies32(data, 11, |r.body|);
    }
  }

  lemma ResponseRoundTrip(id: nat, r: Response)
    ensures DecodeResponse(Header(id, TYPE_RESPONSE) + ResponseFields(r)) == Some(r) <==>
      r.status < U16 && |r.body| < U32
  {
    var data := Header(id, TYPE_RESPONSE) + ResponseFields(r);
    DecodeResponseExactly(data, r);
    assert Lies(data, 9, ResponseFields(r));
  }

  // Every frame written with a 32-bit id is dispatched under that id and type, whatever
  // follows the header.
  lemma DispatchRecognises(id: nat, kind: byte, rest: Bytes)
    requires id < U32
    ensures Dispatch(Header(id, kind) + rest) == Some((id, kind))
  {
    var data := Header(id, kind) + rest;
    assert Lies(data, 0, Put32(MAGIC)) && Lies(data, 4, Put32(id));
    Lies32(data, 0, MAGIC);
    Lies32(data, 4, id);
    assert data[0..] == data;
  }
}
