// udp_relay.go, tunnel.go and udp_assoc.go: where each field of a frame lies, byte by byte.
module WireLayout {
  import opened Common
  import opened Numbers
  import opened Wire
  import RelayCodec
  import TunnelCodec

  // ---- Big-endian fields ----

  lemma ValOfTwo(b: Bytes)
    requires |b| == 2
    ensures Val(b) == b[0] as int * 256 + b[1] as int
  {
    assert b[..1][..0] == [] && b[..1][0] == b[0];
    assert Val(b[..1]) == b[0] as int;
  }

  lemma FieldsAreBigEndian(n: nat)
    ensures Val(Put16(n)) == n % 65536 && Val(Put32(n)) == n % 0x1_0000_0000
  {
    ValOfTwo(Put16(n));
    ValOfTwo(Put16(n / U16));
    GetPut16(n);
    GetPut16(n / U16);
    ValAppend(Put16(n / U16), Put16(n));
    Pow2Of16();
    Halves(n);
  }

  lemma Pow2Of16()
    ensures Pow2(16) == 65536
  {
    Pow2Of8();
    PowAdd(8, 8);
  }

  lemma ReadsAreBigEndian(b: Bytes)
    ensures |b| >= 2 ==> Get16(b) == Val(b[..2])
    ensures |b| >= 4 ==> Get32(b) == Val(b[..4])
  {
    if |b| >= 2 {
      ValOfTwo(b[..2]);
    }
    if |b| >= 4 {
      ValOfTwo(b[2..][..2]);
      assert b[..4] == b[..2] + b[2..][..2];
      ValAppend(b[..2], b[2..][..2]);
      Pow2Of16();
    }
  }

  // The field of len bytes at offset o has the value n.
  ghost predicate Field(frame: Bytes, o: nat, len: nat, n: nat) {
    o + len <= |frame| && Val(frame[o..o + len]) == n
  }

  lemma Field16At(frame: Bytes, o: nat, n: nat)
    requires Lies(frame, o, Put16(n))
    ensures Field(frame, o, 2, n % 65536)
  {
    FieldsAreBigEndian(n);
  }

  lemma Field32At(frame: Bytes, o: nat, n: nat)
    requires Lies(frame, o, Put32(n))
    ensures Field(frame, o, 4, n % 0x1_0000_0000)
  {
    FieldsAreBigEndian(n);
  }

  lemma LengthField16(frame: Bytes, o: nat, n: nat)
    requires Lies(frame, o, Put16(n)) && n < 65536
    ensures Field(frame, o, 2, n)
  {
    Field16At(frame, o, n);
  }

  lemma LengthField32(frame: Bytes, o: nat, n: nat)
    requires Lies(frame, o, Put32(n)) && n < 0x1_0000_0000
    ensures Field(frame, o, 4, n)
  {
    Field32At(frame, o, n);
  }

  lemma RestOf(frame: Bytes, o: nat, b: Bytes)
    requires Lies(frame, o, b) && |frame| == o + |b|
    ensures frame[o..] == b
  {
  }

  // ---- The UDP relay ----

  lemma MagicBytes()
    ensures Put32(0x534E4355) == [0x53, 0x4E, 0x43, 0x55]
  {
    assert 0x534E4355 / U16 == 0x534E;
    assert Put16(0x534E) == [0x53, 0x4E];
    assert 0x534E4355 / 256 == 0x534E43 && 0x534E43 % 256 == 0x43 && 0x534E4355 % 256 == 0x55;
  }

  // "SNCU", the id, the type.
  ghost predicate HeaderAt(frame: Bytes, id: nat, kind: byte) {
    |frame| >= 9 && frame[..4] == [0x53, 0x4E, 0x43, 0x55] && Field(frame, 4, 4, id) && frame[8] == kind
  }

  lemma HeaderIs(id: nat, kind: byte, rest: Bytes)
    ensures HeaderAt(RelayCodec.Header(id, kind) + rest, id % 0x1_0000_0000, kind)
  {
    var frame := RelayCodec.Header(id, kind) + rest;
    MagicBytes();
    assert frame[..4] == Put32(RelayCodec.MAGIC);
    assert Lies(frame, 4, Put32(id));
    Field32At(frame, 4, id);
  }

  // A frame is dispatched exactly when it starts with such a header; any other is dropped.
  lemma DispatchedExactlyWhen(data: Bytes, id: nat, kind: byte)
    ensures RelayCodec.Dispatch(data) == Some((id, kind)) <==> HeaderAt(data, id, kind)
  {
    if |data| >= 9 {
      MagicBytes();
      ReadsAreBigEndian(data);
      ReadsAreBigEndian(data[4..]);
      assert data[4..][..4] == data[4..8];
      GetPut32(RelayCodec.MAGIC);
      ReadsAreBigEndian(Put32(RelayCodec.MAGIC));
      assert Put32(RelayCodec.MAGIC)[..4] == Put32(RelayCodec.MAGIC);
      LexIsValOrder(data[..4], Put32(RelayCodec.MAGIC));
    }
  }

  // Path, token and body, each behind its length.
  ghost predicate RequestAt(frame: Bytes, r: RelayCodec.Request) {
    var p, t, n := |r.path|, |r.token|, |r.body|;
    && |frame| == 17 + p + t + n
    && Field(frame, 9, 2, p) && frame[11..11 + p] == r.path
    && Field(frame, 11 + p, 2, t) && frame[13 + p..13 + p + t] == r.token
    && Field(frame, 13 + p + t, 4, n) && frame[17 + p + t..] == r.body
  }

  lemma FieldsAreThere(frame: Bytes, r: RelayCodec.Request)
    requires RelayCodec.Fits(r) && |frame| == 17 + |r.path| + |r.token| + |r.body| && RelayCodec.FieldsAt(frame, r)
    ensures RequestAt(frame, r)
  {
    var p, t := |r.path|, |r.token|;
    LengthField16(frame, 9, p);
    LengthField16(frame, 11 + p, t);
    LengthField32(frame, 13 + p + t, |r.body|);
    RestOf(frame, 17 + p + t, r.body);
  }

  // A request on the wire: header with type 1, then the fields.
  lemma RequestLayout(id: nat, r: RelayCodec.Request)
    requires RelayCodec.Fits(r)
    ensures var frame := RelayCodec.Header(id, RelayCodec.TYPE_REQUEST) + RelayCodec.RequestFields(r);
      HeaderAt(frame, id % 0x1_0000_0000, 0x01) && RequestAt(frame, r)
  {
    var fields := RelayCodec.RequestFields(r);
    var frame := RelayCodec.Header(id, RelayCodec.TYPE_REQUEST) + fields;
    HeaderIs(id, RelayCodec.TYPE_REQUEST, fields);
    assert Lies(frame, 9, fields);
    RelayCodec.FieldsLie(frame, r);
    FieldsAreThere(frame, r);
  }

  // A response: header with type 2, then status, body length and body.
  lemma ResponseLayout(id: nat, r: RelayCodec.Response)
    requires r.status < 65536 && |r.body| < 0x1_0000_0000
    ensures var frame := RelayCodec.Header(id, RelayCodec.TYPE_RESPONSE) + RelayCodec.ResponseFields(r);
      && HeaderAt(frame, id % 0x1_0000_0000, 0x02) && |frame| == 15 + |r.body|
      && Field(frame, 9, 2, r.status) && Field(frame, 11, 4, |r.body|) && frame[15..] == r.body
  {
    var frame := RelayCodec.Header(id, RelayCodec.TYPE_RESPONSE) + RelayCodec.ResponseFields(r);
    HeaderIs(id, RelayCodec.TYPE_RESPONSE, RelayCodec.ResponseFields(r));
    assert Lies(frame, 9, Put16(r.status)) && Lies(frame, 11, Put32(|r.body|)) by {
      assert Lies(frame, 9, RelayCodec.ResponseFields(r));
      LiesSplit(frame, 9, Put16(r.status), Put32(|r.body|) + r.body);
      LiesSplit(frame, 11, Put32(|r.body|), r.body);
    }
    LengthField16(frame, 9, r.status);
    LengthField32(frame, 11, |r.body|);
  }

  // ---- Upload frames and responses ----

  // v is the value of the hexadecimal digit c.
  predicate HexDigit(c: char, v: nat) {
    v < 16 && (c == "0123456789abcdef"[v] || c == "0123456789ABCDEF"[v])
  }

  // Each byte of b stands in s as its two digits, the high one first.
  ghost predicate Spells(s: string, b: Bytes) {
    |s| == 2 * |b| && forall k :: 0 <= k < |b| ==> SpellsByte(s[2 * k], s[2 * k + 1], b[k])
  }

  predicate SpellsByte(hi: char, lo: char, x: byte) {
    HexDigit(hi, x / 16) && HexDigit(lo, x % 16)
  }

  lemma NibbleIsDigit(c: char, v: nat)
    ensures TunnelCodec.Nibble(c) == Some(v) <==> HexDigit(c, v)
  {
    if v < 10 {
      assert "0123456789abcdef"[v] == "0123456789ABCDEF"[v] == '0' + v as char;
    } else if v < 16 {
      assert "0123456789abcdef"[v] == 'a' + (v - 10) as char && "0123456789ABCDEF"[v] == 'A' + (v - 10) as char;
    }
  }

  lemma ByteIsSpelled(hi: char, lo: char, x: byte)
    ensures SpellsByte(hi, lo, x) <==>
      TunnelCodec.IsNibble(hi) && TunnelCodec.IsNibble(lo) &&
      TunnelCodec.Nibble(hi).value * 16 + TunnelCodec.Nibble(lo).value == x
  {
    NibbleIsDigit(hi, x / 16);
    NibbleIsDigit(lo, x % 16);
    if TunnelCodec.IsNibble(hi) && TunnelCodec.IsNibble(lo) {
      TwoNibbles(TunnelCodec.Nibble(hi).value, TunnelCodec.Nibble(lo).value, x);
    }
  }

  lemma TwoNibbles(a: nat, b: nat, x: nat)
    requires a < 16 && b < 16
    ensures a * 16 + b == x <==> a == x / 16 && b == x % 16
  {
  }

  lemma SpellsHead(s: string, b: Bytes)
    requires |s| >= 2 && b != []
    ensures Spells(s, b) <==> SpellsByte(s[0], s[1], b[0]) && Spells(s[2..], b[1..])
  {
    if Spells(s, b) {
      forall k | 0 <= k < |b| - 1
        ensures SpellsByte(s[2..][2 * k], s[2..][2 * k + 1], b[1..][k])
      {
        assert SpellsByte(s[2 * (k + 1)], s[2 * (k + 1) + 1], b[k + 1]);
      }
    }
    if SpellsByte(s[0], s[1], b[0]) && Spells(s[2..], b[1..]) {
      forall k | 0 <= k < |b|
        ensures SpellsByte(s[2 * k], s[2 * k + 1], b[k])
      {
        if k > 0 {
          assert SpellsByte(s[2..][2 * (k - 1)], s[2..][2 * (k - 1) + 1], b[1..][k - 1]);
        }
      }
    }
  }

  // Hexadecimal is read in either case, exactly when it spells the bytes.
  lemma {:induction false} HexIsSpelled(s: string, b: Bytes)
    ensures TunnelCodec.HexDecode(s) == Some(b) <==> Spells(s, b)
  {
    if |s| >= 2 && b != [] {
      HexIsSpelled(s[2..], b[1..]);
      SpellsHead(s, b);
      ByteIsSpelled(s[0], s[1], b[0]);
      assert b == [b[0]] + b[1..];
    }
  }

  // It is written in lower case.
  lemma {:induction false} HexIsLowerCase(b: Bytes, k: nat)
    requires k < |b|
    ensures var s := TunnelCodec.HexEncode(b);
      s[2 * k] == "0123456789abcdef"[b[k] / 16] && s[2 * k + 1] == "0123456789abcdef"[b[k] % 16]
  {
    if k > 0 {
      HexIsLowerCase(b[1..], k - 1);
    }
  }

  // The connection id's field: its first sixteen bytes, zeros behind a shorter one, and all zeros
  // if it is not hexadecimal.
  lemma ConnFieldIs(connID: string, id: Bytes)
    ensures var field, n := TunnelCodec.ConnField(connID), Min(16, |id|);
      && (Spells(connID, id) ==> field[..n] == id[..n] && forall k :: n <= k < 16 ==> field[k] == 0)
      && ((forall b :: !Spells(connID, b)) ==> forall k :: 0 <= k < 16 ==> field[k] == 0)
  {
    HexIsSpelled(connID, id);
    if TunnelCodec.HexDecode(connID).Some? {
      HexIsSpelled(connID, TunnelCodec.HexDecode(connID).value);
    }
  }

  // Type 0, the connection id's field, sequence number, target length, target, payload.
  lemma UploadLayout(u: TunnelCodec.Upload)
    requires |u.target| < 65536
    ensures var frame, t := TunnelCodec.UploadFrame(u), |u.target|;
      && |frame| == 23 + t + |u.payload| && frame[0] == 0 && frame[1..17] == TunnelCodec.ConnField(u.connID)
      && Field(frame, 17, 4, u.seqNo % 0x1_0000_0000) && Field(frame, 21, 2, t)
      && frame[23..23 + t] == u.target && frame[23 + t..] == u.payload
  {
    var frame := TunnelCodec.UploadFrame(u);
    assert frame == [0] + TunnelCodec.ConnField(u.connID) + TunnelCodec.UploadFields(u);
    assert Lies(frame, 17, TunnelCodec.UploadFields(u));
    TunnelCodec.UploadFieldsLie(frame, u);
    Field32At(frame, 17, u.seqNo);
    LengthField16(frame, 21, |u.target|);
  }

  // An upload frame is read exactly when it has type 0 and room for the target it announces.
  lemma UploadReadExactly(plain: Bytes, u: TunnelCodec.Upload)
    ensures TunnelCodec.ParseUploadFrame(plain) == Some(u) <==>
      && |plain| == 23 + |u.target| + |u.payload| && plain[0] == 0 && u.connID == TunnelCodec.HexEncode(plain[1..17])
      && Field(plain, 17, 4, u.seqNo) && Field(plain, 21, 2, |u.target|)
      && plain[23..23 + |u.target|] == u.target && plain[23 + |u.target|..] == u.payload
  {
    if |plain| >= 23 {
      ReadsAreBigEndian(plain[17..]);
      ReadsAreBigEndian(plain[21..]);
      assert plain[17..][..4] == plain[17..21] && plain[21..][..2] == plain[21..23];
    }
  }

  // A response body is refused exactly when it does not decrypt, is too short for its length
  // field, or announces more than it has; an empty one is no data.
  lemma ResponseReadExactly(open: Bytes -> Option<Bytes>, body: Bytes)
    ensures var r := TunnelCodec.ParseResponse(open, body);
      if body == [] then r == TunnelCodec.Parsed([])
      else if open(body).None? || |open(body).value| < 4 then r == TunnelCodec.Bad
      else
        var plain := open(body).value;
        var n := Val(plain[..4]);
        r == if 4 + n > |plain| then TunnelCodec.Bad else TunnelCodec.Parsed(plain[4..4 + n])
  {
    if open(body).Some? {
      ReadsAreBigEndian(open(body).value);
    }
  }

  // The data behind its length, padded to 512 bytes.
  lemma PaddedLayout(data: Bytes, noise: nat -> byte)
    requires |data| < 0x1_0000_0000
    ensures var plain := TunnelCodec.BuiltResponse(data, noise);
      && |plain| == 4 + (if |data| > 512 then |data| else 512)
      && Field(plain, 0, 4, |data|) && plain[4..4 + |data|] == data
  {
    var plain := TunnelCodec.BuiltResponse(data, noise);
    assert Lies(plain, 0, Put32(|data|));
    Field32At(plain, 0, |data|);
  }

  // ---- SOCKS5 UDP headers ----

  // Whatever the reserved bytes, a packet with a literal address is read as section 7 of RFC 1928
  // lays it out: fragment number, address type 1 or 4, address, port, payload.
  lemma AddressIsRead(
    resolve: Bytes -> Option<Bytes>, rsv: Bytes, frag: byte, ip: Bytes, port: nat, payload: Bytes)
    requires |rsv| == 2 && (|ip| == 4 || |ip| == 16) && port < 65536
    ensures var pkt := rsv + [frag, if |ip| == 4 then 1 else 4] + ip + (Put16(port) + payload);
      TunnelCodec.ParseHeader(resolve, pkt) == Some(TunnelCodec.Datagram(ip, port, payload, frag))
  {
    var pkt := rsv + [frag, if |ip| == 4 then 1 else 4] + ip + (Put16(port) + payload);
    var o := 4 + |ip|;
    assert pkt[2] == frag && pkt[4..o] == ip;
    PortIsRead(pkt, o, port, payload);
  }

  // A domain name stands behind its length under type 3 and is resolved.
  lemma DomainIsRead(
    resolve: Bytes -> Option<Bytes>, rsv: Bytes, frag: byte, host: Bytes, port: nat, payload: Bytes)
    requires |rsv| == 2 && |host| < 256 && port < 65536
    ensures var pkt := rsv + [frag, 3, |host|] + host + (Put16(port) + payload);
      TunnelCodec.ParseHeader(resolve, pkt) ==
        if resolve(host).None? then None
        else Some(TunnelCodec.Datagram(resolve(host).value, port, payload, frag))
  {
    var pkt := rsv + [frag, 3, |host|] + host + (Put16(port) + payload);
    var o := 5 + |host|;
    assert pkt[2] == frag && pkt[3] == 3 && pkt[4] == |host| && pkt[5..o] == host;
    PortIsRead(pkt, o, port, payload);
  }

  lemma PortIsRead(pkt: Bytes, o: nat, port: nat, payload: Bytes)
    requires o <= |pkt| && pkt[o..] == Put16(port) + payload && port < 65536
    ensures o + 2 <= |pkt| && Get16(pkt[o..]) == port && pkt[o + 2..] == payload
  {
    GetPut16(port);
    GetsPrefix(Put16(port), payload);
    assert pkt[o + 2..] == pkt[o..][2..];
  }

  // Other address types, and packets that end before the port, are refused.
  lemma OthersAreRefused(resolve: Bytes -> Option<Bytes>, pkt: Bytes)
    requires |pkt| < 4 || (pkt[3] != 1 && pkt[3] != 3 && pkt[3] != 4) || (pkt[3] == 1 && |pkt| < 10)
      || (pkt[3] == 4 && |pkt| < 22) || (pkt[3] == 3 && (|pkt| < 5 || |pkt| < 7 + pkt[4] as int))
    ensures TunnelCodec.ParseHeader(resolve, pkt).None?
  {
  }

  // What is written: three zero bytes, type 1 or 4, the address in shortest form, port, payload;
  // zeros stand for an address that is none.
  lemma HeaderLayout(ip: Bytes, port: nat, payload: Bytes)
    ensures var pkt := TunnelCodec.HeaderFor(ip, port, payload);
      var addr := WrittenAddress(ip);
      && pkt[..4] == [0, 0, 0, if |addr| == 4 then 1 else 4] && pkt[4..4 + |addr|] == addr
      && Field(pkt, 4 + |addr|, 2, port % 65536) && pkt[6 + |addr|..] == payload
  {
    var pkt, addr := TunnelCodec.HeaderFor(ip, port, payload), WrittenAddress(ip);
    assert pkt == pkt[..4] + (addr + (Put16(port) + payload));
    assert Lies(pkt, 4 + |addr|, Put16(port));
    Field16At(pkt, 4 + |addr|, port);
  }

  function WrittenAddress(ip: Bytes): (r: Bytes)
    ensures |r| == 4 || |r| == 16
  {
    if |ip| == 4 then ip
    else if |ip| != 16 then [0, 0, 0, 0, 0, 0, 0, 0, 0, 0, 0, 0, 0, 0, 0, 0]
    else if ip[..12] == [0, 0, 0, 0, 0, 0, 0, 0, 0, 0, 0xff, 0xff] then ip[12..]
    else ip
  }
}
