// encoding/binary.BigEndian on 16- and 32-bit fields, and the short form of an IP address.
module Wire {
  import opened Common

  const U16 := 0x1_0000
  const U32 := 0x1_0000_0000

  // PutUint16(buf, uint16(n)) and PutUint32(buf, uint32(n)): the conversion truncates.
  function Put16(n: nat): (b: Bytes)
    ensures |b| == 2
  {
    [n / 256 % 256, n % 256]
  }

  function Put32(n: nat): (b: Bytes)
    ensures |b| == 4
  {
    Put16(n / U16) + Put16(n)
  }

  function Get16(b: Bytes): (n: nat)
    requires |b| >= 2
    ensures n < U16
  {
    b[0] as int * 256 + b[1] as int
  }

  function Get32(b: Bytes): (n: nat)
    requires |b| >= 4
    ensures n < U32
  {
    Get16(b) * U16 + Get16(b[2..])
  }

  lemma GetPut16(n: nat)
    ensures Get16(Put16(n)) == n % U16
  {
    Quarters(n);
    assert Put16(n)[0] == n / 256 % 256 && Put16(n)[1] == n % 256;
  }

  lemma Quarters(n: nat)
    ensures n % U16 == n / 256 % 256 * 256 + n % 256
  {
    var q, hi, lo := n / 256 / 256, n / 256 % 256, n % 256;
    assert n == (q * 256 + hi) * 256 + lo == q * U16 + (hi * 256 + lo);
  }

  lemma Halves(n: nat)
    ensures n % U32 == n / U16 % U16 * U16 + n % U16
  {
  }

  lemma GetPut32(n: nat)
    ensures Get32(Put32(n)) == n % U32
  {
    var hi, lo := Put16(n / U16), Put16(n);
    GetPut16(n);
    GetPut16(n / U16);
    GetJoin(hi, lo);
    Halves(n);
  }

  lemma GetJoin(hi: Bytes, lo: Bytes)
    requires |hi| == 2 && |lo| == 2
    ensures Get32(hi + lo) == Get16(hi) * U16 + Get16(lo)
  {
    assert (hi + lo)[2..] == lo;
  }

  // Reading a field looks at its own bytes only.
  lemma GetsPrefix(a: Bytes, rest: Bytes)
    ensures |a| >= 2 ==> Get16(a + rest) == Get16(a)
    ensures |a| >= 4 ==> Get32(a + rest) == Get32(a)
  {
    if |a| >= 4 {
      assert (a + rest)[2..] == a[2..] + rest;
    }
  }

  lemma PutGet16(b: Bytes)
    requires |b| == 2
    ensures Put16(Get16(b)) == b
  {
  }

  lemma PutJoin(hi: nat, lo: nat)
    requires hi < U16 && lo < U16
    ensures Put32(hi * U16 + lo) == Put16(hi) + Put16(lo)
  {
    var n := hi * U16 + lo;
    assert n / U16 == hi;
    assert n / 256 % 256 == lo / 256 % 256;
    assert n % 256 == lo % 256;
  }

  lemma PutGet32(b: Bytes)
    requires |b| == 4
    ensures Put32(Get32(b)) == b
  {
    PutGet16(b[..2]);
    PutGet16(b[2..]);
    PutJoin(Get16(b[..2]), Get16(b[2..]));
    assert Get16(b) == Get16(b[..2]);
    assert b == b[..2] + b[2..];
  }

  // A length field followed by that many bytes, as it lies at offset o of data.
  ghost predicate Lies(data: Bytes, o: nat, part: Bytes) {
    o + |part| <= |data| && data[o..o + |part|] == part
  }

  lemma LiesSplit(data: Bytes, o: nat, a: Bytes, b: Bytes)
    ensures Lies(data, o, a + b) <==> Lies(data, o, a) && Lies(data, o + |a|, b)
  {
    if Lies(data, o, a + b) {
      assert data[o..o + |a|] == data[o..o + |a| + |b|][..|a|];
      assert data[o + |a|..o + |a| + |b|] == data[o..o + |a| + |b|][|a|..];
    }
    if Lies(data, o, a) && Lies(data, o + |a|, b) {
      assert data[o..o + |a| + |b|] == data[o..o + |a|] + data[o + |a|..o + |a| + |b|];
    }
  }

  lemma Lies16(data: Bytes, o: nat, n: nat)
    requires n < U16
    ensures Lies(data, o, Put16(n)) <==> o + 2 <= |data| && Get16(data[o..]) == n
  {
    GetPut16(n);
    if o + 2 <= |data| {
      PutGet16(data[o..o + 2]);
      assert Get16(data[o..]) == Get16(data[o..o + 2]);
    }
  }

  lemma Lies32(data: Bytes, o: nat, n: nat)
    requires n < U32
    ensures Lies(data, o, Put32(n)) <==> o + 4 <= |data| && Get32(data[o..]) == n
  {
    GetPut32(n);
    if o + 4 <= |data| {
      PutGet32(data[o..o + 4]);
      GetsPrefix(data[o..o + 4], data[o + 4..]);
      assert data[o..] == data[o..o + 4] + data[o + 4..];
    }
  }

  // copy(buf[o:], part) into a buffer that has room for it.
  method CopyInto(buf: array<byte>, o: nat, part: Bytes) returns (next: nat)
    requires o + |part| <= buf.Length
    modifies buf
    ensures next == o + |part|
    ensures buf[..next] == old(buf[..o]) + part
  {
    forall i | 0 <= i < |part| {
      buf[o + i] := part[i];
    }
    next := o + |part|;
  }

  // ---- IP addresses ----

  const V4_IN_V6: Bytes := [0, 0, 0, 0, 0, 0, 0, 0, 0, 0, 0xff, 0xff]

  // net.IP.To4; None is nil.
  function To4(ip: Bytes): (r: Option<Bytes>)
    ensures r.Some? ==> |r.value| == 4
  {
    if |ip| == 4 then Some(ip) else if |ip| == 16 && ip[..12] == V4_IN_V6 then Some(ip[12..]) else None
  }

  // net.IP.To16.
  function To16(ip: Bytes): (r: Option<Bytes>)
    ensures r.Some? ==> |r.value| == 16
  {
    if |ip| == 16 then Some(ip) else if |ip| == 4 then Some(V4_IN_V6 + ip) else None
  }
}
