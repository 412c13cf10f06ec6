// dht/dht.go: 256-bit identifiers and the XOR metric.
module NodeId {
  import opened Common
  import opened Numbers

  const ID_BITS := 256

  type Id = b: Bytes | |b| == 32 witness seq(32, _ => 0)

  function XorByte(a: byte, b: byte): (r: byte)
    ensures r == 0 <==> a == b
  {
    XorBound(a, b, 8);
    Pow2Of8();
    XorZero(a, b, 8);
    Xor(a, b, 8)
  }

  // The XOR distance.
  function Distance(a: Id, b: Id): (d: Id) {
    seq(32, i requires 0 <= i < 32 => XorByte(a[i], b[i]))
  }

  method XorIds(a: Id, b: Id) returns (out: Id)
    ensures out == Distance(a, b)
  {
    var buf := new byte[32];
    for i := 0 to 32
      invariant forall j :: 0 <= j < i ==> buf[j] == XorByte(a[j], b[j])
    {
      buf[i] := XorByte(a[i], b[i]);
    }
    out := buf[..];
  }

  // bits.LeadingZeros8 of a nonzero byte.
  function LeadingZeros8(b: byte): (z: nat)
    requires b != 0
    ensures z < 8
  {
    if b >= 128 then 0 else if b >= 64 then 1 else if b >= 32 then 2 else if b >= 16 then 3
    else if b >= 8 then 4 else if b >= 4 then 5 else if b >= 2 then 6 else 7
  }

  // The position of the first one bit; the length in bits when there is none.
  function FirstOne(d: Bytes): (i: nat) {
    if d == [] then 0 else if d[0] != 0 then LeadingZeros8(d[0]) else 8 + FirstOne(d[1..])
  }

  function BucketIndex(d: Id): (i: nat)
    ensures i < ID_BITS
  {
    FirstOneBound(d);
    if FirstOne(d) < ID_BITS then FirstOne(d) else ID_BITS - 1
  }

  lemma {:induction false} FirstOneBound(d: Bytes)
    ensures FirstOne(d) <= 8 * |d|
    ensures FirstOne(d) < 8 * |d| <==> exists i :: 0 <= i < |d| && d[i] != 0
  {
    if d != [] && d[0] == 0 {
      FirstOneBound(d[1..]);
      if i :| 0 <= i < |d| && d[i] != 0 {
        assert d[1..][i - 1] != 0;
      }
    }
  }

  method FindBucketIndex(d: Id) returns (r: nat)
    ensures r == BucketIndex(d)
  {
    assert d[0..] == d;
    for i := 0 to 32
      invariant FirstOne(d) == 8 * i + FirstOne(d[i..])
    {
      assert d[i..][1..] == d[i + 1..];
      if d[i] != 0 {
        return i * 8 + LeadingZeros8(d[i]);
      }
    }
    r := ID_BITS - 1;
  }

  lemma ByteRange(b: byte)
    requires b != 0
    ensures Pow2(7 - LeadingZeros8(b)) <= b < Pow2(8 - LeadingZeros8(b))
  {
    assert Pow2(1) == 2 && Pow2(2) == 4 && Pow2(3) == 8 && Pow2(4) == 16;
    assert Pow2(5) == 32 && Pow2(6) == 64;
    assert Pow2(7) == 128;
    assert Pow2(8) == 256;
  }

  lemma ScaledRange(lo: nat, hi: nat, b: nat, p: nat, rest: nat)
    requires lo <= b < hi && rest < p
    ensures lo * p <= b * p + rest < hi * p
  {
    assert b * p == lo * p + (b - lo) * p;
    MulGap(b, hi, p);
  }

  // The first one bit is the magnitude of the number.
  lemma {:induction false} FirstOneIsMagnitude(d: Bytes)
    requires FirstOne(d) < 8 * |d|
    ensures Pow2(8 * |d| - 1 - FirstOne(d)) <= Val(d) < Pow2(8 * |d| - FirstOne(d))
  {
    var n := |d| - 1;
    ValHead(d);
    if d[0] != 0 {
      ValBound(d[1..]);
      HeadMagnitude(d[0], n, Val(d[1..]));
    } else {
      FirstOneIsMagnitude(d[1..]);
      assert 0 * Pow2(8 * n) == 0;
    }
  }

  lemma HeadMagnitude(b: byte, n: nat, rest: nat)
    requires b != 0 && rest < Pow2(8 * n)
    ensures var z := LeadingZeros8(b);
      Pow2(8 * n + 7 - z) <= b as int * Pow2(8 * n) + rest < Pow2(8 * n + 8 - z)
  {
    var z := LeadingZeros8(b);
    ByteRange(b);
    PowAdd(7 - z, 8 * n);
    PowAdd(8 - z, 8 * n);
    ScaledRange(Pow2(7 - z), Pow2(8 - z), b, Pow2(8 * n), rest);
  }

  // Bucket i holds exactly the distances in [2^(255-i), 2^(256-i)).
  lemma BucketIsDistanceRange(a: Id, b: Id)
    requires a != b
    ensures var i, d := BucketIndex(Distance(a, b)), Val(Distance(a, b));
      Pow2(255 - i) <= d < Pow2(256 - i)
  {
    var d := Distance(a, b);
    var i :| 0 <= i < 32 && a[i] != b[i];
    assert d[i] != 0;
    FirstOneBound(d);
    FirstOneIsMagnitude(d);
  }

  // Is a closer to the target than b?
  predicate Closer(a: Id, b: Id, target: Id) {
    Lex(Distance(a, target), Distance(b, target))
  }

  method IsCloser(a: Id, b: Id, target: Id) returns (r: bool)
    ensures r == Closer(a, b, target)
  {
    var da := XorIds(a, target);
    var db := XorIds(b, target);
    assert da[0..] == da && db[0..] == db;
    for i := 0 to 32
      invariant Lex(da, db) == Lex(da[i..], db[i..])
    {
      assert da[i..][1..] == da[i + 1..] && db[i..][1..] == db[i + 1..];
      if da[i] != db[i] {
        return da[i] < db[i];
      }
    }
    r := false;
  }

  // binary.BigEndian.Uint64 of the leading eight bytes of the distance.
  function Lead(a: Id, target: Id): (n: nat) {
    Val(Distance(a, target)[..8])
  }

  lemma {:induction false} LexOfPrefix(a: Bytes, b: Bytes, n: nat)
    requires |a| == |b| && n <= |a| && Lex(a[..n], b[..n])
    ensures Lex(a, b)
  {
    if a[0] == b[0] {
      assert a[..n][1..] == a[1..][..n - 1] && b[..n][1..] == b[1..][..n - 1];
      LexOfPrefix(a[1..], b[1..], n - 1);
    }
  }

  // A smaller leading part means closer in the full metric.
  lemma LeadDecides(a: Id, b: Id, target: Id)
    requires Lead(a, target) < Lead(b, target)
    ensures Closer(a, b, target) && Val(Distance(a, target)) < Val(Distance(b, target))
  {
    var da, db := Distance(a, target), Distance(b, target);
    LexIsValOrder(da[..8], db[..8]);
    LexOfPrefix(da, db, 8);
    LexIsValOrder(da, db);
  }

  // The full metric is the order of the distances as numbers.
  lemma CloserIsNumeric(a: Id, b: Id, target: Id)
    ensures Closer(a, b, target) <==> Val(Distance(a, target)) < Val(Distance(b, target))
  {
    LexIsValOrder(Distance(a, target), Distance(b, target));
  }

  // The leading part is the distance without its last 24 bytes.
  lemma LeadIsFront(a: Id, target: Id)
    ensures var rest := Pow2(8 * (|Distance(a, target)| - 8));
      Lead(a, target) * rest <= Val(Distance(a, target)) < (Lead(a, target) + 1) * rest
  {
    FrontBounds(Distance(a, target), 8);
  }

  lemma FrontBounds(d: Bytes, n: nat)
    requires n <= |d|
    ensures var lead, p := Val(d[..n]), Pow2(8 * (|d| - n));
      lead * p <= Val(d) < (lead + 1) * p
  {
    assert d == d[..n] + d[n..];
    ValAppend(d[..n], d[n..]);
    ValBound(d[n..]);
  }

  // ---- The distance is a metric ----

  lemma {:induction false} XorSymmetric(x: nat, y: nat, w: nat)
    ensures Xor(x, y, w) == Xor(y, x, w)
  {
    if w > 0 {
      XorSymmetric(x / 2, y / 2, w - 1);
    }
  }

  lemma {:induction false} XorUndone(x: nat, y: nat, w: nat)
    requires y < Pow2(w)
    ensures Xor(x, Xor(x, y, w), w) == y
  {
    if w > 0 {
      XorUndone(x / 2, y / 2, w - 1);
    }
  }

  lemma {:induction false} XorTriangle(x: nat, y: nat, z: nat, w: nat)
    ensures Xor(x, z, w) <= Xor(x, y, w) + Xor(y, z, w)
  {
    if w > 0 {
      XorTriangle(x / 2, y / 2, z / 2, w - 1);
    }
  }

  lemma {:induction false} ValOfSum(d: Bytes, e: Bytes, f: Bytes)
    requires |d| == |e| == |f| && forall i :: 0 <= i < |d| ==> d[i] as int <= e[i] as int + f[i] as int
    ensures Val(d) <= Val(e) + Val(f)
  {
    if d != [] {
      var n := |d| - 1;
      ValOfSum(d[..n], e[..n], f[..n]);
    }
  }

  // The distance is symmetric, zero exactly between equal ids, from every id there is exactly one
  // at each distance, and a detour is never shorter.
  lemma DistanceIsMetric(a: Id, b: Id, c: Id)
    ensures Distance(a, b) == Distance(b, a) && Distance(a, Distance(a, b)) == b
    ensures Val(Distance(a, b)) == 0 <==> a == b
    ensures Val(Distance(a, c)) <= Val(Distance(a, b)) + Val(Distance(b, c))
  {
    Pow2Of8();
    forall i | 0 <= i < 32
      ensures XorByte(a[i], b[i]) == XorByte(b[i], a[i]) && XorByte(a[i], XorByte(a[i], b[i])) == b[i]
      ensures XorByte(a[i], c[i]) as int <= XorByte(a[i], b[i]) as int + XorByte(b[i], c[i]) as int
    {
      XorSymmetric(a[i], b[i], 8);
      XorUndone(a[i], b[i], 8);
      XorTriangle(a[i], b[i], c[i], 8);
    }
    ValOfSum(Distance(a, c), Distance(a, b), Distance(b, c));
    if a == b {
      assert Distance(a, b) == Distance(a, a);
      ValOfZeros(Distance(a, b));
    } else {
      BucketIsDistanceRange(a, b);
    }
  }

  lemma {:induction false} ValOfZeros(d: Bytes)
    requires forall i :: 0 <= i < |d| ==> d[i] == 0
    ensures Val(d) == 0
  {
    if d != [] {
      ValOfZeros(d[..|d| - 1]);
    }
  }
}
