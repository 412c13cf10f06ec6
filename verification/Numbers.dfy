// Machine integers as numbers: powers of two, bitwise and/xor, and the value and order of
// big-endian byte strings.
module Numbers {
  import opened Common

  function Pow2(n: nat): (p: nat)
    ensures p >= 1
  {
    if n == 0 then 1 else 2 * Pow2(n - 1)
  }

  lemma {:induction false} PowAdd(a: nat, b: nat)
    ensures Pow2(a + b) == Pow2(a) * Pow2(b)
  {
    if a > 0 {
      PowAdd(a - 1, b);
      assert Pow2(a + b) == 2 * (Pow2(a - 1) * Pow2(b)) == (2 * Pow2(a - 1)) * Pow2(b);
    }
  }

  // ---- Bitwise operations on the low w bits ----

  function And(x: nat, y: nat, w: nat): (r: nat) {
    if w == 0 then 0 else (if x % 2 == 1 && y % 2 == 1 then 1 else 0) + 2 * And(x / 2, y / 2, w - 1)
  }

  function Xor(x: nat, y: nat, w: nat): (r: nat) {
    if w == 0 then 0 else (if x % 2 == y % 2 then 0 else 1) + 2 * Xor(x / 2, y / 2, w - 1)
  }

  lemma {:induction false} AndBound(x: nat, y: nat, w: nat)
    ensures And(x, y, w) < Pow2(w) && And(x, y, w) <= x
  {
    if w > 0 {
      AndBound(x / 2, y / 2, w - 1);
    }
  }

  lemma {:induction false} XorBound(x: nat, y: nat, w: nat)
    ensures Xor(x, y, w) < Pow2(w)
  {
    if w > 0 {
      XorBound(x / 2, y / 2, w - 1);
    }
  }

  // Distance zero means equal.
  lemma {:induction false} XorZero(x: nat, y: nat, w: nat)
    requires x < Pow2(w) && y < Pow2(w)
    ensures Xor(x, y, w) == 0 <==> x == y
  {
    if w > 0 {
      XorZero(x / 2, y / 2, w - 1);
    }
  }

  lemma ModDouble(a: nat, m: nat)
    requires m > 0
    ensures a % (2 * m) == 2 * ((a / 2) % m) + a % 2
  {
    var q, r := (a / 2) / m, (a / 2) % m;
    assert a / 2 == q * m + r;
    assert a == 2 * (a / 2) + a % 2;
    assert 2 * (q * m) == q * (2 * m);
    assert a == q * (2 * m) + (2 * r + a % 2);
    ModUnique(a, 2 * m, q, 2 * r + a % 2);
  }

  lemma MulMono(x: nat, y: nat, p: nat)
    requires x <= y
    ensures x * p <= y * p
  {
  }

  lemma MulGap(x: nat, y: nat, p: nat)
    requires x < y
    ensures y * p >= x * p + p
  {
    var d := y - x - 1;
    assert y * p == (x + 1 + d) * p == x * p + p + d * p;
  }

  lemma ModUnique(a: nat, m: nat, q: nat, r: nat)
    requires m > 0 && a == q * m + r && r < m
    ensures a % m == r && a / m == q
  {
    var q', r' := a / m, a % m;
    assert a == q' * m + r';
    if q < q' {
      MulGap(q, q', m);
    } else if q' < q {
      MulGap(q', q, m);
    }
  }

  lemma AndEven(a: nat, half: nat, w: nat, m: nat, mask: nat, q: nat)
    requires w > 0 && m > 0 && mask == 2 * half && q == 2 * m
    requires And(a / 2, half, w - 1) == a / 2 - (a / 2) % m
    ensures And(a, mask, w) == a - a % q
  {
    AndStep(a, mask, w);
    ModDouble(a, m);
  }

  lemma AndAll(a: nat, w: nat)
    requires a < Pow2(w)
    ensures And(a, Pow2(w) - Pow2(0), w) == a - a % Pow2(0)
  {
    AndOnes(a, w);
    assert a % 1 == 0;
  }

  // Masking with w-k ones followed by k zeros rounds down to a multiple of 2^k.
  lemma {:induction false} AndPrefix(a: nat, w: nat, k: nat)
    requires k <= w && a < Pow2(w)
    ensures Pow2(k) <= Pow2(w) && And(a, Pow2(w) - Pow2(k), w) == a - a % Pow2(k)
  {
    PowMono(k, w);
    if k == 0 {
      AndAll(a, w);
    } else {
      AndPrefix(a / 2, w - 1, k - 1);
      AndEven(a, Pow2(w - 1) - Pow2(k - 1), w, Pow2(k - 1), Pow2(w) - Pow2(k), Pow2(k));
    }
  }

  lemma {:induction false} AndOnes(a: nat, w: nat)
    requires a < Pow2(w)
    ensures And(a, Pow2(w) - 1, w) == a
  {
    if w > 0 {
      var ones := Pow2(w) - 1;
      AndOnes(a / 2, w - 1);
      AndStep(a, ones, w);
      assert ones % 2 == 1 && ones / 2 == Pow2(w - 1) - 1;
    }
  }

  lemma {:induction false} PowMono(k: nat, w: nat)
    requires k <= w
    ensures Pow2(k) <= Pow2(w)
  {
    if k < w {
      PowMono(k, w - 1);
    }
  }

  // ---- Byte strings ----

  function Val(s: Bytes): (n: nat) {
    if s == [] then 0 else Val(s[..|s| - 1]) * 256 + s[|s| - 1]
  }

  // bytes.Compare(a, b) < 0 on strings of one length.
  predicate Lex(a: Bytes, b: Bytes)
    requires |a| == |b|
  {
    a != [] && (a[0] < b[0] || (a[0] == b[0] && Lex(a[1..], b[1..])))
  }

  lemma {:induction false} ValHead(s: Bytes)
    requires s != []
    ensures Val(s) == s[0] * Pow2(8 * (|s| - 1)) + Val(s[1..])
  {
    if |s| > 1 {
      var front, n := s[..|s| - 1], |s| - 2;
      ValHead(front);
      assert front[1..] == s[1..][..|s[1..]| - 1];
      assert Pow2(8 * n + 8) == 256 * Pow2(8 * n) by {
        PowAdd(8, 8 * n);
        Pow2Of8();
      }
      assert (s[0] as int * Pow2(8 * n)) * 256 == s[0] as int * Pow2(8 * (n + 1));
    } else {
      assert s[..0] == [] && s[1..] == [];
    }
  }

  lemma Pow2Of8()
    ensures Pow2(8) == 256
  {
    assert Pow2(4) == 16;
  }

  lemma {:induction false} ValBound(s: Bytes)
    ensures Val(s) < Pow2(8 * |s|)
  {
    if s != [] {
      ValBound(s[..|s| - 1]);
      PowAdd(8, 8 * (|s| - 1));
      Pow2Of8();
    }
  }

  lemma {:induction false} ValAppend(a: Bytes, b: Bytes)
    ensures Val(a + b) == Val(a) * Pow2(8 * |b|) + Val(b)
  {
    if b == [] {
      assert a + b == a;
    } else {
      var front, n := b[..|b| - 1], |b| - 1;
      ValAppend(a, front);
      assert (a + b)[..|a + b| - 1] == a + front;
      PowAdd(8 * n, 8);
      Pow2Of8();
      assert 8 * n + 8 == 8 * |b|;
      assert (Val(a) * Pow2(8 * n)) * 256 == Val(a) * (Pow2(8 * n) * 256);
    }
  }

  // Every number that fits is the value of some byte string.
  lemma {:induction false} OfVal(n: nat, len: nat) returns (s: Bytes)
    requires n < Pow2(8 * len)
    ensures |s| == len && Val(s) == n
  {
    s := [];
    if len > 0 {
      PowAdd(8, 8 * (len - 1));
      Pow2Of8();
      var front := OfVal(n / 256, len - 1);
      s := front + [n % 256];
      assert s[..|s| - 1] == front;
    }
  }

  // Comparing byte strings of one length compares their values.
  lemma {:induction false} LexIsValOrder(a: Bytes, b: Bytes)
    requires |a| == |b|
    ensures Lex(a, b) <==> Val(a) < Val(b)
    ensures a == b <==> Val(a) == Val(b)
  {
    if a != [] {
      LexIsValOrder(a[1..], b[1..]);
      ValHead(a);
      ValHead(b);
      ValBound(a[1..]);
      ValBound(b[1..]);
      var p := Pow2(8 * (|a| - 1));
      if a[0] < b[0] {
        HeadDominates(a[0], b[0], p, Val(a[1..]), Val(b[1..]));
      } else if b[0] < a[0] {
        HeadDominates(b[0], a[0], p, Val(b[1..]), Val(a[1..]));
      } else {
        assert a == [a[0]] + a[1..] && b == [b[0]] + b[1..];
      }
    }
  }

  lemma HeadDominates(x: nat, y: nat, p: nat, u: nat, v: nat)
    requires x < y && u < p
    ensures x * p + u < y * p + v
  {
    MulGap(x, y, p);
  }

  function AndBytes(a: Bytes, m: Bytes): (r: Bytes)
    requires |a| == |m|
    ensures |r| == |a|
  {
    seq(|a|, i requires 0 <= i < |a| => AndByte(a[i], m[i]))
  }

  function AndByte(a: byte, m: byte): (r: byte) {
    AndBound(a, m, 8);
    Pow2Of8();
    And(a, m, 8)
  }

  // x followed by j zero bits.
  function Shift(x: nat, j: nat): (r: nat) {
    if j == 0 then x else 2 * Shift(x, j - 1)
  }

  // Halving a number shifted by j halves the low part and drops the last bit.
  lemma HalveShift(x: nat, b: nat, j: nat)
    requires j > 0
    ensures (Shift(x, j) + b) / 2 == Shift(x, j - 1) + b / 2 && (Shift(x, j) + b) % 2 == b % 2
  {
  }

  lemma {:induction false} AndSplit(x: nat, b: nat, y: nat, c: nat, w: nat, j: nat)
    requires b < Pow2(j) && c < Pow2(j)
    ensures And(Shift(x, j) + b, Shift(y, j) + c, w + j) == Shift(And(x, y, w), j) + And(b, c, j)
  {
    if j > 0 {
      AndSplit(x, b / 2, y, c / 2, w, j - 1);
      HalveShift(x, b, j);
      HalveShift(y, c, j);
      AndStep(Shift(x, j) + b, Shift(y, j) + c, w + j);
      AndStep(b, c, j);
    }
  }

  lemma AndStep(u: nat, v: nat, w: nat)
    requires w > 0
    ensures And(u, v, w) == (if u % 2 == 1 && v % 2 == 1 then 1 else 0) + 2 * And(u / 2, v / 2, w - 1)
  {
  }

  lemma ShiftByte(x: nat)
    ensures Shift(x, 8) == 256 * x
  {
    assert Shift(x, 1) == 2 * x;
    assert Shift(x, 2) == 4 * x;
    assert Shift(x, 3) == 8 * x;
    assert Shift(x, 4) == 16 * x;
    assert Shift(x, 5) == 32 * x;
    assert Shift(x, 6) == 64 * x;
    assert Shift(x, 7) == 128 * x;
  }

  // Masking byte by byte is masking the number.
  lemma {:induction false} AndBytesVal(a: Bytes, m: Bytes)
    requires |a| == |m|
    ensures Val(AndBytes(a, m)) == And(Val(a), Val(m), 8 * |a|)
  {
    if a != [] {
      var n := |a| - 1;
      AndBytesVal(a[..n], m[..n]);
      assert AndBytes(a, m)[..n] == AndBytes(a[..n], m[..n]);
      Pow2Of8();
      AndSplit(Val(a[..n]), a[n], Val(m[..n]), m[n], 8 * n, 8);
      ShiftByte(Val(a[..n]));
      ShiftByte(Val(m[..n]));
      ShiftByte(And(Val(a[..n]), Val(m[..n]), 8 * n));
    }
  }
}
